/**
 * The target operations as functions of the target's state: the bits each one
 * clocks out, whether it succeeds, the state it leaves, and what that means for
 * the flash.
 */
module IsspOperations {
  import opened Bits
  import opened IsspTarget
  import opened IsspFrames

  // Vectors whose meaning to the target is left open.
  const INIT1: seq<Byte> :=
    [0xCA, 0x00, 0x00, 0x00, 0x00, 0x00, 0x00, 0x00, 0x00, 0x00, 0x00, 0x00, 0x00, 0x00, 0x00, 0x00] +
    [0x0D, 0xEE, 0x01, 0xF7, 0xB0, 0x07, 0x9F, 0x07, 0x5E, 0x7C, 0x81, 0xFD, 0xEA, 0x01, 0xF7, 0xA0] +
    [0x1F, 0x9F, 0x70, 0x1F, 0x7C, 0x98, 0x7D, 0xF4, 0x81, 0xF7, 0x80, 0x4F, 0xDF, 0x00, 0x1F, 0x7F] +
    [0x89, 0x70]
  const INIT2: seq<Byte> :=
    [0xDE, 0xE0, 0x1F, 0x7B, 0x00, 0x79, 0xF0, 0x75, 0xE7, 0xC8, 0x1F, 0xDE, 0xA0, 0x1F, 0x7A, 0x01] +
    [0xF9, 0xF7, 0x01, 0xF7, 0xC9, 0x87, 0xDF, 0x48, 0x1E, 0x7D, 0x00, 0xFD, 0xE0, 0x0D, 0xF7, 0xC0] +
    [0x07, 0xDF, 0xE2, 0x5C]
  const INIT3: seq<Byte> :=
    [0xDE, 0xE0, 0x1F, 0x7A, 0x01, 0xFD, 0xEA, 0x01, 0xF7, 0xB0, 0x47, 0xDF, 0x0A, 0x3F, 0x7C, 0xFC] +
    [0x7D, 0xF4, 0x61, 0xF7, 0xF8, 0x97, 0x00, 0x00, 0x03, 0x7B, 0x80, 0x7D, 0xE8, 0x07, 0xF7, 0xA8] +
    [0x07, 0xDE, 0xC1, 0x1F, 0x7C, 0x30, 0x7D, 0xF3, 0xD5, 0xF7, 0xD1, 0x87, 0xDE, 0xE2, 0x1F, 0x7F] +
    [0x89, 0x70, 0x00, 0x00, 0x37, 0xB8, 0x07, 0xDE, 0x80, 0x7F, 0x7A, 0x80, 0x7D, 0xEC, 0x11, 0xF7] +
    [0xC2, 0x8F, 0xDF, 0x3F, 0x3F, 0x7D, 0x18, 0x7D, 0xFE, 0x25, 0xC0, 0x00, 0x00, 0xDE, 0xE0, 0x1F] +
    [0x7A, 0x01, 0xFD, 0xEA, 0x01, 0xF7, 0xB0, 0x47, 0xDF, 0x0C, 0x1F, 0x7C, 0xF4, 0x7D, 0xF4, 0x61] +
    [0xF7, 0xB8, 0x87, 0xDF, 0xE2, 0x5C, 0x00, 0x00, 0x00]
  const ID_SETUP: seq<Byte> :=
    [0xDE, 0xE2, 0x1F, 0x70, 0x01, 0x7D, 0xEE, 0x01, 0xF7, 0xB0, 0x07, 0x9F, 0x07, 0x5E, 0x7C, 0x81] +
    [0xFD, 0xEA, 0x01, 0xF7, 0xA0, 0x1F, 0x9F, 0x70, 0x1F, 0x7C, 0x98, 0x7D, 0xF4, 0x81, 0xE7, 0xD0] +
    [0x07, 0xDE, 0x00, 0xDF, 0x7C, 0x00, 0x7D, 0xFE, 0x25, 0xC0]
  const ERASE_ALL: seq<Byte> :=
    [0x9F, 0x82, 0xBE, 0x7F, 0x2B, 0x7D, 0xEE, 0x01, 0xF7, 0xB0, 0x07, 0x9F, 0x07, 0x5E, 0x7C, 0x81] +
    [0xFD, 0xEA, 0x01, 0xF7, 0xA0, 0x1F, 0x9F, 0x70, 0x1F, 0x7C, 0x98, 0x7D, 0xF4, 0x81, 0xF7, 0x80] +
    [0x2F, 0xDF, 0x00, 0x1F, 0x7F, 0x89, 0x70]
  const SECURITY: seq<Byte> :=
    [0x9F, 0x8A, 0x9E, 0x7F, 0x2B, 0x7D, 0xEE, 0x01, 0xF7, 0xB0, 0x07, 0x9F, 0x07, 0x5E, 0x7C, 0x81] +
    [0xFD, 0xEA, 0x01, 0xF7, 0xA0, 0x1F, 0x9F, 0x70, 0x1F, 0x7C, 0x98, 0x7D, 0xF4, 0x81, 0xF7, 0x80] +
    [0x27, 0xDF, 0x00, 0x1F, 0x7F, 0x89, 0x70]
  const SECURITY_VERIFICATION: seq<Byte> :=
    [0xDE, 0xE0, 0x1F, 0x7B, 0x00, 0x79, 0xF0, 0x75, 0xE7, 0xC8, 0x1F, 0x9F, 0xA0, 0x1E, 0x7F, 0x80] +
    [0x7D, 0xEA, 0x01, 0xF7, 0xA0, 0x1F, 0x9F, 0x70, 0x1F, 0x7C, 0x98, 0x7D, 0xF4, 0x81, 0xF7, 0x80] +
    [0x87, 0xDF, 0x00, 0x1F, 0x7F, 0x89, 0x70]

  const TRANSITION_TIMEOUT: nat := 0x20000
  const TARGET_ID: seq<Byte> := [0x00, 0x38]
  const SECURITY_BYTES: nat := 32

  // ---------------------------------------------------------------- handshake

  /** The first high poll is number h, within the time limit. */
  ghost predicate RisesAt(w: World, c: Chip, h: nat) {
    h <= TRANSITION_TIMEOUT && Pin(w, c, h) && forall k | 0 <= k < h :: !Pin(w, c, k)
  }

  /** The first low poll after number h is number l, within the time limit. */
  ghost predicate FallsAt(w: World, c: Chip, h: nat, l: nat) {
    h < l <= h + 1 + TRANSITION_TIMEOUT && !Pin(w, c, l) && forall k | h < k < l :: Pin(w, c, k)
  }

  /** The target acknowledges: SDATA is seen high and then low, each within its time limit. */
  ghost predicate Acknowledges(w: World, c: Chip) {
    exists h: nat, l: nat :: RisesAt(w, c, h) && FallsAt(w, c, h, l)
  }

  /** Only an execution that took effect is acknowledged. */
  lemma AcknowledgedActs(w: World, c: Chip)
    requires c.shift == [] && Acknowledges(w, c)
    ensures c.execs > 0 && w.acts(c.execs - 1)
  {
    var h: nat, l: nat :| RisesAt(w, c, h) && FallsAt(w, c, h, l);
    assert Pin(w, c, h);
  }

  datatype Outcome = Outcome(chip: Chip, failed: bool)

  /** Clock out a sequence, wait for the acknowledge, and on success send the forty zeros. */
  ghost function Handshake(w: World, c: Chip, bits: seq<bool>): Outcome {
    var d := Feed(w, c, bits);
    if Acknowledges(w, d) then Outcome(Feed(w, d, Zeros(40)), false) else Outcome(d, true)
  }

  /** Forty zeros bring any target to a frame boundary with an empty queue. */
  lemma HandshakeAligns(w: World, c: Chip, bits: seq<bool>)
    requires |c.shift| < FRAME
    ensures var o := Handshake(w, c, bits); |o.chip.shift| < FRAME && (!o.failed ==> Aligned(o.chip))
  {
    var d := Feed(w, c, bits);
    FeedKeepsShiftShort(w, c, bits);
    FeedKeepsShiftShort(w, d, Zeros(40));
    FeedZerosAligns(w, d, 40);
  }

  // --------------------------------------------------------------- block load

  /** The write-byte frames for the first n bytes of a block. */
  function LoadBits(data: seq<Byte>, n: nat): seq<bool>
    requires n <= |data| && n <= BLOCK_SIZE
  {
    if n == 0 then [] else LoadBits(data, n - 1) + WriteByteBits(n - 1, data[n - 1])
  }

  /** The target with the first n bytes of its block buffer replaced. */
  function Loaded(c: Chip, data: seq<Byte>, n: nat): Chip
    requires n <= |data| && n <= BLOCK_SIZE
  {
    c.(mem := c.mem.(ram := data[..n] + c.mem.ram[n..]))
  }

  lemma LoadedStep(c: Chip, data: seq<Byte>, n: nat)
    requires n < |data| && n < BLOCK_SIZE
    ensures var d := Loaded(c, data, n);
            d.(mem := d.mem.(ram := d.mem.ram[n := data[n]])) == Loaded(c, data, n + 1)
  {
    assert (data[..n] + c.mem.ram[n..])[n := data[n]] == data[..n + 1] + c.mem.ram[n + 1..];
  }

  /** A target at a frame boundary recovers from these frames exactly the bytes sent, in place. */
  lemma {:induction false} LoadEffect(w: World, c: Chip, data: seq<Byte>, n: nat)
    requires c.shift == [] && n <= |data| && n <= BLOCK_SIZE
    ensures Feed(w, c, LoadBits(data, n)) == Loaded(c, data, n)
  {
    if n == 0 {
      assert data[..0] + c.mem.ram[0..] == c.mem.ram;
      assert Feed(w, c, []) == c;
    } else {
      var m := n - 1;
      LoadEffect(w, c, data, m);
      LoadedStep(c, data, m);
      WriteByteFrame(w, Loaded(c, data, m), m, data[m]);
      FeedTwice(w, c, LoadBits(data, m), WriteByteBits(m, data[m]), Loaded(c, data, m), Loaded(c, data, n));
    }
  }

  // -------------------------------------------- program, read back, checksum

  function ProgramSequence(k: Byte): seq<bool> { SetBlockBits(k) + ProgramBits() + [false] }
  function VerifySequence(k: Byte): seq<bool> { SetBlockBits(k) + VerifyBits() + [false] }
  function ChecksumSequence(): seq<bool> { ChecksumBits() + [false] }

  /** Block select, program vector and one clock program the block buffer into that block of flash. */
  lemma ProgramEffect(w: World, c: Chip, k: Byte)
    requires Aligned(c) && k < 128
    ensures var r := Feed(w, c, ProgramSequence(k));
            Aligned(r) && r.execs == c.execs + 1 &&
            (w.acts(c.execs) ==>
               r.mem == c.mem.(block := k, flash := c.mem.flash[k as int := w.burn(c.execs, c.mem.ram)]))
  {
    var c1 := c.(mem := c.mem.(block := k));
    SetBlockFrame(w, c, k);
    ProgramQueues();
    FeedQueues(w, c1, ProgramBits());
    var c2 := Enqueue(c1, ProgramBits());
    assert c2.queue == ProgramBits();
    FeedTwice(w, c, SetBlockBits(k), ProgramBits(), c1, c2);
    FeedClock(w, c2);
    FeedTwice(w, c, SetBlockBits(k) + ProgramBits(), [false], c2, Execute(w, c2));
  }

  /** Block select, verify-setup vector and one clock copy that block of flash into the block buffer. */
  lemma VerifyEffect(w: World, c: Chip, k: Byte)
    requires Aligned(c) && k < 128
    ensures var r := Feed(w, c, VerifySequence(k));
            Aligned(r) && r.execs == c.execs + 1 && r.mem.flash == c.mem.flash &&
            (w.acts(c.execs) ==> r.mem.ram == c.mem.flash[k as int])
  {
    var c1 := c.(mem := c.mem.(block := k));
    SetBlockFrame(w, c, k);
    VerifyQueues();
    FeedQueues(w, c1, VerifyBits());
    var c2 := Enqueue(c1, VerifyBits());
    assert c2.queue == VerifyBits();
    TagsDiffer();
    FeedTwice(w, c, SetBlockBits(k), VerifyBits(), c1, c2);
    FeedClock(w, c2);
    FeedTwice(w, c, SetBlockBits(k) + VerifyBits(), [false], c2, Execute(w, c2));
  }

  lemma SplitWord(s: Word)
    ensures 256 * ((s / 256) as Byte) as int + ((s % 256) as Byte) as int == s
  {
    ByteOfInt(s / 256);
    ByteOfInt(s % 256);
  }

  /** The checksum vector and one clock leave the 16-bit sum of the flash in the result registers. */
  lemma ChecksumEffect(w: World, c: Chip)
    requires Aligned(c)
    ensures var r := Feed(w, c, ChecksumSequence());
            Aligned(r) && r.execs == c.execs + 1 && r.mem.flash == c.mem.flash &&
            (w.acts(c.execs) ==> Result(r) == SumAll(c.mem.flash) % 0x10000)
  {
    ChecksumVector(w, c);
    TagsDiffer();
    SplitWord(SumAll(c.mem.flash) % 0x10000);
    var c2 := c.(mem := c.mem.(block := 0), queue := ChecksumTag());
    FeedClock(w, c2);
    FeedTwice(w, c, ChecksumBits(), [false], c2, Execute(w, c2));
  }

  lemma TagsDiffer()
    ensures ProgramBits() != VerifyBits() && ProgramBits() != ChecksumTag() && VerifyBits() != ChecksumTag()
    ensures ProgramBits() != [] && VerifyBits() != [] && ChecksumTag() != []
  {
    assert |ProgramBits()| == 308 && |VerifyBits()| == 264 && |ChecksumTag()| == 264;
    assert VerifyBits()[214] == BitOf(VERIFY_SETUP[26], 6);
    assert ChecksumTag()[214] == ChecksumBits()[236] == BitOf(CHECKSUM[29], 4);
  }

  /** Programming: the block buffer is loaded with the data, then copied to block k. */
  ghost function ProgramOutcome(w: World, c: Chip, k: Byte): Outcome {
    Handshake(w, c, ProgramSequence(k))
  }

  /** Reading back: block k is copied to the block buffer, which is compared with the data. */
  ghost function VerifyOutcome(w: World, c: Chip, k: Byte, data: seq<Byte>): Outcome {
    var h := Handshake(w, c, VerifySequence(k));
    if h.failed then h else Outcome(h.chip, h.chip.mem.ram != data)
  }

  ghost function ChecksumOutcome(w: World, c: Chip): Outcome {
    Handshake(w, c, ChecksumSequence())
  }

  /** A successful program operation on an aligned target writes block k, from its block buffer, and no other. */
  lemma ProgramMeaning(w: World, c: Chip, k: Byte)
    requires Aligned(c) && k < 128
    ensures var o := ProgramOutcome(w, c, k);
            !o.failed ==> Aligned(o.chip) && o.chip.mem.flash == c.mem.flash[k as int := w.burn(c.execs, c.mem.ram)]
  {
    ProgramEffect(w, c, k);
    var d := Feed(w, c, ProgramSequence(k));
    if Acknowledges(w, d) {
      AcknowledgedActs(w, d);
      FeedIdle(w, d, 40);
    }
  }

  /** A verify operation leaves the flash alone, and succeeds exactly if it is acknowledged and block k is the data. */
  lemma VerifyMeaning(w: World, c: Chip, k: Byte, data: seq<Byte>)
    requires Aligned(c) && k < 128
    ensures var o := VerifyOutcome(w, c, k, data);
            Aligned(o.chip) && o.chip.mem.flash == c.mem.flash &&
            (!o.failed <==> Acknowledges(w, Feed(w, c, VerifySequence(k))) && c.mem.flash[k as int] == data)
  {
    VerifyEffect(w, c, k);
    var d := Feed(w, c, VerifySequence(k));
    if Acknowledges(w, d) {
      AcknowledgedActs(w, d);
      FeedIdle(w, d, 40);
    }
  }

  /** A successful checksum operation leaves the 16-bit sum of the whole flash in the result registers. */
  lemma ChecksumMeaning(w: World, c: Chip)
    requires Aligned(c)
    ensures var o := ChecksumOutcome(w, c);
            Aligned(o.chip) && o.chip.mem.flash == c.mem.flash &&
            (!o.failed ==> Result(o.chip) == SumAll(c.mem.flash) % 0x10000)
  {
    ChecksumEffect(w, c);
    var d := Feed(w, c, ChecksumSequence());
    if Acknowledges(w, d) {
      AcknowledgedActs(w, d);
      FeedIdle(w, d, 40);
    }
  }

  /** The two result registers as one 16-bit number. */
  function Result(c: Chip): Word {
    256 * c.mem.hi as int + c.mem.lo as int
  }

  // ------------------------------------------------------ the other operations

  ghost function InitializeOutcome(w: World, c: Chip): Outcome {
    var h1 := Handshake(w, Reset(w, c), VectorBits(INIT1, 396) + [false]);
    if h1.failed then h1 else
    var h2 := Handshake(w, h1.chip, VectorBits(INIT2, 286) + [false]);
    if h2.failed then h2 else
    Outcome(Feed(w, Feed(w, h2.chip, VectorBits(INIT3, 836) + [false]), Zeros(40)), false)
  }

  ghost function SiliconIdOutcome(w: World, c: Chip): Outcome {
    var h := Handshake(w, c, VectorBits(ID_SETUP, 330) + [false]);
    if h.failed then h else Outcome(h.chip, [h.chip.mem.lo, h.chip.mem.hi] != TARGET_ID)
  }

  ghost function EraseOutcome(w: World, c: Chip): Outcome {
    Handshake(w, c, VectorBits(ERASE_ALL, 308) + [false])
  }

  ghost function SecurityFlashOutcome(w: World, c: Chip, data: seq<Byte>): Outcome
    requires |data| == BLOCK_SIZE
  {
    Handshake(w, c, LoadBits(data, SECURITY_BYTES) + VectorBits(SECURITY, 308) + [false])
  }

  ghost function SecurityVerifyOutcome(w: World, c: Chip, data: seq<Byte>): Outcome
    requires |data| == BLOCK_SIZE
  {
    var h := Handshake(w, c, VectorBits(SECURITY_VERIFICATION, 308) + [false]);
    if h.failed then h else Outcome(h.chip, h.chip.mem.ram[..32] != data[..32])
  }

  /** Whatever the opaque vectors mean, these operations end at a frame boundary when they succeed. */
  lemma OtherOperationsAlign(w: World, c: Chip, data: seq<Byte>)
    requires |c.shift| < FRAME && |data| == BLOCK_SIZE
    ensures forall o | o in [InitializeOutcome(w, c), SiliconIdOutcome(w, c), EraseOutcome(w, c),
                             SecurityFlashOutcome(w, c, data), SecurityVerifyOutcome(w, c, data)] ::
              |o.chip.shift| < FRAME && (!o.failed ==> Aligned(o.chip))
  {
    var init1, init2 := VectorBits(INIT1, 396) + [false], VectorBits(INIT2, 286) + [false];
    HandshakeAligns(w, Reset(w, c), init1);
    var h1 := Handshake(w, Reset(w, c), init1);
    HandshakeAligns(w, h1.chip, init2);
    var h2 := Handshake(w, h1.chip, init2);
    var d := Feed(w, h2.chip, VectorBits(INIT3, 836) + [false]);
    FeedKeepsShiftShort(w, h2.chip, VectorBits(INIT3, 836) + [false]);
    FeedZerosAligns(w, d, 40);
    HandshakeAligns(w, c, VectorBits(ID_SETUP, 330) + [false]);
    HandshakeAligns(w, c, VectorBits(ERASE_ALL, 308) + [false]);
    HandshakeAligns(w, c, LoadBits(data, SECURITY_BYTES) + VectorBits(SECURITY, 308) + [false]);
    HandshakeAligns(w, c, VectorBits(SECURITY_VERIFICATION, 308) + [false]);
  }
}
