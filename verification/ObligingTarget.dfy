/**
 * A target that does what is asked of it: every execution takes effect and is
 * acknowledged in time, the flash keeps what it is given, and the opaque vectors
 * leave the memory alone and the right id in the result registers. Every operation
 * on it succeeds.
 */
module ObligingTarget {
  import opened Bits
  import opened IsspTarget
  import opened IsspFrames
  import opened IsspOperations
  import opened IsspVectors

  /** The level after execution n rises at poll h and falls at poll l, each in time. */
  predicate RisesAndFalls(w: World, n: nat, h: nat, l: nat) {
    && h <= TRANSITION_TIMEOUT && w.level(n, h) && (forall k: nat | k < h :: !w.level(n, k))
    && h < l <= h + 1 + TRANSITION_TIMEOUT && !w.level(n, l) && (forall k: nat | h < k < l :: w.level(n, k))
  }

  ghost predicate RespondsTo(w: World, n: nat) {
    w.acts(n) && exists h, l :: RisesAndFalls(w, n, h, l)
  }

  ghost predicate Responds(w: World) {
    forall n: nat :: RespondsTo(w, n)
  }

  /** The opaque vectors keep buffer and flash, and leave the id in the result registers. */
  ghost predicate KeepsMemory(w: World) {
    forall q, m: Memory ::
      w.other(q, m).ram == m.ram && w.other(q, m).flash == m.flash && [w.other(q, m).lo, w.other(q, m).hi] == TARGET_ID
  }

  ghost predicate Obliging(w: World) {
    Responds(w) && KeepsMemory(w) && forall n: nat, b: BlockData :: w.burn(n, b) == b
  }

  lemma Acknowledged(w: World, c: Chip)
    requires Responds(w) && c.shift == [] && c.execs > 0
    ensures Acknowledges(w, c)
  {
    var n := c.execs - 1;
    assert RespondsTo(w, n);
    assert forall k: nat :: Pin(w, c, k) == w.level(n, k);
    var h, l :| RisesAndFalls(w, n, h, l);
    assert RisesAt(w, c, h) && FallsAt(w, c, h, l);
  }

  lemma ObligingResponds(w: World)
    requires Obliging(w)
    ensures Responds(w)
  {
  }

  lemma InitializeSucceeds(w: World, c: Chip)
    requires Obliging(w)
    ensures var o := InitializeOutcome(w, c); !o.failed && Aligned(o.chip)
  {
    hide Feed, VectorBits, Acknowledges, Obliging, InitializeOutcome, Init1Memory, Init2Memory, Init3Memory;
    ObligingResponds(w);
    InitializeMeaning(w, c);
    FeedInit1(w, Reset(w, c));
    var d1 := Feed(w, Reset(w, c), VectorBits(INIT1, 396) + [false]);
    Acknowledged(w, d1);
    FeedInit2(w, d1);
    Acknowledged(w, Feed(w, d1, VectorBits(INIT2, 286) + [false]));
  }

  lemma EraseSucceeds(w: World, c: Chip)
    requires Obliging(w) && Aligned(c)
    ensures var o := EraseOutcome(w, c); !o.failed && Aligned(o.chip)
  {
    hide Feed, VectorBits, Queues, IsOther, Acknowledges, Obliging, EraseOutcome;
    ObligingResponds(w);
    EraseMeaning(w, c);
    EraseQueues();
    FeedOther(w, c, VectorBits(ERASE_ALL, 308));
    Acknowledged(w, Feed(w, c, VectorBits(ERASE_ALL, 308) + [false]));
  }

  lemma SiliconIdSucceeds(w: World, c: Chip)
    requires Obliging(w) && Aligned(c)
    ensures var o := SiliconIdOutcome(w, c); !o.failed && Aligned(o.chip)
  {
    hide Feed, VectorBits, AllOk, Frame, IdTag, IsOther, Acknowledges, SiliconIdOutcome, Responds;
    SiliconIdMeaning(w, c);
    IdFrames();
    IdIsOther();
    IdTagIs();
    FeedSelectingOther(w, c, ID_SETUP, 11, 15, 0);
    Acknowledged(w, Feed(w, c, VectorBits(ID_SETUP, 330) + [false]));
  }

  // ---------------------------------------------------------------- program, verify, checksum

  lemma ProgramSucceeds(w: World, c: Chip, k: Byte)
    requires Obliging(w) && Aligned(c) && k < 128
    ensures !ProgramOutcome(w, c, k).failed
  {
    hide Feed, ProgramSequence, Acknowledges;
    ProgramEffect(w, c, k);
    Acknowledged(w, Feed(w, c, ProgramSequence(k)));
  }

  lemma VerifySucceeds(w: World, c: Chip, k: Byte)
    requires Obliging(w) && Aligned(c) && k < 128
    ensures !VerifyOutcome(w, c, k, c.mem.flash[k as int]).failed
  {
    hide Feed, VerifySequence, Acknowledges;
    VerifyEffect(w, c, k);
    var d := Feed(w, c, VerifySequence(k));
    Acknowledged(w, d);
    VerifyMeaning(w, c, k, c.mem.flash[k as int]);
  }

  lemma ChecksumSucceeds(w: World, c: Chip)
    requires Obliging(w) && Aligned(c)
    ensures !ChecksumOutcome(w, c).failed
  {
    hide Feed, ChecksumSequence, Acknowledges, SumAll;
    ChecksumEffect(w, c);
    Acknowledged(w, Feed(w, c, ChecksumSequence()));
  }

  // ---------------------------------------------------------------- security

  lemma SecuritySucceeds(w: World, c: Chip, data: seq<Byte>)
    requires Obliging(w) && Aligned(c) && |data| == BLOCK_SIZE
    ensures var o := SecurityFlashOutcome(w, c, data);
            !o.failed && Aligned(o.chip) && o.chip.mem.flash == c.mem.flash && o.chip.mem.ram[..32] == data[..32]
  {
    hide Feed, VectorBits, Queues, IsOther, LoadBits, Acknowledges, SecurityFlashOutcome, Responds;
    var q, bits, e := VectorBits(SECURITY, 308), LoadBits(data, SECURITY_BYTES), Loaded(c, data, SECURITY_BYTES);
    SecurityFlashMeaning(w, c, data);
    LoadEffect(w, c, data, SECURITY_BYTES);
    SecurityQueues();
    FeedOther(w, e, q);
    FeedAppend(w, c, bits, q + [false]);
    assert bits + q + [false] == bits + (q + [false]);
    Acknowledged(w, Feed(w, c, bits + q + [false]));
  }

  lemma SecurityVerifySucceeds(w: World, c: Chip, data: seq<Byte>)
    requires Obliging(w) && Aligned(c) && |data| == BLOCK_SIZE && c.mem.ram[..32] == data[..32]
    ensures var o := SecurityVerifyOutcome(w, c, data);
            !o.failed && Aligned(o.chip) && o.chip.mem.flash == c.mem.flash
  {
    hide Feed, VectorBits, Queues, IsOther, Acknowledges, SecurityVerifyOutcome, Responds;
    var q := VectorBits(SECURITY_VERIFICATION, 308);
    SecurityVerifyMeaning(w, c, data);
    SecurityVerificationQueues();
    FeedOther(w, c, q);
    Acknowledged(w, Feed(w, c, q + [false]));
  }

  /** There is such a target: high at the first poll and low at the second. */
  lemma ObligingExists() returns (w: World)
    ensures Obliging(w)
  {
    var empty: BlockData := seq(64, i => 0);
    w := World(n => true, (n, p) => p == 0, (n, b) => if |b| == 64 then b else empty,
               (q, m: Memory) => m.(lo := TARGET_ID[0], hi := TARGET_ID[1]), m => m);
    forall n: nat
      ensures RespondsTo(w, n)
    {
      assert RisesAndFalls(w, n, 0, 1);
    }
  }
}
