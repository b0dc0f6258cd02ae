/**
 * What the programmer's frames and vectors do to the target: each lemma takes the
 * very bits that are clocked out and gives the state the target ends in.
 */
module IsspFrames {
  import opened Bits
  import opened IsspTarget

  // ------------------------------------------------- writes and block select

  /** The left-justified six-bit address of a byte of the block buffer. */
  function Addr(i: nat): Byte
    requires i <= BLOCK_SIZE
  {
    (i as Byte) << 2
  }

  /** Addressing the next byte adds four, wrapping after the last one. */
  lemma AddrStep(i: nat)
    requires i < BLOCK_SIZE
    ensures Addr(i) + 4 == Addr(i + 1)
  {
    var b := i as Byte;
    ByteSuccessor(i);
    assert (b + 1) << 2 == (b << 2) + 4;
  }

  function WriteByteBits(i: nat, b: Byte): (f: seq<bool>)
    requires i < BLOCK_SIZE
    ensures |f| == FRAME
  {
    ByteBits(WRITE_BYTE_START, 5) + ByteBits(Addr(i), 6) + ByteBits(b, 8) + ByteBits(WRITE_BYTE_END, 3)
  }

  /** The six address bits are read back as the address before it was justified. */
  lemma AddressRoundTrip(i: nat)
    requires i < BLOCK_SIZE
    ensures (Value(ByteBits(Addr(i), 6)) & 0x3F) as int == i
  {
    var b := i as Byte;
    assert b < 64;
    ValueOfByteBits(b << 2, 6);
    assert ((b << 2) >> 2) & 0x3F == b;
  }

  /** A write-byte frame stores its datum at its address and changes nothing else. */
  lemma WriteByteFrame(w: World, c: Chip, i: nat, b: Byte)
    requires c.shift == [] && i < BLOCK_SIZE
    ensures Feed(w, c, WriteByteBits(i, b)) == c.(mem := c.mem.(ram := c.mem.ram[i := b]))
  {
    var f := WriteByteBits(i, b);
    assert f[0] == ByteBits(WRITE_BYTE_START, 5)[0] == BitOf(0x90, 0);
    FeedFrame(w, c, f);
    assert f[..5] == ByteBits(WRITE_BYTE_START, 5);
    assert f[5..11] == ByteBits(Addr(i), 6);
    assert f[11..19] == ByteBits(b, 8);
    assert f[19..] == ByteBits(WRITE_BYTE_END, 3);
    AddressRoundTrip(i);
    ByteRoundTrip(b);
  }

  function SetBlockBits(k: Byte): (f: seq<bool>)
    ensures |f| == FRAME
  {
    VectorBits(SET_BLOCK_NUMBER, 11) + ByteBits(k, 8) + ByteBits(SET_BLOCK_NUMBER_END, 3)
  }

  lemma SetBlockIsNotWrite(f: seq<bool>)
    requires |f| == FRAME && f[..11] == VectorBits(SET_BLOCK_NUMBER, 11)
    ensures f[0] && !IsWriteByte(f)
  {
    assert BitOf(0x9F, 0) && BitOf(0x9F, 4) && !BitOf(0x90, 4);
    assert f[4] == f[..11][4] == VectorBits(SET_BLOCK_NUMBER, 11)[4];
    assert f[0] == f[..11][0] == VectorBits(SET_BLOCK_NUMBER, 11)[0];
    assert ByteBits(WRITE_BYTE_START, 5)[4] == BitOf(0x90, 4);
    assert f[4] == f[..5][4];
  }

  /** A set-block frame selects its block and changes nothing else. */
  lemma SetBlockFrame(w: World, c: Chip, k: Byte)
    requires c.shift == []
    ensures Feed(w, c, SetBlockBits(k)) == c.(mem := c.mem.(block := k))
  {
    var f := SetBlockBits(k);
    FeedFrame(w, c, f);
    assert f[..11] == VectorBits(SET_BLOCK_NUMBER, 11);
    assert f[11..19] == ByteBits(k, 8);
    assert f[19..] == ByteBits(SET_BLOCK_NUMBER_END, 3);
    SetBlockIsNotWrite(f);
    ByteRoundTrip(k);
  }

  // ------------------------------------------------------------ long vectors

  /** The frame is neither data nor a block number nor a read: it is queued as it is. */
  predicate Opaque(f: seq<bool>)
    requires |f| == FRAME
  {
    f[0] && !IsWriteByte(f) && !IsSetBlock(f) && !IsRead(f)
  }

  /** Bits a to b of a vector. */
  function Slice(v: seq<Byte>, a: nat, b: nat): (s: seq<bool>)
    requires a <= b <= 8 * |v|
    ensures |s| == b - a
  {
    VectorBits(v, b)[a..]
  }

  lemma OpaqueFromBits(f: seq<bool>)
    requires |f| == FRAME && f[0] && (f[1] || (!f[2] && f[4] && (f[8] || !f[9] || f[10])))
    ensures Opaque(f)
  {
    assert ByteBits(WRITE_BYTE_START, 5)[4] == BitOf(0x90, 4) == false;
    assert f[..5][4] == f[4];
    assert ByteBits(WRITE_BYTE_START, 5)[1] == BitOf(0x90, 1) == false;
    assert f[..5][1] == f[1];
    var sb := VectorBits(SET_BLOCK_NUMBER, 11);
    assert sb[1] == BitOf(0x9F, 1) == false && sb[8] == BitOf(0x40, 0) == false;
    assert sb[9] == BitOf(0x40, 1) == true && sb[10] == BitOf(0x40, 2) == false;
    assert f[..11][1] == f[1] && f[..11][8] == f[8] && f[..11][9] == f[9] && f[..11][10] == f[10];
    assert f[..3][1] == f[1] && f[..3][2] == f[2];
  }

  predicate BitAt(v: seq<Byte>, i: nat)
    requires i < 8 * |v|
  {
    BitOf(v[i / 8], i % 8)
  }

  /** Bits 0, 1, 2, 4 and 8 to 10 of frame n tell that it is neither data, block number nor read. */
  predicate FrameOk(v: seq<Byte>, n: nat)
    requires FRAME * (n + 1) <= 8 * |v|
  {
    var i := FRAME * n;
    BitAt(v, i) && (BitAt(v, i + 1) ||
      (!BitAt(v, i + 2) && BitAt(v, i + 4) && (BitAt(v, i + 8) || !BitAt(v, i + 9) || BitAt(v, i + 10))))
  }

  predicate AllOk(v: seq<Byte>, lo: nat, hi: nat)
    requires FRAME * hi <= 8 * |v|
    decreases hi - lo
  {
    lo < hi ==> FrameOk(v, lo) && AllOk(v, lo + 1, hi)
  }

  // Every frame of the vectors is opaque, but for the tenth one of the checksum
  // vector, which selects block 0.
  lemma ProgramBlockHeadOk() ensures AllOk(PROGRAM_BLOCK, 0, 7) {}
  lemma ProgramBlockTailOk() ensures AllOk(PROGRAM_BLOCK, 7, 14) {}
  lemma VerifySetupHeadOk() ensures AllOk(VERIFY_SETUP, 0, 6) {}
  lemma VerifySetupTailOk() ensures AllOk(VERIFY_SETUP, 6, 12) {}
  lemma ChecksumHeadOk() ensures AllOk(CHECKSUM, 0, 9) {}
  lemma ChecksumTailOk() ensures AllOk(CHECKSUM, 10, 13) {}

  /** Frame n of a vector. */
  function Frame(v: seq<Byte>, n: nat): (f: seq<bool>)
    requires FRAME * (n + 1) <= 8 * |v|
    ensures |f| == FRAME
  {
    Slice(v, FRAME * n, FRAME * (n + 1))
  }

  lemma FrameOkIsOpaque(v: seq<Byte>, n: nat)
    requires FRAME * (n + 1) <= 8 * |v| && FrameOk(v, n)
    ensures Opaque(Frame(v, n))
  {
    var f, i := Frame(v, n), FRAME * n;
    assert forall k | 0 <= k < FRAME :: f[k] == BitAt(v, i + k);
    OpaqueFromBits(f);
  }

  /** The bits of frames lo to hi of a vector. */
  function Frames(v: seq<Byte>, lo: nat, hi: nat): (s: seq<bool>)
    requires lo <= hi && FRAME * hi <= 8 * |v|
    ensures |s| == FRAME * (hi - lo)
  {
    Slice(v, FRAME * lo, FRAME * hi)
  }

  /** A bit string made of opaque frames. */
  predicate Queues(bits: seq<bool>) {
    bits == [] || (|bits| >= FRAME && Opaque(bits[..FRAME]) && Queues(bits[FRAME..]))
  }

  lemma FramesSplit(v: seq<Byte>, lo: nat, mid: nat, hi: nat)
    requires lo <= mid <= hi && FRAME * hi <= 8 * |v|
    ensures Frames(v, lo, hi) == Frames(v, lo, mid) + Frames(v, mid, hi)
  {
  }

  lemma {:induction false} FramesQueue(v: seq<Byte>, lo: nat, hi: nat)
    requires lo <= hi && FRAME * hi <= 8 * |v| && AllOk(v, lo, hi)
    ensures Queues(Frames(v, lo, hi))
    decreases hi - lo
  {
    hide Opaque, FrameOk, BitAt;
    if lo == hi {
    } else {
      FrameOkIsOpaque(v, lo);
      assert Frames(v, lo, hi)[..FRAME] == Frame(v, lo);
      assert Frames(v, lo, hi)[FRAME..] == Frames(v, lo + 1, hi);
      FramesQueue(v, lo + 1, hi);
    }
  }

  lemma {:induction false} QueuesAppend(a: seq<bool>, b: seq<bool>)
    requires Queues(a) && Queues(b)
    ensures Queues(a + b)
    decreases |a|
  {
    if a == [] {
      assert a + b == b;
    } else {
      assert (a + b)[..FRAME] == a[..FRAME] && (a + b)[FRAME..] == a[FRAME..] + b;
      QueuesAppend(a[FRAME..], b);
    }
  }

  lemma FeedOpaqueFrame(w: World, c: Chip, f: seq<bool>)
    requires c.shift == [] && |f| == FRAME && Opaque(f)
    ensures Feed(w, c, f) == Enqueue(c, f)
  {
    FeedFrame(w, c, f);
  }

  lemma FeedTwice(w: World, c: Chip, a: seq<bool>, b: seq<bool>, c1: Chip, c2: Chip)
    requires Feed(w, c, a) == c1 && Feed(w, c1, b) == c2
    ensures Feed(w, c, a + b) == c2
  {
    FeedAppend(w, c, a, b);
  }

  function Enqueue(c: Chip, bits: seq<bool>): Chip {
    c.(queue := c.queue + bits)
  }

  lemma EnqueueTwice(c: Chip, a: seq<bool>, b: seq<bool>)
    ensures Enqueue(Enqueue(c, a), b) == Enqueue(c, a + b)
  {
    assert c.queue + a + b == c.queue + (a + b);
  }

  /** Opaque frames pile up in the queue, bit for bit. */
  lemma {:induction false} FeedQueues(w: World, c: Chip, bits: seq<bool>)
    requires c.shift == [] && Queues(bits)
    ensures Feed(w, c, bits) == Enqueue(c, bits)
    decreases |bits|
  {
    if bits == [] {
      assert c.queue + bits == c.queue;
    } else {
      var f, rest := bits[..FRAME], bits[FRAME..];
      FeedOpaqueFrame(w, c, f);
      FeedQueues(w, Enqueue(c, f), rest);
      FeedTwice(w, c, f, rest, Enqueue(c, f), Enqueue(Enqueue(c, f), rest));
      EnqueueTwice(c, f, rest);
      assert bits == f + rest;
    }
  }

  lemma ProgramQueues()
    ensures Queues(ProgramBits())
  {
    var head, tail := Frames(PROGRAM_BLOCK, 0, 7), Frames(PROGRAM_BLOCK, 7, 14);
    ProgramBlockHeadOk();
    FramesQueue(PROGRAM_BLOCK, 0, 7);
    ProgramBlockTailOk();
    FramesQueue(PROGRAM_BLOCK, 7, 14);
    QueuesAppend(head, tail);
    FramesSplit(PROGRAM_BLOCK, 0, 7, 14);
    assert ProgramBits() == Frames(PROGRAM_BLOCK, 0, 14);
  }

  lemma VerifyQueues()
    ensures Queues(VerifyBits())
  {
    var head, tail := Frames(VERIFY_SETUP, 0, 6), Frames(VERIFY_SETUP, 6, 12);
    VerifySetupHeadOk();
    FramesQueue(VERIFY_SETUP, 0, 6);
    VerifySetupTailOk();
    FramesQueue(VERIFY_SETUP, 6, 12);
    QueuesAppend(head, tail);
    FramesSplit(VERIFY_SETUP, 0, 6, 12);
    assert VerifyBits() == Frames(VERIFY_SETUP, 0, 12);
  }

  /** n bits of v from bit i on are the first n bits of u. */
  predicate Same(v: seq<Byte>, i: nat, u: seq<Byte>, n: nat)
    requires i + n <= 8 * |v| && n <= 8 * |u|
    decreases n
  {
    n > 0 ==> BitAt(v, i + n - 1) == BitAt(u, n - 1) && Same(v, i, u, n - 1)
  }

  lemma NoSlice(v: seq<Byte>, i: nat, u: seq<Byte>)
    requires i <= 8 * |v|
    ensures Slice(v, i, i) == [] == VectorBits(u, 0)
  {
  }

  lemma BitsSnoc(v: seq<Byte>, b: nat)
    requires b < 8 * |v|
    ensures VectorBits(v, b + 1) == VectorBits(v, b) + [BitAt(v, b)]
  {
    hide BitOf;
  }

  lemma SliceSnoc(v: seq<Byte>, a: nat, b: nat)
    requires a <= b < 8 * |v|
    ensures Slice(v, a, b + 1) == Slice(v, a, b) + [BitAt(v, b)]
  {
    hide VectorBits, BitAt;
    BitsSnoc(v, b);
  }

  lemma {:induction false} SameSlice(v: seq<Byte>, i: nat, u: seq<Byte>, n: nat)
    requires i + n <= 8 * |v| && n <= 8 * |u| && Same(v, i, u, n)
    ensures Slice(v, i, i + n) == VectorBits(u, n)
  {
    hide BitAt, BitOf, VectorBits, Slice;
    if n == 0 {
      NoSlice(v, i, u);
    } else {
      SameSlice(v, i, u, n - 1);
      SliceSnoc(v, i, i + n - 1);
      BitsSnoc(u, n - 1);
    }
  }

  const BLOCK_END: seq<Byte> := [SET_BLOCK_NUMBER_END]

  lemma TenthFrameBits()
    ensures Same(CHECKSUM, 198, SET_BLOCK_NUMBER, 11)
    ensures Same(CHECKSUM, 209, WAIT_AND_POLL_END, 8)
    ensures Same(CHECKSUM, 217, BLOCK_END, 3)
  {
  }

  lemma TenthFrame()
    ensures Frame(CHECKSUM, 9) == SetBlockBits(0)
  {
    hide VectorBits, ByteBits, Slice, Same;
    TenthFrameBits();
    SameSlice(CHECKSUM, 198, SET_BLOCK_NUMBER, 11);
    SameSlice(CHECKSUM, 209, WAIT_AND_POLL_END, 8);
    SameSlice(CHECKSUM, 217, BLOCK_END, 3);
    ThreeSlices(CHECKSUM, 198, 209, 217, 220);
    assert Frame(CHECKSUM, 9) == Slice(CHECKSUM, 198, 220);
    FirstByteBits(WAIT_AND_POLL_END, 8);
    FirstByteBits(BLOCK_END, 3);
  }

  lemma ThreeSlices(v: seq<Byte>, a: nat, b: nat, c: nat, d: nat)
    requires a <= b <= c <= d <= 8 * |v|
    ensures Slice(v, a, d) == Slice(v, a, b) + Slice(v, b, c) + Slice(v, c, d)
  {
    hide BitOf;
  }

  lemma FirstByteBits(v: seq<Byte>, n: nat)
    requires v != [] && n <= 8
    ensures VectorBits(v, n) == ByteBits(v[0], n)
  {
    hide BitOf;
  }

  /** The checksum vector without its tenth frame is queued; that frame selects block 0. */
  lemma ChecksumVector(w: World, c: Chip)
    requires Aligned(c)
    ensures Feed(w, c, ChecksumBits()) == c.(mem := c.mem.(block := 0), queue := ChecksumTag())
  {
    hide Feed, AllOk, Frames;
    var head, tail := Frames(CHECKSUM, 0, 9), Frames(CHECKSUM, 10, 13);
    ChecksumHeadOk();
    FramesQueue(CHECKSUM, 0, 9);
    ChecksumTailOk();
    FramesQueue(CHECKSUM, 10, 13);
    TenthFrame();
    ChecksumParts(head, tail);
    FeedQueues(w, c, head);
    assert c.queue + head == head;
    var c1 := c.(queue := head);
    FeedAppend(w, c, head, SetBlockBits(0));
    SetBlockFrame(w, c1, 0);
    var c2 := c1.(mem := c.mem.(block := 0));
    FeedAppend(w, c, head + SetBlockBits(0), tail);
    FeedQueues(w, c2, tail);
  }

  lemma ChecksumParts(head: seq<bool>, tail: seq<bool>)
    requires head == Frames(CHECKSUM, 0, 9) && tail == Frames(CHECKSUM, 10, 13)
    ensures ChecksumBits() == head + Frame(CHECKSUM, 9) + tail && ChecksumTag() == head + tail
  {
  }

  /** An aligned target that is clocked once, with its line released, runs its queue. */
  lemma FeedClock(w: World, c: Chip)
    requires c.shift == [] && c.queue != []
    ensures Feed(w, c, [false]) == Execute(w, c)
  {
    assert [false][..0] == [];
    assert Feed(w, c, []) == c;
  }

  // ------------------------------------------------------------------ reads

  /** What the line shows at each of n clocks given with the line released. */
  function Observed(w: World, c: Chip, n: nat): (bits: seq<bool>)
    ensures |bits| == n
  {
    seq(n, i requires 0 <= i < n => Pin(w, Feed(w, c, Zeros(i + 1)), 0))
  }

  /** Eight released clocks after the thirteenth bit of a read frame show the byte asked for. */
  lemma ObservedByte(w: World, c: Chip)
    requires |c.shift| == 13 && IsRead(c.shift)
    ensures Observed(w, c, 8) == ByteBits(ReadValue(c), 8)
    ensures Feed(w, c, Zeros(8)) == c.(shift := c.shift + Zeros(8))
  {
    hide Feed, Execute;
    forall i | 0 <= i <= 8
      ensures Feed(w, c, Zeros(i)) == c.(shift := c.shift + Zeros(i))
    {
      FeedReleased(w, c, i);
    }
    forall i | 0 <= i < 8
      ensures Observed(w, c, 8)[i] == BitOf(ReadValue(c), i)
    {
      var d := c.(shift := c.shift + Zeros(i + 1));
      assert Feed(w, c, Zeros(i + 1)) == d;
      assert d.shift[..3] == c.shift[..3] && d.shift[..5] == c.shift[..5] && d.shift[..11] == c.shift[..11];
      assert d.shift[5..11] == c.shift[5..11];
      assert ReadValue(d) == ReadValue(c);
    }
  }

  lemma {:induction false} FeedReleased(w: World, c: Chip, i: nat)
    requires |c.shift| == 13 && i <= 8
    ensures Feed(w, c, Zeros(i)) == c.(shift := c.shift + Zeros(i))
  {
    if i == 0 {
      assert c.shift + Zeros(0) == c.shift;
    } else {
      FeedReleased(w, c, i - 1);
      assert Zeros(i)[..i - 1] == Zeros(i - 1);
      assert c.shift + Zeros(i) == c.shift + Zeros(i - 1) + [false];
    }
  }

  /** The thirteen bits that open a read frame: mnemonic, address, two turnaround clocks. */
  function ReadByteBits(i: nat, x: bool): (f: seq<bool>)
    requires i < BLOCK_SIZE
    ensures |f| == 13
  {
    VectorBits(READ_BYTE, 5) + ByteBits(Addr(i), 6) + [x, x]
  }

  /** A read frame changes nothing in an aligned target, and what it shows is the byte addressed. */
  lemma ReadByteEffect(w: World, c: Chip, i: nat, x: bool, b: bool)
    requires Aligned(c) && i < BLOCK_SIZE
    ensures var d := Feed(w, c, ReadByteBits(i, x));
            Observed(w, d, 8) == ByteBits(c.mem.ram[i], 8) &&
            Feed(w, Feed(w, d, Zeros(8)), [b]) == c
  {
    var f := ReadByteBits(i, x);
    var d := c.(shift := f);
    assert f[0] == VectorBits(READ_BYTE, 5)[0] && f[1] == VectorBits(READ_BYTE, 5)[1] &&
           f[2] == VectorBits(READ_BYTE, 5)[2];
    assert BitOf(0xB0, 0) && !BitOf(0xB0, 1) && BitOf(0xB0, 2);
    FeedPartialFrame(w, c, f);
    assert f[..5] == VectorBits(READ_BYTE, 5);
    assert f[5..11] == ByteBits(Addr(i), 6);
    AddressRoundTrip(i);
    assert f[..3] == [true, false, true];
    ObservedByte(w, d);
    CloseRead(w, c, f + Zeros(8), b);
  }

  /** Whatever its last bit, a read frame returns an aligned target to where it was. */
  lemma CloseRead(w: World, c: Chip, f: seq<bool>, b: bool)
    requires Aligned(c) && |f| == 21 && f[..3] == [true, false, true]
    ensures Feed(w, c.(shift := f), [b]) == c
  {
    var d, g := c.(shift := f), f + [b];
    assert [b][..0] == [];
    assert Feed(w, d, []) == d;
    assert g[..3] == f[..3];
    assert g[2] == g[..3][2] && g[1] == g[..3][1];
    assert g[..5][2] == g[2] && g[..11][2] == g[2];
    assert ByteBits(WRITE_BYTE_START, 5)[2] == BitOf(0x90, 2);
    assert VectorBits(SET_BLOCK_NUMBER, 11)[2] == BitOf(0x9F, 2);
  }

  /** A read of one of the two result registers: eleven command bits and two released clocks. */
  function ReadResultBits(v: seq<Byte>): (f: seq<bool>)
    requires |v| >= 2
    ensures |f| == 13
  {
    VectorBits(v, 11) + [false, false]
  }

  /** Reading a result register shows it and, once closed, leaves an aligned target as it was. */
  lemma ReadResultEffect(w: World, c: Chip, v: seq<Byte>, b: bool)
    requires Aligned(c) && (v == READ_CHECKSUM || v == READ_ID)
    ensures var d := Feed(w, c, ReadResultBits(v));
            Observed(w, d, 8) == ByteBits(if v == READ_CHECKSUM then c.mem.hi else c.mem.lo, 8) &&
            Feed(w, Feed(w, d, Zeros(8)), [b]) == c
  {
    var f := ReadResultBits(v);
    var d := c.(shift := f);
    assert BitOf(0xBF, 0) && !BitOf(0xBF, 1) && BitOf(0xBF, 2) && BitOf(0xBF, 4) && !BitOf(0xB0, 4);
    assert BitOf(0x20, 2) && !BitOf(0x00, 2);
    assert f[0] && !f[1] && f[2] && f[4];
    assert READ_ID[1] == 0x00 && READ_CHECKSUM[1] == 0x20;
    FeedPartialFrame(w, c, f);
    assert f[..11] == VectorBits(v, 11);
    assert f[..5][4] && !VectorBits(READ_BYTE, 5)[4];
    assert VectorBits(READ_CHECKSUM, 11)[10] != VectorBits(READ_ID, 11)[10];
    assert f[..3] == [true, false, true];
    ObservedByte(w, d);
    CloseRead(w, c, f + Zeros(8), b);
  }

  /** The twelve bits between the two result reads close the first and open the second. */
  lemma ResultJoint()
    ensures VectorBits(READ_CHECKSUM[2..], 12) == [true] + VectorBits(READ_ID, 11)
  {
    JointBits();
    var u, v := VectorBits(READ_CHECKSUM[2..], 12), VectorBits(READ_ID, 11);
    SameSlice(READ_CHECKSUM, 17, READ_ID, 11);
    assert u[0] == BitOf(0xDF, 0);
    forall i | 0 < i < 12
      ensures u[i] == v[i - 1]
    {
      assert u[i] == BitAt(READ_CHECKSUM, 16 + i) == Slice(READ_CHECKSUM, 17, 28)[i - 1];
    }
  }

  lemma JointBits()
    ensures Same(READ_CHECKSUM, 17, READ_ID, 11)
  {
  }
}
