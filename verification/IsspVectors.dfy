/**
 * The long vectors whose meaning to the target is left open: how the target cuts each
 * of them into frames, and so exactly which of its open operations an initialization,
 * an identification, an erase and the two security operations run.
 */
module IsspVectors {
  import opened Bits
  import opened IsspTarget
  import opened IsspFrames
  import opened IsspOperations

  // The frames that are queued as they are; what lies between them is zeros or a block select.
  lemma Init1FirstOk() ensures AllOk(INIT1, 0, 1) {}
  lemma Init1HeadOk() ensures AllOk(INIT1, 6, 10) {}
  lemma Init1MiddleOk() ensures AllOk(INIT1, 10, 14) {}
  lemma Init1TailOk() ensures AllOk(INIT1, 14, 18) {}
  lemma Init2HeadOk() ensures AllOk(INIT2, 0, 3) {}
  lemma Init2MiddleOk() ensures AllOk(INIT2, 3, 6) {}
  lemma Init2BodyOk() ensures AllOk(INIT2, 6, 9) {}
  lemma Init2TailOk() ensures AllOk(INIT2, 10, 13) {}
  lemma Init3FirstOk() ensures AllOk(INIT3, 0, 3) {}
  lemma Init3FirstMiddleOk() ensures AllOk(INIT3, 3, 6) {}
  lemma Init3FirstTailOk() ensures AllOk(INIT3, 6, 8) {}
  lemma Init3SecondOk() ensures AllOk(INIT3, 9, 12) {}
  lemma Init3SecondMiddleOk() ensures AllOk(INIT3, 12, 15) {}
  lemma Init3SecondTailOk() ensures AllOk(INIT3, 15, 18) {}
  lemma Init3ThirdOk() ensures AllOk(INIT3, 19, 23) {}
  lemma Init3ThirdTailOk() ensures AllOk(INIT3, 23, 27) {}
  lemma Init3FourthOk() ensures AllOk(INIT3, 28, 33) {}
  lemma Init3FourthTailOk() ensures AllOk(INIT3, 33, 37) {}
  lemma IdHeadOk() ensures AllOk(ID_SETUP, 0, 6) {}
  lemma IdMiddleOk() ensures AllOk(ID_SETUP, 6, 11) {}
  lemma IdTailOk() ensures AllOk(ID_SETUP, 12, 15) {}
  lemma EraseHeadOk() ensures AllOk(ERASE_ALL, 0, 5) {}
  lemma EraseMiddleOk() ensures AllOk(ERASE_ALL, 5, 10) {}
  lemma EraseTailOk() ensures AllOk(ERASE_ALL, 10, 14) {}
  lemma SecurityHeadOk() ensures AllOk(SECURITY, 0, 5) {}
  lemma SecurityMiddleOk() ensures AllOk(SECURITY, 5, 10) {}
  lemma SecurityTailOk() ensures AllOk(SECURITY, 10, 14) {}
  lemma SecurityVerificationHeadOk() ensures AllOk(SECURITY_VERIFICATION, 0, 5) {}
  lemma SecurityVerificationMiddleOk() ensures AllOk(SECURITY_VERIFICATION, 5, 10) {}
  lemma SecurityVerificationTailOk() ensures AllOk(SECURITY_VERIFICATION, 10, 14) {}

  lemma {:induction false} AllOkJoins(v: seq<Byte>, lo: nat, mid: nat, hi: nat)
    requires lo <= mid <= hi && FRAME * hi <= 8 * |v| && AllOk(v, lo, mid) && AllOk(v, mid, hi)
    ensures AllOk(v, lo, hi)
    decreases mid - lo
  {
    hide FrameOk;
    if lo == mid {
    } else {
      AllOkJoins(v, lo + 1, mid, hi);
    }
  }

  lemma WholeVector(v: seq<Byte>, n: nat)
    requires FRAME * n <= 8 * |v|
    ensures VectorBits(v, FRAME * n) == Frames(v, 0, n)
  {
  }

  // ---------------------------------------------------------------- queued and executed

  /** None of the vectors whose meaning is known. */
  predicate IsOther(q: seq<bool>) {
    q != [] && q != ProgramBits() && q != VerifyBits() && q != ChecksumTag()
  }

  /** The target after an open operation that takes effect. */
  function AfterOther(w: World, c: Chip, q: seq<bool>): Chip {
    Chip(w.other(q, c.mem), [], [], c.execs + 1)
  }

  lemma ExecuteAligns(w: World, c: Chip)
    requires c.shift == []
    ensures Aligned(Execute(w, c)) && Execute(w, c).execs == c.execs + 1
  {
    hide ProgramBits, VerifyBits, ChecksumTag, SumAll;
  }

  lemma ExecuteOther(w: World, c: Chip)
    requires c.shift == [] && IsOther(c.queue) && w.acts(c.execs)
    ensures Execute(w, c) == AfterOther(w, c, c.queue)
  {
    hide ProgramBits, VerifyBits, ChecksumTag, SumAll;
  }

  lemma {:induction false} FeedRuns(w: World, c: Chip, n: nat)
    requires c.shift == [] && c.queue != [] && n >= 1
    ensures Feed(w, c, Zeros(n)) == Execute(w, c)
  {
    hide Execute;
    FeedClock(w, c);
    ExecuteAligns(w, c);
    FeedIdle(w, Execute(w, c), n - 1);
    FeedAppend(w, c, [false], Zeros(n - 1));
    assert Zeros(n) == [false] + Zeros(n - 1);
  }

  /** Opaque frames, followed by zeros, are executed together on the first zero. */
  lemma FeedSegment(w: World, c: Chip, q: seq<bool>, n: nat)
    requires Aligned(c) && Queues(q) && q != [] && n >= 1
    ensures Feed(w, c, q + Zeros(n)) == Execute(w, Enqueue(c, q)) && Enqueue(c, q).queue == q
  {
    hide Feed, Execute, Queues;
    FeedQueues(w, c, q);
    FeedRuns(w, Enqueue(c, q), n);
    FeedAppend(w, c, q, Zeros(n));
  }

  lemma OneZero()
    ensures Zeros(1) == [false]
  {
  }

  /** A vector of opaque frames is one open operation, if it takes effect. */
  lemma FeedOther(w: World, c: Chip, q: seq<bool>)
    requires Aligned(c) && Queues(q) && IsOther(q)
    ensures var d := Feed(w, c, q + [false]);
            Aligned(d) && d.execs == c.execs + 1 && (w.acts(c.execs) ==> d == AfterOther(w, c, q))
  {
    hide Feed, Execute, Queues, ProgramBits, VerifyBits, ChecksumTag;
    OneZero();
    FeedSegment(w, c, q, 1);
    ExecuteAligns(w, Enqueue(c, q));
    if w.acts(c.execs) { ExecuteOther(w, Enqueue(c, q)); }
  }

  // ---------------------------------------------------------------- a block select on the way

  /** The bits of a vector without the frame at place n. */
  function Without(v: seq<Byte>, n: nat, hi: nat): seq<bool>
    requires n < hi && FRAME * hi <= 8 * |v|
  {
    Frames(v, 0, n) + Frames(v, n + 1, hi)
  }

  /** The frame that selects a block does so, the others are queued. */
  lemma FeedSelecting(w: World, c: Chip, v: seq<Byte>, n: nat, hi: nat, k: Byte)
    requires Aligned(c) && n < hi && FRAME * hi <= 8 * |v|
    requires AllOk(v, 0, n) && Frame(v, n) == SetBlockBits(k) && AllOk(v, n + 1, hi)
    ensures Feed(w, c, Frames(v, 0, hi)) == c.(mem := c.mem.(block := k), queue := Without(v, n, hi))
  {
    hide Feed, AllOk, Slice;
    var head, tail := Frames(v, 0, n), Frames(v, n + 1, hi);
    FramesQueue(v, 0, n);
    FramesQueue(v, n + 1, hi);
    FeedQueues(w, c, head);
    assert c.queue + head == head;
    var c1 := c.(queue := head);
    SetBlockFrame(w, c1, k);
    var c2 := c1.(mem := c.mem.(block := k));
    FeedQueues(w, c2, tail);
    FramesSplit(v, 0, n, hi);
    FramesSplit(v, n, n + 1, hi);
    FeedAppend(w, c, head, Frames(v, n, hi));
    FeedAppend(w, c1, SetBlockBits(k), tail);
  }

  /** Such a vector is one open operation with that block selected, if it takes effect. */
  lemma FeedSelectingOther(w: World, c: Chip, v: seq<Byte>, n: nat, hi: nat, k: Byte)
    requires Aligned(c) && n < hi && FRAME * hi <= 8 * |v|
    requires AllOk(v, 0, n) && Frame(v, n) == SetBlockBits(k) && AllOk(v, n + 1, hi) && IsOther(Without(v, n, hi))
    ensures var d := Feed(w, c, VectorBits(v, FRAME * hi) + [false]);
            && Aligned(d) && d.execs == c.execs + 1
            && (w.acts(c.execs) ==> d == AfterOther(w, c.(mem := c.mem.(block := k)), Without(v, n, hi)))
  {
    hide Feed, AllOk, Frame, Frames, VectorBits, Execute, ProgramBits, VerifyBits, ChecksumTag, Without;
    FeedSelecting(w, c, v, n, hi, k);
    WholeVector(v, hi);
    var e := c.(mem := c.mem.(block := k), queue := Without(v, n, hi));
    FeedClock(w, e);
    FeedAppend(w, c, Frames(v, 0, hi), [false]);
    ExecuteAligns(w, e);
    if w.acts(c.execs) { ExecuteOther(w, e); }
  }

  const BLOCK_ONE: seq<Byte> := [1]

  lemma Init2SelectBits()
    ensures Same(INIT2, 198, SET_BLOCK_NUMBER, 11) && Same(INIT2, 209, BLOCK_ONE, 8) && Same(INIT2, 217, BLOCK_END, 3)
  {
  }

  lemma IdSelectBits()
    ensures Same(ID_SETUP, 242, SET_BLOCK_NUMBER, 11) && Same(ID_SETUP, 253, WAIT_AND_POLL_END, 8)
    ensures Same(ID_SETUP, 261, BLOCK_END, 3)
  {
  }

  lemma SelectFrame(v: seq<Byte>, n: nat, block: seq<Byte>)
    requires FRAME * (n + 1) <= 8 * |v| && block != []
    requires Same(v, FRAME * n, SET_BLOCK_NUMBER, 11) && Same(v, FRAME * n + 11, block, 8)
    requires Same(v, FRAME * n + 19, BLOCK_END, 3)
    ensures Frame(v, n) == SetBlockBits(block[0])
  {
    hide VectorBits, ByteBits, Slice, Same;
    var i := FRAME * n;
    SameSlice(v, i, SET_BLOCK_NUMBER, 11);
    SameSlice(v, i + 11, block, 8);
    SameSlice(v, i + 19, BLOCK_END, 3);
    ThreeSlices(v, i, i + 11, i + 19, i + 22);
    FirstByteBits(block, 8);
    FirstByteBits(BLOCK_END, 3);
  }

  // ---------------------------------------------------------------- erase and security

  lemma VectorQueues(v: seq<Byte>, n: nat)
    requires FRAME * n <= 8 * |v| && AllOk(v, 0, n)
    ensures Queues(VectorBits(v, FRAME * n))
  {
    hide Slice, AllOk;
    FramesQueue(v, 0, n);
    WholeVector(v, n);
  }

  lemma EraseQueues()
    ensures Queues(VectorBits(ERASE_ALL, 308)) && IsOther(VectorBits(ERASE_ALL, 308))
  {
    hide AllOk, Queues;
    EraseHeadOk();
    EraseMiddleOk();
    EraseTailOk();
    AllOkJoins(ERASE_ALL, 0, 5, 10);
    AllOkJoins(ERASE_ALL, 0, 10, 14);
    VectorQueues(ERASE_ALL, 14);
    assert VectorBits(ERASE_ALL, 308)[12] == BitOf(0x82, 4) && ProgramBits()[12] == BitOf(0x8A, 4);
    assert |VerifyBits()| == 264 && |ChecksumTag()| == 264;
  }

  lemma SecurityQueues()
    ensures Queues(VectorBits(SECURITY, 308)) && IsOther(VectorBits(SECURITY, 308))
  {
    hide AllOk, Queues;
    SecurityHeadOk();
    SecurityMiddleOk();
    SecurityTailOk();
    AllOkJoins(SECURITY, 0, 5, 10);
    AllOkJoins(SECURITY, 0, 10, 14);
    VectorQueues(SECURITY, 14);
    assert VectorBits(SECURITY, 308)[258] == BitOf(0x27, 2) && ProgramBits()[258] == BitOf(0x17, 2);
    assert |VerifyBits()| == 264 && |ChecksumTag()| == 264;
  }

  lemma SecurityVerificationQueues()
    ensures Queues(VectorBits(SECURITY_VERIFICATION, 308)) && IsOther(VectorBits(SECURITY_VERIFICATION, 308))
  {
    hide AllOk, Queues;
    SecurityVerificationHeadOk();
    SecurityVerificationMiddleOk();
    SecurityVerificationTailOk();
    AllOkJoins(SECURITY_VERIFICATION, 0, 5, 10);
    AllOkJoins(SECURITY_VERIFICATION, 0, 10, 14);
    VectorQueues(SECURITY_VERIFICATION, 14);
    assert VectorBits(SECURITY_VERIFICATION, 308)[1] == BitOf(0xDE, 1) && ProgramBits()[1] == BitOf(0x9F, 1);
    assert |VerifyBits()| == 264 && |ChecksumTag()| == 264;
  }

  /** An acknowledged open operation has taken effect, and the forty zeros leave it alone. */
  lemma HandshakeOther(w: World, c: Chip, e: Chip, q: seq<bool>, bits: seq<bool>)
    requires var d := Feed(w, c, bits);
             Aligned(d) && d.execs == e.execs + 1 && (w.acts(e.execs) ==> d == AfterOther(w, e, q))
    ensures var o := Handshake(w, c, bits);
            && (o.failed <==> !Acknowledges(w, Feed(w, c, bits)))
            && (!o.failed ==> o.chip == AfterOther(w, e, q))
  {
    hide Feed;
    var d := Feed(w, c, bits);
    if Acknowledges(w, d) {
      AcknowledgedActs(w, d);
      FeedIdle(w, d, 40);
    }
  }

  /** An erase that is acknowledged has run the erase vector, the whole of it and nothing else. */
  lemma EraseMeaning(w: World, c: Chip)
    requires Aligned(c)
    ensures var o := EraseOutcome(w, c);
            && (o.failed <==> !Acknowledges(w, Feed(w, c, VectorBits(ERASE_ALL, 308) + [false])))
            && (!o.failed ==> o.chip == AfterOther(w, c, VectorBits(ERASE_ALL, 308)))
  {
    hide Feed, VectorBits, Queues, IsOther, Handshake, Acknowledges;
    EraseQueues();
    FeedOther(w, c, VectorBits(ERASE_ALL, 308));
    HandshakeOther(w, c, c, VectorBits(ERASE_ALL, 308), VectorBits(ERASE_ALL, 308) + [false]);
  }

  /** The security data are put in the buffer's first half, and then the security vector is run. */
  lemma SecurityFlashMeaning(w: World, c: Chip, data: seq<Byte>)
    requires Aligned(c) && |data| == BLOCK_SIZE
    ensures var o, bits := SecurityFlashOutcome(w, c, data), LoadBits(data, SECURITY_BYTES);
            && (o.failed <==> !Acknowledges(w, Feed(w, c, bits + VectorBits(SECURITY, 308) + [false])))
            && (!o.failed ==> o.chip == AfterOther(w, Loaded(c, data, SECURITY_BYTES), VectorBits(SECURITY, 308)))
  {
    hide Feed, VectorBits, Queues, IsOther, Handshake, LoadBits, Acknowledges;
    var q, bits, e := VectorBits(SECURITY, 308), LoadBits(data, SECURITY_BYTES), Loaded(c, data, SECURITY_BYTES);
    SecurityQueues();
    LoadEffect(w, c, data, SECURITY_BYTES);
    FeedOther(w, e, q);
    FeedAppend(w, c, bits, q + [false]);
    assert bits + q + [false] == bits + (q + [false]);
    HandshakeOther(w, c, e, q, bits + q + [false]);
  }

  /**
   * A security verification runs its vector, and succeeds exactly if that is
   * acknowledged and leaves the first 32 bytes of the data in the buffer.
   */
  lemma SecurityVerifyMeaning(w: World, c: Chip, data: seq<Byte>)
    requires Aligned(c) && |data| == BLOCK_SIZE
    ensures var o, q := SecurityVerifyOutcome(w, c, data), VectorBits(SECURITY_VERIFICATION, 308);
            var acknowledged := Acknowledges(w, Feed(w, c, q + [false]));
            && (!o.failed <==> acknowledged && w.other(q, c.mem).ram[..32] == data[..32])
            && (acknowledged ==> o.chip == AfterOther(w, c, q))
  {
    hide Feed, VectorBits, Queues, IsOther, Handshake, Acknowledges;
    var q := VectorBits(SECURITY_VERIFICATION, 308);
    SecurityVerificationQueues();
    FeedOther(w, c, q);
    HandshakeOther(w, c, c, q, q + [false]);
  }

  // ---------------------------------------------------------------- identification

  function IdTag(): seq<bool> {
    Without(ID_SETUP, 11, 15)
  }

  lemma IdFrames()
    ensures AllOk(ID_SETUP, 0, 11) && Frame(ID_SETUP, 11) == SetBlockBits(0) && AllOk(ID_SETUP, 12, 15)
  {
    hide AllOk, Frame, Same;
    IdHeadOk();
    IdMiddleOk();
    IdTailOk();
    AllOkJoins(ID_SETUP, 0, 6, 11);
    IdSelectBits();
    SelectFrame(ID_SETUP, 11, WAIT_AND_POLL_END);
  }

  lemma IdIsOther()
    ensures IsOther(IdTag())
  {
    assert IdTag()[1] == BitOf(0xDE, 1) && ProgramBits()[1] == BitOf(0x9F, 1);
    assert |VerifyBits()| == 264 && |ChecksumTag()| == 264;
  }

  /**
   * An identification selects block 0 on its way and runs the rest of its vector. It
   * succeeds exactly if that is acknowledged and leaves the expected id in the result
   * registers.
   */
  lemma SiliconIdMeaning(w: World, c: Chip)
    requires Aligned(c)
    ensures var o, e := SiliconIdOutcome(w, c), AfterOther(w, c.(mem := c.mem.(block := 0)), IdTag());
            var acknowledged := Acknowledges(w, Feed(w, c, VectorBits(ID_SETUP, 330) + [false]));
            && (!o.failed <==> acknowledged && [e.mem.lo, e.mem.hi] == TARGET_ID)
            && (acknowledged ==> o.chip == e)
  {
    hide Feed, VectorBits, AllOk, Frame, IdTag, IsOther, Handshake, Acknowledges;
    IdFrames();
    IdIsOther();
    IdTagIs();
    FeedSelectingOther(w, c, ID_SETUP, 11, 15, 0);
    HandshakeOther(w, c, c.(mem := c.mem.(block := 0)), IdTag(), VectorBits(ID_SETUP, 330) + [false]);
  }

  lemma IdTagIs()
    ensures IdTag() == Without(ID_SETUP, 11, 15)
  {
  }

  // ---------------------------------------------------------------- initialization

  function Init2Tag(): seq<bool> {
    Without(INIT2, 9, 13)
  }

  /** The open operations of an initialization that take effect, in order; the second vector selects block 1. */
  function Init1Memory(w: World, m: Memory): Memory {
    w.other(Frames(INIT1, 6, 18), w.other(Frames(INIT1, 0, 1), m))
  }

  function Init2Memory(w: World, m: Memory): Memory {
    w.other(Init2Tag(), m.(block := 1))
  }

  function Init3Memory(w: World, m: Memory): Memory {
    w.other(Frames(INIT3, 28, 37),
            w.other(Frames(INIT3, 19, 27), w.other(Frames(INIT3, 9, 18), w.other(Frames(INIT3, 0, 8), m))))
  }

  /** These bits of a vector are zeros. */
  predicate ZeroBits(v: seq<Byte>, i: nat, n: nat)
    requires i + n <= 8 * |v|
  {
    forall k | i <= k < i + n :: !BitOf(v[k / 8], k % 8)
  }

  lemma ZeroSlice(v: seq<Byte>, i: nat, n: nat)
    requires i + n <= 8 * |v| && ZeroBits(v, i, n)
    ensures Slice(v, i, i + n) == Zeros(n)
  {
    hide BitOf;
  }

  /** A zero byte, and the zeros at the ends of the bytes that border on zeros. */
  lemma ZeroBit(k: nat)
    requires k < 8
    ensures !BitOf(0, k) && (k < 4 ==> !BitOf(0x0D, k)) && (k < 6 ==> !BitOf(0x03, k)) && (k < 2 ==> !BitOf(0x37, k))
    ensures (k >= 4 ==> !BitOf(0x70, k)) && (k >= 2 ==> !BitOf(0xC0, k)) && (k >= 6 ==> !BitOf(0x5C, k))
  {
  }

  lemma Init1Gap()
    ensures ZeroBits(INIT1, 22, 110)
  {
    hide BitOf;
    assert forall j | 1 <= j < 16 :: INIT1[j] == 0;
    assert INIT1[16] == 0x0D;
    forall k | 22 <= k < 132
      ensures !BitOf(INIT1[k / 8], k % 8)
    {
      ZeroBit(k % 8);
    }
  }

  lemma Init3Gaps12()
    ensures ZeroBits(INIT3, 176, 22) && ZeroBits(INIT3, 396, 22)
  {
    hide BitOf;
    assert INIT3[22] == INIT3[23] == 0 && INIT3[24] == 0x03;
    assert INIT3[49] == 0x70 && INIT3[50] == INIT3[51] == 0 && INIT3[52] == 0x37;
    forall k | 176 <= k < 198 || 396 <= k < 418
      ensures !BitOf(INIT3[k / 8], k % 8)
    {
      ZeroBit(k % 8);
    }
  }

  lemma Init3Gaps34()
    ensures ZeroBits(INIT3, 594, 22) && ZeroBits(INIT3, 814, 22)
  {
    hide BitOf;
    assert INIT3[74] == 0xC0 && INIT3[75] == INIT3[76] == 0;
    assert INIT3[101] == 0x5C && INIT3[102] == INIT3[103] == INIT3[104] == 0;
    forall k | 594 <= k < 616 || 814 <= k < 836
      ensures !BitOf(INIT3[k / 8], k % 8)
    {
      ZeroBit(k % 8);
    }
  }

  /** Both halves of the first vector are none of those known; nor are the second vector and the parts of the third. */
  lemma Init1IsOther()
    ensures IsOther(Frames(INIT1, 0, 1)) && IsOther(Frames(INIT1, 6, 18))
  {
    var q := Frames(INIT1, 6, 18);
    assert q[213] == BitOf(INIT1[43], 1) == BitOf(0x4F, 1);
    assert VerifyBits()[213] == BitOf(VERIFY_SETUP[26], 5) == BitOf(0x00, 5);
    assert ChecksumTag()[213] == ChecksumBits()[235] == BitOf(CHECKSUM[29], 3) == BitOf(0x0F, 3);
    assert |Frames(INIT1, 0, 1)| == 22 && |q| == 264;
    assert |ProgramBits()| == 308 && |VerifyBits()| == 264 && |ChecksumTag()| == 264;
  }

  lemma Init2IsOther()
    ensures IsOther(Init2Tag())
  {
    var q := Init2Tag();
    assert q[214] == VectorBits(INIT2, 286)[236] == BitOf(INIT2[29], 4) == BitOf(0x0D, 4);
    assert q[216] == VectorBits(INIT2, 286)[238] == BitOf(INIT2[29], 6) == BitOf(0x0D, 6);
    assert VerifyBits()[214] == BitOf(VERIFY_SETUP[26], 6) == BitOf(0x00, 6);
    assert ChecksumTag()[216] == ChecksumBits()[238] == BitOf(CHECKSUM[29], 6) == BitOf(0x0F, 6);
    assert |ProgramBits()| == 308 && |q| == 264;
  }

  lemma Init3IsOther()
    ensures IsOther(Frames(INIT3, 0, 8)) && IsOther(Frames(INIT3, 9, 18))
    ensures IsOther(Frames(INIT3, 19, 27)) && IsOther(Frames(INIT3, 28, 37))
  {
    assert |ProgramBits()| == 308 && |VerifyBits()| == 264 && |ChecksumTag()| == 264;
  }

  lemma Init1Queues()
    ensures Queues(Frames(INIT1, 0, 1)) && Queues(Frames(INIT1, 6, 18))
  {
    hide AllOk, Queues, Frames;
    Init1FirstOk();
    FramesQueue(INIT1, 0, 1);
    Init1HeadOk();
    Init1MiddleOk();
    Init1TailOk();
    AllOkJoins(INIT1, 6, 10, 14);
    AllOkJoins(INIT1, 6, 14, 18);
    FramesQueue(INIT1, 6, 18);
  }

  lemma Init2Frames()
    ensures AllOk(INIT2, 0, 9) && Frame(INIT2, 9) == SetBlockBits(1) && AllOk(INIT2, 10, 13)
  {
    hide AllOk, Frame, Same;
    Init2HeadOk();
    Init2MiddleOk();
    Init2BodyOk();
    AllOkJoins(INIT2, 0, 3, 6);
    AllOkJoins(INIT2, 0, 6, 9);
    Init2TailOk();
    Init2SelectBits();
    SelectFrame(INIT2, 9, BLOCK_ONE);
  }

  lemma Init3Queues()
    ensures Queues(Frames(INIT3, 0, 8)) && Queues(Frames(INIT3, 9, 18))
    ensures Queues(Frames(INIT3, 19, 27)) && Queues(Frames(INIT3, 28, 37))
  {
    hide AllOk, Queues, Frames;
    Init3FirstOk();
    Init3FirstMiddleOk();
    Init3FirstTailOk();
    AllOkJoins(INIT3, 0, 3, 6);
    AllOkJoins(INIT3, 0, 6, 8);
    FramesQueue(INIT3, 0, 8);
    Init3SecondOk();
    Init3SecondMiddleOk();
    Init3SecondTailOk();
    AllOkJoins(INIT3, 9, 12, 15);
    AllOkJoins(INIT3, 9, 15, 18);
    FramesQueue(INIT3, 9, 18);
    Init3ThirdOk();
    Init3ThirdTailOk();
    AllOkJoins(INIT3, 19, 23, 27);
    FramesQueue(INIT3, 19, 27);
    Init3FourthOk();
    Init3FourthTailOk();
    AllOkJoins(INIT3, 28, 33, 37);
    FramesQueue(INIT3, 28, 37);
  }

  /** A part of a vector and the zeros behind it: one open operation, if it takes effect. */
  lemma FeedPart(w: World, c: Chip, q: seq<bool>, n: nat)
    requires Aligned(c) && Queues(q) && IsOther(q) && n >= 1
    ensures var d := Feed(w, c, q + Zeros(n));
            Aligned(d) && d.execs == c.execs + 1 && (w.acts(c.execs) ==> d == AfterOther(w, c, q))
  {
    hide Feed, Execute, Queues, ProgramBits, VerifyBits, ChecksumTag;
    FeedSegment(w, c, q, n);
    ExecuteAligns(w, Enqueue(c, q));
    if w.acts(c.execs) { ExecuteOther(w, Enqueue(c, q)); }
  }

  lemma Init1Parts()
    ensures VectorBits(INIT1, 396) + [false] ==
            Frames(INIT1, 0, 1) + Zeros(110) + (Frames(INIT1, 6, 18) + Zeros(1))
  {
    hide BitOf, ZeroBits;
    Init1Gap();
    ZeroSlice(INIT1, 22, 110);
    ThreeSlices(INIT1, 0, 22, 132, 396);
    OneZero();
  }

  lemma FeedInit1(w: World, c: Chip)
    requires Aligned(c)
    ensures var d := Feed(w, c, VectorBits(INIT1, 396) + [false]);
            && Aligned(d) && d.execs == c.execs + 2
            && (w.acts(c.execs) && w.acts(c.execs + 1) ==> d.mem == Init1Memory(w, c.mem))
  {
    hide Feed, VectorBits, Frames, Queues, IsOther;
    var q1, q2 := Frames(INIT1, 0, 1), Frames(INIT1, 6, 18);
    Init1IsOther();
    Init1Queues();
    Init1Parts();
    FeedPart(w, c, q1, 110);
    FeedPart(w, Feed(w, c, q1 + Zeros(110)), q2, 1);
    FeedAppend(w, c, q1 + Zeros(110), q2 + Zeros(1));
  }

  lemma FeedInit2(w: World, c: Chip)
    requires Aligned(c)
    ensures var d := Feed(w, c, VectorBits(INIT2, 286) + [false]);
            Aligned(d) && d.execs == c.execs + 1 && (w.acts(c.execs) ==> d.mem == Init2Memory(w, c.mem))
  {
    hide Feed, VectorBits, AllOk, Frame, IsOther, Without;
    Init2Frames();
    Init2IsOther();
    FeedSelectingOther(w, c, INIT2, 9, 13, 1);
  }

  lemma Init3Parts()
    ensures VectorBits(INIT3, 836) ==
            Frames(INIT3, 0, 8) + Zeros(22) + (Frames(INIT3, 9, 18) + Zeros(22)) +
            (Frames(INIT3, 19, 27) + Zeros(22)) + (Frames(INIT3, 28, 37) + Zeros(22))
  {
    hide Slice, ZeroBits;
    Init3Gaps12();
    Init3Gaps34();
    ZeroSlice(INIT3, 176, 22);
    ZeroSlice(INIT3, 396, 22);
    ZeroSlice(INIT3, 594, 22);
    ZeroSlice(INIT3, 814, 22);
    WholeVector(INIT3, 38);
    FramesSplit(INIT3, 0, 9, 38);
    FramesSplit(INIT3, 0, 8, 9);
    FramesSplit(INIT3, 9, 19, 38);
    FramesSplit(INIT3, 9, 18, 19);
    FramesSplit(INIT3, 19, 28, 38);
    FramesSplit(INIT3, 19, 27, 28);
    FramesSplit(INIT3, 28, 37, 38);
    FourParts(Frames(INIT3, 0, 9), Frames(INIT3, 9, 19), Frames(INIT3, 19, 28), Frames(INIT3, 28, 38));
  }

  lemma FourParts(a: seq<bool>, b: seq<bool>, c: seq<bool>, d: seq<bool>)
    ensures a + (b + (c + d)) == a + b + c + d
  {
  }

  lemma FeedInit3(w: World, c: Chip)
    requires Aligned(c)
    ensures var d := Feed(w, Feed(w, c, VectorBits(INIT3, 836) + [false]), Zeros(40));
            Aligned(d) && (Acts(w) ==> d.mem == Init3Memory(w, c.mem))
  {
    hide Feed, VectorBits, Frames, Queues, IsOther;
    var q1, q2 := Frames(INIT3, 0, 8), Frames(INIT3, 9, 18);
    var q3, q4 := Frames(INIT3, 19, 27), Frames(INIT3, 28, 37);
    Init3IsOther();
    Init3Queues();
    Init3Parts();
    FeedPart(w, c, q1, 22);
    var c1 := Feed(w, c, q1 + Zeros(22));
    FeedPart(w, c1, q2, 22);
    var c2 := Feed(w, c1, q2 + Zeros(22));
    FeedPart(w, c2, q3, 22);
    var c3 := Feed(w, c2, q3 + Zeros(22));
    FeedPart(w, c3, q4, 22);
    var c4 := Feed(w, c3, q4 + Zeros(22));
    FeedAppend(w, c, q1 + Zeros(22), q2 + Zeros(22));
    FeedAppend(w, c, q1 + Zeros(22) + (q2 + Zeros(22)), q3 + Zeros(22));
    FeedAppend(w, c, q1 + Zeros(22) + (q2 + Zeros(22)) + (q3 + Zeros(22)), q4 + Zeros(22));
    OneZero();
    FeedIdle(w, c4, 1);
    FeedAppend(w, c, VectorBits(INIT3, 836), [false]);
    FeedIdle(w, c4, 40);
  }

  /** Every execution takes effect. */
  ghost predicate Acts(w: World) {
    forall n: nat :: w.acts(n)
  }

  lemma HandshakeIdle(w: World, c: Chip, bits: seq<bool>)
    requires Aligned(Feed(w, c, bits))
    ensures Handshake(w, c, bits) == Outcome(Feed(w, c, bits), !Acknowledges(w, Feed(w, c, bits)))
  {
    hide Feed;
    FeedIdle(w, Feed(w, c, bits), 40);
  }

  /**
   * An initialization resets the target, fails exactly if its first or its second
   * vector is not acknowledged, and else has run its seven open operations, in order,
   * if they all take effect.
   */
  lemma InitializeMeaning(w: World, c: Chip)
    ensures var o := InitializeOutcome(w, c);
            var d1 := Feed(w, Reset(w, c), VectorBits(INIT1, 396) + [false]);
            var d2 := Feed(w, d1, VectorBits(INIT2, 286) + [false]);
            && (o.failed <==> !Acknowledges(w, d1) || !Acknowledges(w, d2))
            && (!o.failed ==> Aligned(o.chip))
            && (!o.failed && Acts(w) ==>
                  o.chip.mem == Init3Memory(w, Init2Memory(w, Init1Memory(w, w.reset(c.mem)))))
  {
    hide Feed, VectorBits, Acknowledges, Handshake, Init1Memory, Init2Memory, Init3Memory;
    var r := Reset(w, c);
    FeedInit1(w, r);
    HandshakeIdle(w, r, VectorBits(INIT1, 396) + [false]);
    var d1 := Feed(w, r, VectorBits(INIT1, 396) + [false]);
    FeedInit2(w, d1);
    HandshakeIdle(w, d1, VectorBits(INIT2, 286) + [false]);
    FeedInit3(w, Feed(w, d1, VectorBits(INIT2, 286) + [false]));
  }
}
