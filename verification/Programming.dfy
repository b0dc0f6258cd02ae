/**
 * The programmer's side of the two wires: pin operations, bit and byte transfer,
 * and the target operations built from them.
 */
module Programming {
  import opened Bits
  import opened IsspTarget
  import opened IsspFrames
  import opened IsspOperations

  class Programmer {
    const world: World
    const targetDataOUT: array<Byte>
    var chip: Chip
    var pushPull: bool
    var level: bool
    var sclk: bool

    ghost predicate Valid() {
      targetDataOUT.Length == BLOCK_SIZE
    }

    constructor (w: World, c: Chip)
      ensures Valid() && world == w && chip == c && fresh(targetDataOUT)
    {
      world := w;
      chip := c;
      targetDataOUT := new Byte[64];
      pushPull, level, sclk := *, *, *;
    }

    // ------------------------------------------------------------------ pins

    method SdataHiZ()
      modifies this`pushPull
      ensures !pushPull
    {
      pushPull := false;
    }

    method SdataPP()
      modifies this`pushPull
      ensures pushPull
    {
      pushPull := true;
    }

    method SclkLow()
      modifies this`sclk
      ensures !sclk
    {
      sclk := false;
    }

    /** Only a rising edge clocks the target. */
    method SclkHigh()
      modifies this`sclk, this`chip
      ensures sclk
      ensures chip == if old(sclk) then old(chip) else Pulse(world, old(chip), pushPull && level)
    {
      if !sclk {
        chip := Pulse(world, chip, pushPull && level);
      }
      sclk := true;
    }

    /** One clock, the pair of pin writes that follows every vector to be executed. */
    method Clock()
      modifies this`sclk, this`chip
      ensures !sclk
      ensures chip == if old(sclk) then old(chip) else Feed(world, old(chip), [pushPull && level])
    {
      FeedOne(world, chip, pushPull && level);
      SclkHigh();
      SclkLow();
    }

    /** The pin may only be read while the target drives it. */
    method ReadPad(poll: nat) returns (b: bool)
      requires !pushPull
      ensures b == Pin(world, chip, poll)
    {
      b := Pin(world, chip, poll);
    }

    // ----------------------------------------------------------- bits and bytes

    method BitReceive() returns (b: bool)
      requires !pushPull
      modifies this`sclk, this`chip
      ensures sclk && chip == Feed(world, old(chip), [false]) && b == Pin(world, chip, 0)
    {
      FeedOne(world, chip, false);
      SclkLow();
      SclkHigh();
      b := ReadPad(0);
    }

    /** Eight clocks with the line released, the first bit read ending up on top. */
    method ByteReceive() returns (r: Byte)
      requires !pushPull
      modifies this`sclk, this`chip
      ensures sclk && chip == Feed(world, old(chip), Zeros(8))
      ensures r == Value(Observed(world, old(chip), 8))
    {
      hide Pulse, Zeros;
      r := 0;
      ghost var c := chip;
      for b := 0 to 8
        invariant chip == Feed(world, c, Zeros(b)) && r == Value(Observed(world, c, b))
        invariant b > 0 ==> sclk
      {
        var bit := BitReceive();
        r := (r << 1) + (if bit then 1 else 0);
        FeedZero(world, c, b);
        ObservedSnoc(world, c, b);
        ValueSnoc(Observed(world, c, b), bit);
      }
    }

    /** The first n bits of a byte, most significant first, one clock each. */
    method ByteSend(byte: Byte, n: nat)
      requires n <= 8 && pushPull && !sclk
      modifies this`level, this`sclk, this`chip
      ensures !sclk && chip == Feed(world, old(chip), ByteBits(byte, n))
      ensures level == if n == 0 then old(level) else BitOf(byte, n - 1)
    {
      hide Feed, Pulse, ByteBits, BitOf;
      var cur := byte;
      ghost var c := chip;
      NoBits(world, c, byte);
      for b := 0 to n
        invariant !sclk && chip == Feed(world, c, ByteBits(byte, b))
        invariant level == if b == 0 then old(level) else BitOf(byte, b - 1)
        invariant ByteBits(byte, n) == ByteBits(byte, b) + ByteBits(cur, n - b)
      {
        level := cur & 0x80 != 0;
        ShiftByteBits(cur, n - b - 1);
        NextBit(byte, n, b, level, ByteBits(cur << 1, n - b - 1));
        FeedSnoc(world, c, ByteBits(byte, b), level);
        SclkHigh();
        SclkLow();
        cur := cur << 1;
      }
    }

    /** The first numBits bits of a vector, then the line is released. */
    method VectorSend(vect: seq<Byte>, numBits: nat)
      requires numBits <= 8 * |vect| && !sclk
      modifies this`pushPull, this`level, this`sclk, this`chip
      ensures !sclk && !pushPull && chip == Feed(world, old(chip), VectorBits(vect, numBits))
    {
      hide Feed, VectorBits, ByteBits;
      ghost var c := chip;
      NoVector(world, c, vect);
      SdataPP();
      var i: nat, rest: nat := 0, numBits;
      while rest >= 8
        invariant !sclk && pushPull && 8 * i + rest == numBits
        invariant chip == Feed(world, c, VectorBits(vect, 8 * i))
      {
        ByteSend(vect[i], 8);
        VectorStep(world, c, vect, i, 8);
        rest := rest - 8;
        i := i + 1;
      }
      if rest > 0 {
        ByteSend(vect[i], rest);
        VectorStep(world, c, vect, i, rest);
      }
      SdataHiZ();
    }

    /** True exactly when the target does not acknowledge in time. */
    method TransitionHiLoDetect() returns (failed: bool)
      requires !pushPull
      ensures failed <==> !Acknowledges(world, chip)
    {
      var timer: nat, poll: nat := TRANSITION_TIMEOUT, 0;
      while true
        invariant poll + timer == TRANSITION_TIMEOUT
        invariant forall k | 0 <= k < poll :: !Pin(world, chip, k)
        decreases timer
      {
        var b := ReadPad(poll);
        if b { break; }
        poll := poll + 1;
        if timer == 0 { return true; }
        timer := timer - 1;
      }
      ghost var h := poll;
      assert RisesAt(world, chip, h);
      timer, poll := TRANSITION_TIMEOUT, poll + 1;
      while true
        invariant poll + timer == h + 1 + TRANSITION_TIMEOUT && poll > h
        invariant forall k | h < k < poll :: Pin(world, chip, k)
        decreases timer
      {
        var b := ReadPad(poll);
        if !b { break; }
        poll := poll + 1;
        if timer == 0 { return true; }
        timer := timer - 1;
      }
      assert FallsAt(world, chip, h, poll);
      return false;
    }

    // ---------------------------------------------------------- target operations

    /**
     * The tail shared by the operations that execute something: one clock, the
     * wait for the acknowledge, and on success the forty zeros.
     */
    method ClockAndWait(ghost c: Chip, ghost bits: seq<bool>) returns (failed: bool)
      requires !sclk && !pushPull && chip == Feed(world, c, bits)
      modifies this`pushPull, this`level, this`sclk, this`chip
      ensures !sclk && !pushPull
      ensures var o := Handshake(world, c, bits + [false]); chip == o.chip && failed == o.failed
    {
      FeedAppend(world, c, bits, [false]);
      Clock();
      failed := TransitionHiLoDetect();
      if !failed {
        PollEndIsZeros();
        VectorSend(WAIT_AND_POLL_END, 40);
      }
    }

    method TargetReStart()
      modifies this`chip
      ensures chip == Reset(world, old(chip))
    {
      chip := Reset(world, chip);
    }

    method TargetInitialize() returns (failed: bool)
      modifies this`pushPull, this`level, this`sclk, this`chip
      ensures !sclk && !pushPull
      ensures var o := InitializeOutcome(world, old(chip)); chip == o.chip && failed == o.failed
    {
      SdataHiZ();
      SclkLow();
      TargetReStart();
      ghost var c := chip;
      VectorSend(INIT1, 396);
      failed := ClockAndWait(c, VectorBits(INIT1, 396));
      if failed { return; }
      c := chip;
      VectorSend(INIT2, 286);
      failed := ClockAndWait(c, VectorBits(INIT2, 286));
      if failed { return; }
      c := chip;
      VectorSend(INIT3, 836);
      FeedAppend(world, c, VectorBits(INIT3, 836), [false]);
      Clock();
      PollEndIsZeros();
      VectorSend(WAIT_AND_POLL_END, 40);
    }

    /**
     * After the eleven bits that ask for a result register: two released clocks,
     * the byte the target puts on the line, and its last half clock. One more bit
     * of any value takes the target back to where it was.
     */
    method ReadResult(ghost c: Chip, ghost v: seq<Byte>) returns (r: Byte)
      requires !sclk && !pushPull && Aligned(c) && (v == READ_CHECKSUM || v == READ_ID)
      requires chip == Feed(world, c, VectorBits(v, 11))
      modifies this`sclk, this`chip
      ensures !sclk && r == if v == READ_CHECKSUM then c.mem.hi else c.mem.lo
      ensures Feed(world, chip, [false]) == Feed(world, chip, [true]) == c
    {
      TwoReleased(world, c, VectorBits(v, 11));
      Clock();
      Clock();
      r := ByteReceive();
      Clock();
      ReadResultEffect(world, c, v, false);
      ReadResultEffect(world, c, v, true);
      ByteRoundTrip(c.mem.hi);
      ByteRoundTrip(c.mem.lo);
    }

    /** Both result registers of an aligned target, the one asked for first coming first. */
    method ReadResults(first: seq<Byte>, second: seq<Byte>, ghost v: seq<Byte>, end: seq<Byte>)
        returns (a: Byte, b: Byte)
      requires !sclk && Aligned(chip) && |first| >= 2 && |second| >= 2 && |end| >= 1
      requires (first == READ_CHECKSUM && v == READ_ID) || (first == READ_ID && v == READ_CHECKSUM)
      requires VectorBits(second, 12) == [true] + VectorBits(v, 11)
      modifies this`pushPull, this`level, this`sclk, this`chip
      ensures !sclk && !pushPull && chip == old(chip)
      ensures first == READ_CHECKSUM ==> a == chip.mem.hi && b == chip.mem.lo
      ensures first == READ_ID ==> a == chip.mem.lo && b == chip.mem.hi
    {
      ghost var c := chip;
      VectorSend(first, 11);
      a := ReadResult(c, first);
      FeedAppend(world, chip, [true], VectorBits(v, 11));
      VectorSend(second, 12);
      b := ReadResult(c, v);
      VectorSend(end, 1);
      assert VectorBits(end, 1) == [BitOf(end[0], 0)];
    }

    method TargetSiliconIDVerify() returns (failed: bool)
      requires !sclk && |chip.shift| < FRAME
      modifies this`pushPull, this`level, this`sclk, this`chip
      ensures !sclk && !pushPull
      ensures var o := SiliconIdOutcome(world, old(chip)); chip == o.chip && failed == o.failed
    {
      ghost var c := chip;
      VectorSend(ID_SETUP, 330);
      failed := ClockAndWait(c, VectorBits(ID_SETUP, 330));
      if failed { return; }
      HandshakeAligns(world, c, VectorBits(ID_SETUP, 330) + [false]);
      IdJoint();
      var id0, id1 := ReadResults(READ_ID, READ_ID[2..], READ_CHECKSUM, READ_ID[4..]);
      failed := id0 != TARGET_ID[0] || id1 != TARGET_ID[1];
      assert [id0, id1] == TARGET_ID <==> !failed;
    }

    method TargetErase() returns (failed: bool)
      requires !sclk
      modifies this`pushPull, this`level, this`sclk, this`chip
      ensures !sclk && !pushPull
      ensures var o := EraseOutcome(world, old(chip)); chip == o.chip && failed == o.failed
    {
      ghost var c := chip;
      VectorSend(ERASE_ALL, 308);
      failed := ClockAndWait(c, VectorBits(ERASE_ALL, 308));
    }

    /** The write-byte frame of one more byte of the buffer. */
    method WriteByte(address: Byte, datum: Byte, ghost c: Chip, ghost data: seq<Byte>, ghost i: nat)
      requires !sclk && pushPull && i < BLOCK_SIZE == |data| && address == Addr(i) && datum == data[i]
      requires chip == Feed(world, c, LoadBits(data, i))
      modifies this`level, this`sclk, this`chip
      ensures !sclk && chip == Feed(world, c, LoadBits(data, i + 1))
    {
      ghost var d := chip;
      ByteSend(WRITE_BYTE_START, 5);
      ByteSend(address, 6);
      ByteSend(datum, 8);
      ByteSend(WRITE_BYTE_END, 3);
      FeedParts(world, d, i, datum);
      FeedAppend(world, c, LoadBits(data, i), WriteByteBits(i, datum));
    }

    /** The first n bytes of the buffer are written to the target; their 16-bit sum is returned. */
    method WriteBytes(n: nat, ghost data: seq<Byte>) returns (checksum: Word)
      requires Valid() && !sclk && n <= BLOCK_SIZE && targetDataOUT[..] == data
      modifies this`pushPull, this`level, this`sclk, this`chip
      ensures !sclk && pushPull && chip == Feed(world, old(chip), LoadBits(data, n))
      ensures checksum == Sum(data[..n]) % 0x10000
    {
      ghost var c := chip;
      var ptr: nat, address: Byte := 0, 0;
      checksum := 0;
      SdataPP();
      while ptr < n
        invariant ptr <= n && address == Addr(ptr) && !sclk && pushPull && targetDataOUT[..] == data
        invariant chip == Feed(world, c, LoadBits(data, ptr)) && checksum == Sum(data[..ptr]) % 0x10000
      {
        var temp := targetDataOUT[ptr];
        assert temp == data[ptr];
        SumStep(data, ptr, temp, checksum);
        checksum := (checksum + temp as int) % 0x10000;
        WriteByte(address, temp, c, data, ptr);
        AddrStep(ptr);
        ptr, address := ptr + 1, address + 4;
      }
    }

    /** All 64 bytes of the buffer are written to the target; their 16-bit sum is returned. */
    method TargetLoad() returns (checksum: Word)
      requires Valid() && !sclk
      modifies this`pushPull, this`level, this`sclk, this`chip
      ensures !sclk && chip == Feed(world, old(chip), LoadBits(targetDataOUT[..], 64))
      ensures checksum == Sum(targetDataOUT[..]) % 0x10000
    {
      ghost var data := targetDataOUT[..];
      checksum := WriteBytes(64, data);
      assert data[..64] == data;
    }

    /** The block-select frame; the line is left driven. */
    method SelectBlock(blockNumber: Byte)
      requires !sclk
      modifies this`pushPull, this`level, this`sclk, this`chip
      ensures !sclk && pushPull && chip == Feed(world, old(chip), SetBlockBits(blockNumber))
    {
      ghost var c := chip;
      VectorSend(SET_BLOCK_NUMBER, 11);
      SdataPP();
      ByteSend(blockNumber, 8);
      ByteSend(SET_BLOCK_NUMBER_END, 3);
      ghost var f1 := VectorBits(SET_BLOCK_NUMBER, 11);
      FeedAppend(world, c, f1, ByteBits(blockNumber, 8));
      FeedAppend(world, c, f1 + ByteBits(blockNumber, 8), ByteBits(SET_BLOCK_NUMBER_END, 3));
    }

    method TargetBlockProgram(blockNumber: Byte) returns (failed: bool)
      requires !sclk
      modifies this`pushPull, this`level, this`sclk, this`chip
      ensures !sclk && !pushPull
      ensures var o := ProgramOutcome(world, old(chip), blockNumber); chip == o.chip && failed == o.failed
    {
      ghost var c := chip;
      SelectBlock(blockNumber);
      VectorSend(PROGRAM_BLOCK, 308);
      FeedAppend(world, c, SetBlockBits(blockNumber), ProgramBits());
      failed := ClockAndWait(c, SetBlockBits(blockNumber) + ProgramBits());
    }

    /** One read frame of an aligned target: the byte at the left-justified address. */
    method ReadByte(address: Byte, ghost i: nat) returns (r: Byte)
      requires !sclk && Aligned(chip) && i < BLOCK_SIZE && address == Addr(i)
      modifies this`pushPull, this`level, this`sclk, this`chip
      ensures !sclk && !pushPull && chip == old(chip)
      ensures r == chip.mem.ram[i]
    {
      ghost var c := chip;
      VectorSend(READ_BYTE, 5);
      SdataPP();
      ByteSend(address, 6);
      ghost var x := level;
      ReadPrefix(world, c, i, x);
      Clock();
      Clock();
      ghost var d := Feed(world, c, ReadByteBits(i, x));
      assert chip == d;
      ReadByteEffect(world, c, i, x, true);
      ByteRoundTrip(c.mem.ram[i]);
      SdataHiZ();
      r := ByteReceive();
      Clock();
      EndBit();
      VectorSend(READ_BYTE[1..], 1);
    }

    /** The first n bytes of the target's block buffer are compared with the programmer's. */
    method CompareBytes(n: nat, ghost data: seq<Byte>) returns (failed: bool)
      requires Valid() && !sclk && Aligned(chip) && n <= BLOCK_SIZE && targetDataOUT[..] == data
      modifies this`pushPull, this`level, this`sclk, this`chip
      ensures !sclk && chip == old(chip) && (old(pushPull) || !pushPull)
      ensures !failed <==> chip.mem.ram[..n] == data[..n]
    {
      ghost var c := chip;
      var ptr: nat, address: Byte := 0, 0;
      while ptr < n
        invariant ptr <= n && address == Addr(ptr) && !sclk
        invariant chip == c && (old(pushPull) || !pushPull) && c.mem.ram[..ptr] == data[..ptr]
      {
        var targetDataIN := ReadByte(address, ptr);
        AddrStep(ptr);
        PrefixStep(c.mem.ram, data, ptr, n);
        if targetDataIN != targetDataOUT[ptr] {
          return true;
        }
        ptr, address := ptr + 1, address + 4;
      }
      return false;
    }

    method TargetBlockVerify(blockNumber: Byte) returns (failed: bool)
      requires Valid() && !sclk && |chip.shift| < FRAME
      modifies this`pushPull, this`level, this`sclk, this`chip
      ensures !sclk && !pushPull
      ensures var o := VerifyOutcome(world, old(chip), blockNumber, targetDataOUT[..]);
              chip == o.chip && failed == o.failed
    {
      ghost var c, data := chip, targetDataOUT[..];
      SelectBlock(blockNumber);
      VectorSend(VERIFY_SETUP, 264);
      ghost var bits := SetBlockBits(blockNumber) + VerifyBits();
      FeedAppend(world, c, SetBlockBits(blockNumber), VerifyBits());
      failed := ClockAndWait(c, bits);
      if failed { return; }
      HandshakeAligns(world, c, bits + [false]);
      failed := CompareBytes(64, data);
      assert data[..64] == data && chip.mem.ram[..64] == chip.mem.ram;
    }

    /** The 16-bit result of the checksum operation is added to acc. */
    method TargetBankChecksumGet(acc: Word) returns (failed: bool, sum: Word)
      requires !sclk && |chip.shift| < FRAME
      modifies this`pushPull, this`level, this`sclk, this`chip
      ensures !sclk && !pushPull
      ensures var o := ChecksumOutcome(world, old(chip));
              chip == o.chip && failed == o.failed && sum == if failed then acc else (acc + Result(chip)) % 0x10000
    {
      hide Feed, Pulse, Value, Observed, VectorBits;
      ghost var c := chip;
      VectorSend(CHECKSUM, 286);
      failed := ClockAndWait(c, ChecksumBits());
      sum := acc;
      if failed { return; }
      HandshakeAligns(world, c, ChecksumSequence());
      ResultJoint();
      var hi, lo := ReadResults(READ_CHECKSUM, READ_CHECKSUM[2..], READ_ID, READ_CHECKSUM[3..]);
      AddTwice(acc, 256 * hi as int, lo as int);
      sum := (sum + 256 * hi as int) % 0x10000;
      sum := (sum + lo as int) % 0x10000;
    }

    method TargetSecurityFlash() returns (failed: bool)
      requires Valid() && !sclk
      modifies this`pushPull, this`level, this`sclk, this`chip
      ensures !sclk && !pushPull
      ensures var o := SecurityFlashOutcome(world, old(chip), targetDataOUT[..]); chip == o.chip && failed == o.failed
    {
      ghost var c, data := chip, targetDataOUT[..];
      var _ := WriteBytes(SECURITY_BYTES, data);
      VectorSend(SECURITY, 308);
      FeedAppend(world, c, LoadBits(data, SECURITY_BYTES), VectorBits(SECURITY, 308));
      failed := ClockAndWait(c, LoadBits(data, SECURITY_BYTES) + VectorBits(SECURITY, 308));
    }

    method TargetSecurityVerify() returns (failed: bool)
      requires Valid() && !sclk && |chip.shift| < FRAME
      modifies this`pushPull, this`level, this`sclk, this`chip
      ensures !sclk && !pushPull
      ensures var o := SecurityVerifyOutcome(world, old(chip), targetDataOUT[..]);
              chip == o.chip && failed == o.failed
    {
      ghost var c, data := chip, targetDataOUT[..];
      VectorSend(SECURITY_VERIFICATION, 308);
      failed := ClockAndWait(c, VectorBits(SECURITY_VERIFICATION, 308));
      if failed { return; }
      HandshakeAligns(world, c, VectorBits(SECURITY_VERIFICATION, 308) + [false]);
      failed := CompareBytes(SECURITY_BYTES, data);
    }
  }

  lemma AddTwice(a: nat, b: nat, c: nat)
    ensures ((a + b) % 0x10000 + c) % 0x10000 == (a + (b + c)) % 0x10000
  {
  }

  lemma PrefixStep(a: seq<Byte>, b: seq<Byte>, m: nat, n: nat)
    requires m < n <= |a| && n <= |b| && a[..m] == b[..m]
    ensures a[m] == b[m] ==> a[..m + 1] == b[..m + 1]
    ensures a[m] != b[m] ==> a[..n] != b[..n]
  {
    assert a[m] != b[m] ==> a[..n][m] != b[..n][m];
  }

  lemma ReadPrefix(w: World, c: Chip, i: nat, x: bool)
    requires i < BLOCK_SIZE
    ensures var d := Feed(w, Feed(w, c, VectorBits(READ_BYTE, 5)), ByteBits(Addr(i), 6));
            Feed(w, Feed(w, d, [x]), [x]) == Feed(w, c, ReadByteBits(i, x))
  {
    var f1 := VectorBits(READ_BYTE, 5);
    var f2 := f1 + ByteBits(Addr(i), 6);
    FeedAppend(w, c, f1, ByteBits(Addr(i), 6));
    FeedAppend(w, c, f2, [x]);
    FeedAppend(w, c, f2 + [x], [x]);
    assert ReadByteBits(i, x) == f2 + [x] + [x];
  }

  lemma EndBit()
    ensures VectorBits(READ_BYTE[1..], 1) == [true]
  {
    assert BitOf(0x80, 0);
  }

  lemma FeedParts(w: World, c: Chip, i: nat, b: Byte)
    requires i < BLOCK_SIZE
    ensures var c1 := Feed(w, c, ByteBits(WRITE_BYTE_START, 5));
            var c2 := Feed(w, c1, ByteBits(Addr(i), 6));
            var c3 := Feed(w, c2, ByteBits(b, 8));
            Feed(w, c3, ByteBits(WRITE_BYTE_END, 3)) == Feed(w, c, WriteByteBits(i, b))
  {
    var f1 := ByteBits(WRITE_BYTE_START, 5);
    var f2 := f1 + ByteBits(Addr(i), 6);
    FeedAppend(w, c, f1, ByteBits(Addr(i), 6));
    FeedAppend(w, c, f2, ByteBits(b, 8));
    FeedAppend(w, c, f2 + ByteBits(b, 8), ByteBits(WRITE_BYTE_END, 3));
  }

  lemma SumStep(s: seq<Byte>, n: nat, x: Byte, acc: Word)
    requires n < |s| && x == s[n] && acc == Sum(s[..n]) % 0x10000
    ensures (acc + x as int) % 0x10000 == Sum(s[..n + 1]) % 0x10000
  {
    assert s[..n + 1][..n] == s[..n];
  }

  lemma TwoReleased(w: World, c: Chip, bits: seq<bool>)
    ensures Feed(w, c, bits + [false, false]) == Feed(w, Feed(w, Feed(w, c, bits), [false]), [false])
  {
    assert bits + [false, false] == bits + [false] + [false];
    FeedAppend(w, c, bits, [false]);
    FeedAppend(w, c, bits + [false], [false]);
  }

  lemma PollEndIsZeros()
    ensures VectorBits(WAIT_AND_POLL_END, 40) == Zeros(40)
  {
  }

  /** The twelve bits between the two identity reads close the first and open the second. */
  lemma IdJoint()
    ensures VectorBits(READ_ID[2..], 12) == [true] + VectorBits(READ_CHECKSUM, 11)
  {
    var u, v := VectorBits(READ_ID[2..], 12), VectorBits(READ_CHECKSUM, 11);
    assert Same(READ_ID, 17, READ_CHECKSUM, 11);
    SameSlice(READ_ID, 17, READ_CHECKSUM, 11);
    forall i | 0 < i < 12
      ensures u[i] == v[i - 1]
    {
      assert u[i] == BitAt(READ_ID, 16 + i) == Slice(READ_ID, 17, 28)[i - 1];
    }
  }

  lemma FeedOne(w: World, c: Chip, b: bool)
    ensures Feed(w, c, [b]) == Pulse(w, c, b)
  {
    assert [b][..0] == [];
  }

  lemma NoBits(w: World, c: Chip, b: Byte)
    ensures ByteBits(b, 0) == [] && Feed(w, c, []) == c
    ensures forall n | 0 <= n <= 8 :: ByteBits(b, n) == ByteBits(b, 0) + ByteBits(b, n)
  {
    assert ByteBits(b, 0) == [];
  }

  lemma NoVector(w: World, c: Chip, v: seq<Byte>)
    ensures VectorBits(v, 0) == [] && Feed(w, c, VectorBits(v, 0)) == c
  {
  }

  lemma FeedSnoc(w: World, c: Chip, bits: seq<bool>, b: bool)
    ensures Feed(w, c, bits + [b]) == Pulse(w, Feed(w, c, bits), b)
  {
    assert (bits + [b])[..|bits|] == bits;
  }

  lemma FeedZero(w: World, c: Chip, n: nat)
    ensures Feed(w, c, Zeros(n + 1)) == Feed(w, Feed(w, c, Zeros(n)), [false])
  {
    assert Zeros(n + 1) == Zeros(n) + [false];
    FeedAppend(w, c, Zeros(n), [false]);
  }

  lemma ObservedSnoc(w: World, c: Chip, n: nat)
    ensures Observed(w, c, n + 1) == Observed(w, c, n) + [Pin(w, Feed(w, c, Zeros(n + 1)), 0)]
  {
    hide Feed, Pin;
  }

  lemma NextBit(byte: Byte, n: nat, b: nat, x: bool, rest: seq<bool>)
    requires b < n <= 8 && ByteBits(byte, n) == ByteBits(byte, b) + ([x] + rest)
    ensures ByteBits(byte, b + 1) == ByteBits(byte, b) + [x] && BitOf(byte, b) == x
    ensures ByteBits(byte, n) == ByteBits(byte, b + 1) + rest
  {
    assert ByteBits(byte, n)[b] == x;
  }

  lemma VectorStep(w: World, c: Chip, v: seq<Byte>, i: nat, n: nat)
    requires n <= 8 && i < |v|
    ensures Feed(w, c, VectorBits(v, 8 * i + n)) == Feed(w, Feed(w, c, VectorBits(v, 8 * i)), ByteBits(v[i], n))
  {
    hide Feed, BitOf;
    var a, b := VectorBits(v, 8 * i), ByteBits(v[i], n);
    forall k | 0 <= k < n
      ensures VectorBits(v, 8 * i + n)[8 * i + k] == b[k]
    {
      assert (8 * i + k) / 8 == i && (8 * i + k) % 8 == k;
    }
    assert VectorBits(v, 8 * i + n) == a + b;
    FeedAppend(w, c, a, b);
  }
}
