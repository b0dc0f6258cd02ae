/**
 * What each command does to the target and how it is answered, in terms of the bytes
 * that go in and come out.
 */
module FlashCommands {
  import opened Bits
  import opened IsspTarget
  import opened IsspOperations
  import opened IsspVectors
  import opened FlashProtocol

  /** A command line is dispatched once it is complete. */
  lemma CommandLine(w: World, f: Firmware, cmd: Byte, end: Byte)
    requires FirmwareOk(f) && f.pc == Command
    ensures Respond(w, f, [cmd, end]) ==
            if IsCommand(cmd) && end == NL then Dispatch(w, f.(pc := Terminator(cmd)), cmd) else Reaction(f, [])
  {
    hide Dispatch;
    assert [cmd, end][..1] == [cmd] && [cmd][..0] == [];
    var g := f.(pc := Terminator(cmd));
    var reply := Receive(w, g, end).reply;
    assert Respond(w, f, [cmd]) == Reaction(g, []);
    assert [] + reply == reply;
  }

  lemma {:induction false} BlockArrives(w: World, f: Firmware, cmd: Byte, data: seq<Byte>)
    requires FirmwareOk(f) && f.pc == Data(cmd) && f.buf == [] && |data| < BLOCK_SIZE
    ensures Respond(w, f, data) == Reaction(f.(buf := data), [])
  {
    hide Block;
    if data == [] {
    } else {
      BlockArrives(w, f, cmd, data[..|data| - 1]);
      assert data[..|data| - 1] + [data[|data| - 1]] == data;
    }
  }

  /** A block is dealt with once it is complete. */
  lemma BlockComplete(w: World, f: Firmware, cmd: Byte, data: seq<Byte>)
    requires FirmwareOk(f) && f.pc == Data(cmd) && f.buf == [] && |data| == BLOCK_SIZE
    ensures Respond(w, f, data) == Block(w, f.(buf := data), cmd, data)
  {
    hide Block;
    BlockArrives(w, f, cmd, data[..63]);
    assert data[..63] + [data[63]] == data;
  }

  lemma {:induction false} RespondAppend(w: World, f: Firmware, a: seq<Byte>, b: seq<Byte>)
    requires FirmwareOk(f)
    ensures var r := Respond(w, f, a);
            Respond(w, f, a + b) == Reaction(Respond(w, r.fw, b).fw, r.reply + Respond(w, r.fw, b).reply)
    decreases |b|
  {
    hide Receive;
    var r := Respond(w, f, a);
    if b == [] {
      assert a + b == a && r.reply + [] == r.reply;
    } else {
      var front := b[..|b| - 1];
      RespondAppend(w, f, a, front);
      assert (a + b)[..|a + b| - 1] == a + front && (a + b)[|a + b| - 1] == b[|b| - 1];
    }
  }

  // ---------------------------------------------------------------- commands without data

  /** Restarting puts the target through a reset: nothing is left in its shift register or its queue. */
  lemma RestartMeaning(w: World, f: Firmware)
    requires FirmwareOk(f) && f.pc == Command
    ensures var r := Respond(w, f, [RESTART, NL]);
            && r.reply == Reply(RESTART, ZERO) && r.fw.pc == Command
            && r.fw.chip == Chip(w.reset(f.chip.mem), [], [], f.chip.execs)
  {
    CommandLine(w, f, RESTART, NL);
  }

  /**
   * Initializing is answered with 1 exactly if one of its two handshakes is not
   * acknowledged, with 2 exactly if they are and the id is not acknowledged or not the
   * expected one, and else with 0.
   */
  lemma InitMeaning(w: World, f: Firmware)
    requires FirmwareOk(f) && f.pc == Command
    ensures var r := Respond(w, f, [INIT, NL]);
            var d1 := Feed(w, Reset(w, f.chip), VectorBits(INIT1, 396) + [false]);
            var d2 := Feed(w, d1, VectorBits(INIT2, 286) + [false]);
            var failed := !Acknowledges(w, d1) || !Acknowledges(w, d2);
            && r.fw.pc == Command && r.reply in [Reply(INIT, ZERO), Reply(INIT, ONE), Reply(INIT, TWO)]
            && (r.reply == Reply(INIT, ONE) <==> failed)
            && (r.reply == Reply(INIT, TWO) <==> !failed && !Identified(w, InitializeOutcome(w, f.chip).chip))
  {
    hide Feed, VectorBits, Acknowledges, InitializeOutcome, SiliconIdOutcome, Init1Memory, Init2Memory, Init3Memory,
         Identified;
    CommandLine(w, f, INIT, NL);
    InitializeMeaning(w, f.chip);
    RepliesDiffer(INIT);
    var o := InitializeOutcome(w, f.chip);
    if !o.failed { IdentifiedExactly(w, o.chip); }
  }

  /** The id vector is acknowledged and leaves the expected id. */
  ghost predicate Identified(w: World, c: Chip) {
    var m := w.other(IdTag(), c.mem.(block := 0));
    Acknowledges(w, Feed(w, c, VectorBits(ID_SETUP, 330) + [false])) && [m.lo, m.hi] == TARGET_ID
  }

  lemma IdentifiedExactly(w: World, c: Chip)
    requires Aligned(c)
    ensures !SiliconIdOutcome(w, c).failed <==> Identified(w, c)
  {
    hide Feed, VectorBits, Acknowledges, SiliconIdOutcome, IdTag;
    SiliconIdMeaning(w, c);
  }

  lemma RepliesDiffer(cmd: Byte)
    ensures Reply(cmd, ZERO) != Reply(cmd, ONE) && Reply(cmd, ZERO) != Reply(cmd, TWO)
    ensures Reply(cmd, ONE) != Reply(cmd, TWO)
    ensures Reply(cmd, PLUS) != Reply(cmd, ONE) && Reply(cmd, PLUS) != Reply(cmd, ZERO)
  {
    assert Reply(cmd, ZERO)[2] == ZERO && Reply(cmd, ONE)[2] == ONE && Reply(cmd, TWO)[2] == TWO;
    assert Reply(cmd, PLUS)[2] == PLUS;
  }

  /** Erasing is answered with 1 exactly if it is not acknowledged; else it has run the erase vector. */
  lemma EraseCommand(w: World, f: Firmware)
    requires FirmwareOk(f) && f.pc == Command && Aligned(f.chip)
    ensures var r := Respond(w, f, [ERASE, NL]);
            var acknowledged := Acknowledges(w, Feed(w, f.chip, VectorBits(ERASE_ALL, 308) + [false]));
            && r.fw.pc == Command && r.reply == Reply(ERASE, if acknowledged then ZERO else ONE)
            && (acknowledged ==> r.fw.chip == AfterOther(w, f.chip, VectorBits(ERASE_ALL, 308)))
  {
    hide Feed, VectorBits, Acknowledges, EraseOutcome;
    CommandLine(w, f, ERASE, NL);
    EraseMeaning(w, f.chip);
  }

  /**
   * The checksum is answered with 1 exactly if it is not acknowledged, with 2 exactly if
   * it is and the target's sum is not the running one, and else with 0.
   */
  lemma CheckCommand(w: World, f: Firmware)
    requires FirmwareOk(f) && f.pc == Command && Aligned(f.chip)
    ensures var r := Respond(w, f, [CHECK, NL]);
            var acknowledged := Acknowledges(w, Feed(w, f.chip, ChecksumSequence()));
            var same := f.checksum == SumAll(f.chip.mem.flash) % 0x10000;
            && r.fw.pc == Command && r.fw.chip.mem.flash == f.chip.mem.flash
            && r.reply == Reply(CHECK, if !acknowledged then ONE else if !same then TWO else ZERO)
  {
    hide Feed, ChecksumSequence, Acknowledges, SumAll, Result;
    CommandLine(w, f, CHECK, NL);
    ChecksumMeaning(w, f.chip);
  }

  /** Anything else on a line is ignored, but for the command that ends the loop for good. */
  lemma OtherLines(w: World, f: Firmware, cmd: Byte, end: Byte)
    requires FirmwareOk(f) && f.pc == Command
    requires end != NL || !(INIT <= cmd <= CHECK || cmd == RESTART || cmd == QUIT)
    ensures Respond(w, f, [cmd, end]) == Reaction(f, [])
    ensures Respond(w, f, [QUIT, NL]) == Reaction(f.(pc := Halted), [])
  {
    hide InitializeOutcome, SiliconIdOutcome, EraseOutcome, ChecksumOutcome, Reset;
    CommandLine(w, f, cmd, end);
    CommandLine(w, f, QUIT, NL);
  }

  // ---------------------------------------------------------------- commands with data

  /** The commands that data follow start at block 0; programming starts a new sum. */
  lemma DataCommand(w: World, f: Firmware, cmd: Byte)
    requires FirmwareOk(f) && f.pc == Command && cmd in [PROGRAM, VERIFY, SECURE, VERIFY_SECURITY]
    ensures var checksum := if cmd == PROGRAM then 0 else f.checksum;
            Respond(w, f, [cmd, NL]) == Reaction(Firmware(Data(cmd), 0, checksum, [], f.chip), [])
  {
    CommandLine(w, f, cmd, NL);
  }

  /** A block to be programmed is answered with 1 exactly if programming it is not acknowledged; + asks for the next. */
  lemma ProgramBlock(w: World, f: Firmware, data: seq<Byte>)
    requires FirmwareOk(f) && f.pc == Data(PROGRAM) && f.buf == [] && Aligned(f.chip) && |data| == BLOCK_SIZE
    ensures var r, k := Respond(w, f, data), f.blockNum;
            var e := Loaded(f.chip, data, BLOCK_SIZE);
            var acknowledged := Acknowledges(w, Feed(w, e, ProgramSequence(k as Byte)));
            && r.reply == Reply(PROGRAM, if !acknowledged then ONE else if k < BLOCKS - 1 then PLUS else ZERO)
            && r.fw.checksum == (f.checksum + Sum(data)) % 0x10000
            && (acknowledged ==> r.fw.chip.mem.flash == f.chip.mem.flash[k := w.burn(f.chip.execs, data)])
            && r.fw.pc == if acknowledged && k < BLOCKS - 1 then Data(PROGRAM) else Command
  {
    hide Feed, ProgramSequence, LoadAndProgram, Acknowledges, Sum, Loaded, Accumulate, NextBlock, Respond, Reply;
    BlockComplete(w, f, PROGRAM, data);
    LoadedAndProgrammed(w, f.chip, f.blockNum, data);
    SumGoesOn(f.(buf := data), data);
    NextBlockIs(Accumulate(f.(buf := data), data), LoadAndProgram(w, f.chip, f.blockNum, data), PROGRAM);
  }

  lemma SumGoesOn(f: Firmware, data: seq<Byte>)
    ensures Accumulate(f, data) == f.(checksum := (f.checksum + Sum(data)) % 0x10000)
  {
    hide Sum;
    Remainders(f.checksum, Sum(data));
  }

  lemma NextBlockIs(f: Firmware, o: Outcome, cmd: Byte)
    requires f.blockNum < BLOCKS
    ensures var r := NextBlock(f, o, cmd);
            && r.reply == Reply(cmd, if o.failed then ONE else if f.blockNum < BLOCKS - 1 then PLUS else ZERO)
            && r.fw.pc == (if !o.failed && f.blockNum < BLOCKS - 1 then Data(cmd) else Command)
            && r.fw.chip == o.chip && r.fw.checksum == f.checksum
  {
  }

  lemma LoadedAndProgrammed(w: World, c: Chip, k: nat, data: seq<Byte>)
    requires Aligned(c) && k < BLOCKS && |data| == BLOCK_SIZE
    ensures var o := LoadAndProgram(w, c, k, data);
            && (o.failed <==> !Acknowledges(w, Feed(w, Loaded(c, data, BLOCK_SIZE), ProgramSequence(k as Byte))))
            && (!o.failed ==> o.chip.mem.flash == c.mem.flash[k := w.burn(c.execs, data)])
  {
    hide Feed, LoadBits, ProgramSequence, Acknowledges;
    LoadEffect(w, c, data, BLOCK_SIZE);
    var e := Loaded(c, data, BLOCK_SIZE);
    assert data[..64] + c.mem.ram[64..] == data;
    ByteOfInt(k);
    ProgramMeaning(w, e, k as Byte);
  }

  lemma Remainders(a: nat, b: nat)
    ensures (a + b % 0x10000) % 0x10000 == (a + b) % 0x10000
  {
  }

  /** A block to be verified is answered with 1 exactly if it is not acknowledged or not what is in the flash. */
  lemma VerifyBlock(w: World, f: Firmware, data: seq<Byte>)
    requires FirmwareOk(f) && f.pc == Data(VERIFY) && f.buf == [] && Aligned(f.chip) && |data| == BLOCK_SIZE
    ensures var r, k := Respond(w, f, data), f.blockNum;
            var acknowledged := Acknowledges(w, Feed(w, f.chip, VerifySequence(k as Byte)));
            var right := acknowledged && f.chip.mem.flash[k] == data;
            && r.reply == Reply(VERIFY, if !right then ONE else if k < BLOCKS - 1 then PLUS else ZERO)
            && r.fw.chip.mem.flash == f.chip.mem.flash && r.fw.checksum == f.checksum
            && r.fw.pc == if right && k < BLOCKS - 1 then Data(VERIFY) else Command
  {
    hide Feed, VerifySequence, VerifyOutcome, Acknowledges;
    BlockComplete(w, f, VERIFY, data);
    ByteOfInt(f.blockNum);
    VerifyMeaning(w, f.chip, f.blockNum as Byte, data);
  }

  /** The security data are answered with 1 exactly if the security vector is not acknowledged. */
  lemma SecureCommand(w: World, f: Firmware, data: seq<Byte>)
    requires FirmwareOk(f) && f.pc == Command && Aligned(f.chip) && |data| == BLOCK_SIZE
    ensures var r, e := Respond(w, f, [SECURE, NL] + data), Loaded(f.chip, data, SECURITY_BYTES);
            var bits := LoadBits(data, SECURITY_BYTES) + VectorBits(SECURITY, 308) + [false];
            var acknowledged := Acknowledges(w, Feed(w, f.chip, bits));
            && r.fw.pc == Command && r.reply == Reply(SECURE, if acknowledged then ZERO else ONE)
            && (acknowledged ==> r.fw.chip == AfterOther(w, e, VectorBits(SECURITY, 308)))
  {
    hide Feed, LoadBits, VectorBits, SecurityFlashOutcome, Acknowledges;
    DataCommand(w, f, SECURE);
    var g := Respond(w, f, [SECURE, NL]).fw;
    BlockComplete(w, g, SECURE, data);
    RespondAppend(w, f, [SECURE, NL], data);
    SecurityFlashMeaning(w, f.chip, data);
  }

  /** They are verified with 1 exactly if that is not acknowledged, or does not leave them in the buffer. */
  lemma VerifySecurityCommand(w: World, f: Firmware, data: seq<Byte>)
    requires FirmwareOk(f) && f.pc == Command && Aligned(f.chip) && |data| == BLOCK_SIZE
    ensures var r, q := Respond(w, f, [VERIFY_SECURITY, NL] + data), VectorBits(SECURITY_VERIFICATION, 308);
            var acknowledged := Acknowledges(w, Feed(w, f.chip, q + [false]));
            var right := acknowledged && w.other(q, f.chip.mem).ram[..32] == data[..32];
            r.fw.pc == Command && r.reply == Reply(VERIFY_SECURITY, if right then ZERO else ONE)
  {
    hide Feed, VectorBits, SecurityVerifyOutcome, Acknowledges;
    DataCommand(w, f, VERIFY_SECURITY);
    var g := Respond(w, f, [VERIFY_SECURITY, NL]).fw;
    BlockComplete(w, g, VERIFY_SECURITY, data);
    RespondAppend(w, f, [VERIFY_SECURITY, NL], data);
    SecurityVerifyMeaning(w, f.chip, data);
  }
}
