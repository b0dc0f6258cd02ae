/** The firmware's blocking command loop over a serial input and output. */
module CommandLoop {
  import opened Bits
  import opened IsspTarget
  import opened IsspOperations
  import opened FlashProtocol
  import opened Programming

  lemma RespondStep(w: World, f: Firmware, input: seq<Byte>, p: nat)
    requires FirmwareOk(f) && p < |input|
    ensures var r, s := Respond(w, f, input[..p]), Receive(w, Respond(w, f, input[..p]).fw, input[p]);
            Respond(w, f, input[..p + 1]) == Reaction(s.fw, r.reply + s.reply)
  {
    assert input[..p + 1][..p] == input[..p];
  }

  /** A halted controller ignores whatever still arrives. */
  lemma {:induction false} HaltedIsFinal(w: World, f: Firmware, input: seq<Byte>, p: nat)
    requires FirmwareOk(f) && p <= |input| && Respond(w, f, input[..p]).fw.pc.Halted?
    ensures Respond(w, f, input) == Respond(w, f, input[..p])
    decreases |input| - p
  {
    if p == |input| {
      assert input[..p] == input;
    } else {
      RespondStep(w, f, input, p);
      HaltedIsFinal(w, f, input, p + 1);
    }
  }

  class Controller {
    const prog: Programmer
    const input: seq<Byte>
    var pos: nat
    var output: seq<Byte>
    var blockNum: nat
    var checksum: Word
    var fRunMain: bool

    /** The byte-driven machine after the bytes dealt with so far, and where it started. */
    ghost var fw: Firmware
    ghost const start: Firmware

    /** The machine and the real state agree after the first p bytes. */
    ghost predicate At(p: nat)
      reads this, prog
    {
      && p <= |input| && FirmwareOk(start) && FirmwareOk(fw)
      && Respond(prog.world, start, input[..p]) == Reaction(fw, output)
      && fw.chip == prog.chip && fw.checksum == checksum && fRunMain == !fw.pc.Halted?
    }

    ghost predicate Valid()
      reads this, prog
    {
      At(pos) && prog.Valid() && !prog.sclk
    }

    /** The byte before pos has been read but not yet dealt with. */
    ghost predicate Behind()
      reads this, prog
    {
      0 < pos <= |input| && At(pos - 1) && prog.Valid() && !prog.sclk
    }

    constructor (p: Programmer, serial: seq<Byte>, sum: Word)
      requires p.Valid() && !p.sclk && |p.chip.shift| < FRAME
      ensures Valid() && prog == p && input == serial && fw == start && output == []
      ensures start == Firmware(Command, 0, sum, [], p.chip)
    {
      prog, input, pos, output, blockNum, checksum, fRunMain := p, serial, 0, [], 0, sum, true;
      fw := Firmware(Command, 0, sum, [], p.chip);
      start := Firmware(Command, 0, sum, [], p.chip);
    }

    /** A read that would block for ever, because nothing more arrives, is reported instead. */
    method ReadChar() returns (ok: bool, b: Byte)
      requires Valid()
      modifies this`pos
      ensures ok <==> old(pos) < |input|
      ensures if ok then Behind() && pos == old(pos) + 1 && b == input[pos - 1] else Valid() && pos == |input|
    {
      ok, b := pos < |input|, 0;
      if ok {
        b, pos := input[pos], pos + 1;
      }
    }

    /** The byte read has been dealt with: the machine takes the same step. */
    ghost method Settle(reply: seq<Byte>, before: Firmware, out: seq<Byte>)
      requires 0 < pos <= |input| && FirmwareOk(start) && FirmwareOk(before) && prog.Valid() && !prog.sclk
      requires Respond(prog.world, start, input[..pos - 1]) == Reaction(before, out)
      requires var r := Receive(prog.world, before, input[pos - 1]);
               r.reply == reply && output == out + reply && r.fw.chip == prog.chip && r.fw.checksum == checksum &&
               fRunMain == !r.fw.pc.Halted?
      modifies this`fw
      ensures Valid() && fw == Receive(prog.world, before, input[pos - 1]).fw
    {
      hide Receive, Respond;
      fw := Receive(prog.world, before, input[pos - 1]).fw;
      ReceiveOk(prog.world, before, input[pos - 1]);
      RespondStep(prog.world, start, input, pos - 1);
    }

    method Write(reply: seq<Byte>)
      modifies this`output
      ensures output == old(output) + reply
    {
      output := output + reply;
    }

    /** A whole block is read into the programmer's buffer; its last byte is not yet dealt with. */
    method ReadBlock(ghost cmd: Byte) returns (ok: bool)
      requires Valid() && fw.pc == Data(cmd) && fw.buf == []
      modifies this`pos, this`fw, prog.targetDataOUT
      ensures old(pos) <= pos
      ensures ok ==> Behind() && old(pos) < pos && fw == old(fw).(buf := fw.buf) && |fw.buf| == BLOCK_SIZE - 1 &&
                     prog.targetDataOUT[..] == fw.buf + [input[pos - 1]]
      ensures !ok ==> Valid() && pos == |input|
    {
      hide Respond, Receive;
      var n := 0;
      ok := true;
      while n < BLOCK_SIZE - 1
        invariant n < BLOCK_SIZE && Valid() && old(pos) <= pos
        invariant fw == old(fw).(buf := prog.targetDataOUT[..n])
      {
        var b;
        ok, b := ReadChar();
        if !ok { return; }
        prog.targetDataOUT[n] := b;
        SettleData(b);
        assert prog.targetDataOUT[..n + 1] == prog.targetDataOUT[..n] + [b];
        n := n + 1;
      }
      var b;
      ok, b := ReadChar();
      if !ok { return; }
      prog.targetDataOUT[n] := b;
      assert prog.targetDataOUT[..] == prog.targetDataOUT[..n] + [b];
    }

    /** Any but the last byte of a block is only collected. */
    ghost method SettleData(b: Byte)
      requires Behind() && fw.pc.Data? && |fw.buf| < BLOCK_SIZE - 1 && b == input[pos - 1]
      modifies this`fw
      ensures Valid() && fw == old(fw).(buf := old(fw).buf + [b])
    {
      hide Respond, Block, Dispatch;
      assert output + [] == output;
      Settle([], fw, output);
    }

    /** The target operations of a command that needs no more bytes, and the reply to it. */
    method Perform(cmd: Byte, ghost f: Firmware) returns (reply: seq<Byte>)
      requires prog.Valid() && !prog.sclk && |f.chip.shift| < FRAME && f.chip == prog.chip && f.checksum == checksum
      requires cmd !in [PROGRAM, VERIFY, SECURE, VERIFY_SECURITY]
      modifies prog`chip, prog`sclk, prog`pushPull, prog`level
      ensures !prog.sclk
      ensures var r := Dispatch(prog.world, f, cmd);
              reply == r.reply && prog.chip == r.fw.chip && r.fw.checksum == checksum &&
              if cmd == QUIT then r.fw.pc.Halted? else r.fw.pc.Command?
    {
      hide Handshake, Reset, InitializeOutcome, SiliconIdOutcome, EraseOutcome, ChecksumOutcome;
      match cmd {
        case 0x61 =>
          OtherOperationsAlign(prog.world, f.chip, Zeroes());
          var failed := prog.TargetInitialize();
          if failed {
            reply := Reply(INIT, ONE);
          } else {
            failed := prog.TargetSiliconIDVerify();
            reply := Reply(INIT, if failed then TWO else ZERO);
          }
        case 0x62 =>
          var failed := prog.TargetErase();
          reply := Reply(ERASE, if failed then ONE else ZERO);
        case 0x67 =>
          var failed, sum := prog.TargetBankChecksumGet(0);
          reply := Reply(CHECK, if failed then ONE else if sum != checksum then TWO else ZERO);
        case 0x78 =>
          prog.TargetReStart();
          reply := Reply(RESTART, ZERO);
        case _ =>
          reply := [];
      }
    }

    method RunCommand(cmd: Byte)
      requires Behind() && fw.pc == Terminator(cmd) && IsCommand(cmd) && input[pos - 1] == NL
      requires cmd !in [PROGRAM, VERIFY, SECURE, VERIFY_SECURITY]
      modifies this`output, this`fRunMain, this`fw, prog`chip, prog`sclk, prog`pushPull, prog`level
      ensures Valid() && (fw.pc.Command? || fw.pc.Halted?)
    {
      hide Respond, Receive, Dispatch;
      ghost var before, out := fw, output;
      var reply := Perform(cmd, fw);
      if cmd == QUIT { fRunMain := false; }
      Write(reply);
      SettleCommand(cmd, before, out);
    }

    ghost method SettleCommand(cmd: Byte, before: Firmware, out: seq<Byte>)
      requires 0 < pos <= |input| && FirmwareOk(start) && FirmwareOk(before) && prog.Valid() && !prog.sclk
      requires Respond(prog.world, start, input[..pos - 1]) == Reaction(before, out)
      requires before.pc == Terminator(cmd) && IsCommand(cmd) && input[pos - 1] == NL
      requires var r := Dispatch(prog.world, before, cmd);
               output == out + r.reply && r.fw.chip == prog.chip && r.fw.checksum == checksum &&
               fRunMain == !r.fw.pc.Halted?
      modifies this`fw
      ensures Valid() && fw == Dispatch(prog.world, before, cmd).fw
    {
      hide Respond, Dispatch, Block;
      Settle(Dispatch(prog.world, before, cmd).reply, before, out);
    }

    ghost method SettleBlock(cmd: Byte, data: seq<Byte>, before: Firmware, out: seq<Byte>)
      requires 0 < pos <= |input| && FirmwareOk(start) && FirmwareOk(before) && prog.Valid() && !prog.sclk
      requires Respond(prog.world, start, input[..pos - 1]) == Reaction(before, out)
      requires before.pc == Data(cmd) && data == before.buf + [input[pos - 1]] && |data| == BLOCK_SIZE
      requires var r := Block(prog.world, before.(buf := data), cmd, data);
               output == out + r.reply && r.fw.chip == prog.chip && r.fw.checksum == checksum &&
               fRunMain == !r.fw.pc.Halted?
      modifies this`fw
      ensures Valid() && fw == Block(prog.world, before.(buf := data), cmd, data).fw
    {
      hide Respond, Dispatch, Block;
      Settle(Block(prog.world, before.(buf := data), cmd, data).reply, before, out);
    }

    /** Take up a command that is followed by blocks. */
    method OpenBlocks(cmd: Byte)
      requires Behind() && fw.pc == Terminator(cmd) && input[pos - 1] == NL
      requires cmd in [PROGRAM, VERIFY, SECURE, VERIFY_SECURITY]
      modifies this`checksum, this`blockNum, this`fw
      ensures Valid() && fw == old(fw).(pc := Data(cmd), blockNum := 0, checksum := checksum, buf := []) &&
              blockNum == 0
      ensures checksum == if cmd == PROGRAM then 0 else old(checksum)
    {
      hide Respond;
      if cmd == PROGRAM { checksum := 0; }
      blockNum := 0;
      assert output + [] == output;
      Settle([], fw, output);
    }

    /** The target operations of one block; the running sum is taken as blocks are loaded. */
    method PerformBlock(cmd: Byte, ghost data: seq<Byte>, ghost f: Firmware) returns (failed: bool)
      requires prog.Valid() && !prog.sclk && |f.chip.shift| < FRAME && f.chip == prog.chip && f.checksum == checksum
      requires cmd in [PROGRAM, VERIFY, SECURE, VERIFY_SECURITY] && blockNum == f.blockNum < BLOCKS
      requires |data| == BLOCK_SIZE && prog.targetDataOUT[..] == data
      modifies this`checksum, prog`chip, prog`sclk, prog`pushPull, prog`level
      ensures !prog.sclk
      ensures var r := Block(prog.world, f, cmd, data);
              prog.chip == r.fw.chip && r.fw.checksum == checksum &&
              if failed then r.reply == Reply(cmd, ONE) && r.fw.pc == Command && r.fw.blockNum == blockNum
              else if cmd in [PROGRAM, VERIFY] && blockNum < BLOCKS - 1 then
                r.reply == Reply(cmd, PLUS) && r.fw.pc == Data(cmd) && r.fw.buf == [] && r.fw.blockNum == blockNum + 1
              else r.reply == Reply(cmd, ZERO) && r.fw.pc == Command
    {
      hide VerifyOutcome, ProgramOutcome, Feed, LoadBits, Sum, SecurityFlashOutcome, SecurityVerifyOutcome;
      if cmd == PROGRAM {
        var sum := prog.TargetLoad();
        checksum := (checksum + sum) % 0x10000;
        failed := prog.TargetBlockProgram(blockNum as Byte);
      } else if cmd == VERIFY {
        failed := prog.TargetBlockVerify(blockNum as Byte);
      } else if cmd == SECURE {
        failed := prog.TargetSecurityFlash();
      } else {
        failed := prog.TargetSecurityVerify();
      }
    }

    /** One block has been read: it is programmed or verified, and the result is written. */
    method RunBlock(cmd: Byte) returns (failed: bool)
      requires Behind() && fw.pc == Data(cmd) && blockNum == fw.blockNum < BLOCKS
      requires cmd in [PROGRAM, VERIFY, SECURE, VERIFY_SECURITY]
      requires |fw.buf| == BLOCK_SIZE - 1 && prog.targetDataOUT[..] == fw.buf + [input[pos - 1]]
      modifies this`checksum, this`output, this`fw, prog`chip, prog`sclk, prog`pushPull, prog`level
      ensures Valid()
      ensures if failed || cmd !in [PROGRAM, VERIFY] || blockNum == BLOCKS - 1 then fw.pc == Command
              else fw.pc == Data(cmd) && fw.buf == [] && fw.blockNum == blockNum + 1
    {
      hide Respond, Receive, Block;
      ghost var before, out, data := fw, output, fw.buf + [input[pos - 1]];
      failed := PerformBlock(cmd, data, fw.(buf := data));
      var blocks := cmd in [PROGRAM, VERIFY] && blockNum < BLOCKS - 1;
      Write(Reply(cmd, if failed then ONE else if blocks then PLUS else ZERO));
      SettleBlock(cmd, data, before, out);
    }

    /** The block loop of the program and verify commands: up to 128 blocks, ended by the first failure. */
    method RunBlocks(cmd: Byte) returns (ok: bool)
      requires Valid() && fw.pc == Data(cmd) && cmd in [PROGRAM, VERIFY] && fw.buf == [] && blockNum == fw.blockNum == 0
      modifies this, prog`chip, prog`sclk, prog`pushPull, prog`level, prog.targetDataOUT
      ensures Valid() && old(pos) <= pos && (if ok then fw.pc.Command? else pos == |input|)
    {
      hide Respond, Receive;
      ok := true;
      while blockNum < BLOCKS
        invariant ok && Valid() && old(pos) <= pos && blockNum <= BLOCKS
        invariant blockNum == BLOCKS ==> fw.pc.Command?
        invariant blockNum < BLOCKS ==> fw.pc == Data(cmd) && fw.buf == [] && fw.blockNum == blockNum
        decreases BLOCKS - blockNum
      {
        ok := ReadBlock(cmd);
        if !ok { return; }
        var failed := RunBlock(cmd);
        if failed { return; }
        blockNum := blockNum + 1;
      }
    }

    /** The security commands take one block and use its first 32 bytes. */
    method RunSecurity(cmd: Byte) returns (ok: bool)
      requires Valid() && fw.pc == Data(cmd) && cmd in [SECURE, VERIFY_SECURITY] && fw.buf == [] &&
               blockNum == fw.blockNum == 0
      modifies this, prog`chip, prog`sclk, prog`pushPull, prog`level, prog.targetDataOUT
      ensures Valid() && old(pos) <= pos && (if ok then fw.pc.Command? else pos == |input|)
    {
      hide Respond, Receive;
      ok := ReadBlock(cmd);
      if !ok { return; }
      var _ := RunBlock(cmd);
    }

    /** The loop of the firmware: it answers every input exactly as the byte-driven machine does. */
    method Run()
      requires Valid() && fw == start && fw.pc.Command? && pos == 0 && output == []
      modifies this, prog`chip, prog`sclk, prog`pushPull, prog`level, prog.targetDataOUT
      ensures var r := Respond(prog.world, start, input);
              r.reply == output && r.fw.chip == prog.chip && r.fw.pc.Halted? == !fRunMain
    {
      hide Respond, Receive;
      while fRunMain
        invariant Valid() && (fw.pc.Command? || fw.pc.Halted?)
        decreases |input| - pos, fRunMain
      {
        var ok, cmdID := ReadChar();
        if !ok { assert input[..pos] == input; return; }
        SettleFirst(cmdID);
        var cmdTrm;
        ok, cmdTrm := ReadChar();
        if !ok { assert input[..pos] == input; return; }
        if IsCommand(cmdID) && cmdTrm == NL {
          if cmdID in [PROGRAM, VERIFY, SECURE, VERIFY_SECURITY] {
            OpenBlocks(cmdID);
            if cmdID in [PROGRAM, VERIFY] {
              ok := RunBlocks(cmdID);
            } else {
              ok := RunSecurity(cmdID);
            }
            if !ok { assert input[..pos] == input; return; }
          } else {
            RunCommand(cmdID);
          }
        } else {
          SettleNone();
        }
      }
      HaltedIsFinal(prog.world, start, input, pos);
    }

    ghost method SettleFirst(b: Byte)
      requires Behind() && fw.pc.Command? && b == input[pos - 1]
      modifies this`fw
      ensures Valid() && fw == old(fw).(pc := Terminator(b))
    {
      hide Respond, Block, Dispatch;
      assert output + [] == output;
      Settle([], fw, output);
    }

    ghost method SettleNone()
      requires Behind() && fw.pc.Terminator? && !(IsCommand(fw.pc.cmd) && input[pos - 1] == NL)
      modifies this`fw
      ensures Valid() && fw == old(fw).(pc := Command)
    {
      hide Respond, Block, Dispatch;
      assert output + [] == output;
      Settle([], fw, output);
    }
  }
}
