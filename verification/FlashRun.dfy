/**
 * Host, lossless link, serial input queue, firmware and target together: every
 * interleaving of one flashing run.
 */
module FlashRun {
  import opened Bits
  import opened IsspTarget
  import opened IsspOperations
  import opened FlashProtocol
  import opened HostProtocol
  import Streams

  /** Size of the firmware's serial input queue. */
  const RING: nat := 128

  /**
   * blockCntr, out and inbox belong to the host's window: its block counter, what it
   * has yet to hand to the serial thread, and the messages queued for it. rx and tx
   * belong to the serial thread: bytes not yet framed, and bytes on their way to the
   * firmware. ring is the firmware's input queue, down are bytes on their way back.
   * log is the history of the messages the window has taken up, dropped counts the
   * bytes the input queue rejected.
   */
  datatype System = System(blockCntr: nat, out: seq<Byte>, inbox: seq<Message>, rx: seq<Byte>, tx: seq<Byte>,
    ring: seq<Byte>, fw: Firmware, down: seq<Byte>, log: seq<Message>, dropped: nat)

  /**
   * The window hands on some of what it writes, a byte is sent, the firmware takes
   * one, some bytes arrive at the host, or the window takes up a message.
   */
  datatype Step = Write(n: nat) | Transmit | Consume | Arrive(n: nat) | Handle

  predicate Enabled(s: System, step: Step) {
    match step
    case Write(n) => 0 < n <= |s.out|
    case Transmit => s.tx != []
    case Consume => s.ring != []
    case Arrive(n) => 0 < n <= |s.down|
    case Handle => s.inbox != [] && s.out == []
  }

  ghost function Apply(w: World, m: Image, s: System, step: Step): System
    requires ImageOk(m) && Enabled(s, step) && FirmwareOk(s.fw)
  {
    match step
    case Write(n) => s.(out := s.out[n..], tx := s.tx + s.out[..n])
    case Transmit =>
      if |s.ring| < RING then s.(tx := s.tx[1..], ring := s.ring + [s.tx[0]])
      else s.(tx := s.tx[1..], dropped := s.dropped + 1)
    case Consume =>
      var r := Receive(w, s.fw, s.ring[0]);
      s.(ring := s.ring[1..], fw := r.fw, down := s.down + r.reply)
    case Arrive(n) =>
      var all := s.rx + s.down[..n];
      s.(rx := all[4 * (|all| / 4)..], down := s.down[n..], inbox := s.inbox + Emissions(all))
    case Handle =>
      var next := React(m, s.blockCntr, s.inbox[0]);
      s.(blockCntr := next.blockCntr, out := next.request, inbox := s.inbox[1..], log := s.log + [s.inbox[0]])
  }

  // ------------------------------------------------- the 262 exchanges of a run

  const LAST: nat := 261

  function Cmd(e: nat): Byte {
    if e == 0 then INIT else if e == 1 then ERASE else if e < 130 then PROGRAM else if e < 258 then VERIFY
    else if e == 258 then SECURE else if e == 259 then VERIFY_SECURITY else if e == 260 then CHECK else RESTART
  }

  /** Exchanges whose request starts with a command line; the others are a bare block. */
  predicate HasCommand(e: nat) {
    e <= 2 || e == 130 || e >= 258
  }

  function BlockOf(e: nat): nat
    requires e <= LAST
  {
    if 2 <= e < 130 then e - 2 else if 130 <= e < 258 then e - 130 else 0
  }

  function Payload(m: Image, e: nat): (p: seq<Byte>)
    requires ImageOk(m) && e <= LAST
    ensures |p| == if 2 <= e < 260 then BLOCK_SIZE else 0
  {
    if 2 <= e < 258 then m.program[BlockOf(e)] else if e == 258 || e == 259 then m.security else []
  }

  function Request(m: Image, e: nat): (r: seq<Byte>)
    requires ImageOk(m) && e <= LAST
    ensures 2 <= |r| <= 66
  {
    (if HasCommand(e) then [Cmd(e), NL] else []) + Payload(m, e)
  }

  /** The reply that makes the host go on. */
  function Success(e: nat): seq<Byte> {
    Reply(Cmd(e), if 2 <= e < 129 || 130 <= e < 257 then PLUS else ZERO)
  }

  /** The replies that make the host stop. */
  predicate Failure(e: nat, reply: seq<Byte>) {
    reply == Reply(Cmd(e), ONE) || reply == Reply(Cmd(e), TWO)
  }

  /** The host's block counter while exchange e is under way. */
  predicate CounterAt(e: nat, blockCntr: nat)
    requires e <= LAST
  {
    2 <= e < 258 ==> blockCntr == BlockOf(e) + 1
  }

  /** A success reply makes the host send exactly the next request, any other reply nothing. */
  lemma HostAdvances(m: Image, e: nat, blockCntr: nat)
    requires ImageOk(m) && e < LAST && CounterAt(e, blockCntr)
    ensures var n := React(m, blockCntr, Success(e));
            n.request == Request(m, e + 1) && CounterAt(e + 1, n.blockCntr)
  {
    assert [NL, NL][0] == NL;
    if e < 129 || 130 <= e < 257 {
      assert [] + Payload(m, e + 1) == Payload(m, e + 1);
    }
    assert [Cmd(e + 1), NL] + [] == [Cmd(e + 1), NL];
  }

  lemma HostStops(m: Image, e: nat, blockCntr: nat, arg: Byte)
    requires ImageOk(m) && e <= LAST && (arg == ONE || arg == TWO || (e == LAST && arg == ZERO))
    ensures React(m, blockCntr, Reply(Cmd(e), arg)) == Next([], blockCntr)
  {
  }

  // --------------------------------------------------- the firmware's position

  /** Where the command loop is after i bytes of request e. */
  predicate FirmwareAt(m: Image, e: nat, i: nat, f: Firmware)
    requires ImageOk(m) && e <= LAST && i < |Request(m, e)|
  {
    if HasCommand(e) && i == 0 then f.pc == Command
    else if HasCommand(e) && i == 1 then f.pc == Terminator(Cmd(e))
    else f.pc == Data(Cmd(e)) && f.blockNum == BlockOf(e) && (e == 2 ==> f.checksum == 0) &&
         f.buf == Payload(m, e)[..if HasCommand(e) then i - 2 else i]
  }

  /** The flash keeps what is programmed into it. */
  ghost predicate Faithful(w: World) {
    forall n: nat, b: BlockData :: w.burn(n, b) == b
  }

  /** The first n blocks of flash are those of the image. */
  ghost predicate HasBlocks(m: Image, n: nat, f: Firmware)
    requires ImageOk(m) && n <= BLOCKS
  {
    forall k | 0 <= k < n :: f.chip.mem.flash[k] == m.program[k]
  }

  /** The running checksum covers the first n blocks; they are in flash unless it is faulty. */
  ghost predicate Flashed(w: World, m: Image, n: nat, f: Firmware)
    requires ImageOk(m) && n <= BLOCKS
  {
    f.checksum == SumAll(m.program[..n]) % 0x10000 && (Faithful(w) ==> HasBlocks(m, n, f))
  }

  /** The 16-bit sum of the flash is that of the image. */
  ghost predicate SumRight(m: Image, flash: seq<BlockData>) {
    SumAll(flash) % 0x10000 == SumAll(m.program) % 0x10000
  }

  /** The chip has just come out of a reset that it went into with this memory, whose flash had the sum of the image. */
  ghost predicate ResetFrom(w: World, m: Image, before: Memory, c: Chip) {
    c == Chip(w.reset(before), [], [], c.execs) && SumRight(m, before.flash)
  }

  /** The target has been put through the reset that ends a run, after its sum had been found right. */
  ghost predicate OutOfReset(w: World, m: Image, f: Firmware) {
    exists before: Memory :: ResetFrom(w, m, before, f.chip)
  }

  /** Where the target is while exchange e is under way. */
  ghost predicate TargetAt(w: World, m: Image, e: nat, f: Firmware)
    requires ImageOk(m) && e <= LAST
  {
    (e >= 1 ==> Aligned(f.chip)) &&
    (2 < e < 130 ==> Flashed(w, m, e - 2, f)) &&
    (130 <= e ==> f.checksum == SumAll(m.program) % 0x10000) &&
    (130 <= e <= 258 ==> HasBlocks(m, e - 130, f) && (Faithful(w) ==> HasBlocks(m, BLOCKS, f))) &&
    (e == LAST ==> SumRight(m, f.chip.mem.flash))
  }

  /** All but the last byte of a request are taken in silently. */
  lemma ConsumeInner(w: World, m: Image, e: nat, i: nat, f: Firmware)
    requires ImageOk(m) && e <= LAST && i + 1 < |Request(m, e)| && FirmwareOk(f)
    requires FirmwareAt(m, e, i, f) && TargetAt(w, m, e, f)
    ensures var r := Receive(w, f, Request(m, e)[i]);
            r.reply == [] && FirmwareAt(m, e, i + 1, r.fw) && TargetAt(w, m, e, r.fw)
  {
    hide InitializeOutcome, SiliconIdOutcome, EraseOutcome, ChecksumOutcome, Block, Reset;
    var q := Request(m, e);
    if HasCommand(e) && i <= 1 {
      assert q[0] == Cmd(e) && q[1] == NL;
      assert Payload(m, e)[..0] == [];
    } else {
      var j := if HasCommand(e) then i - 2 else i;
      assert q[i] == Payload(m, e)[j];
      assert Payload(m, e)[..j + 1] == Payload(m, e)[..j] + [q[i]];
    }
  }

  // ------------------------------------------- the end of each kind of exchange

  lemma SumOneMore(m: Image, k: nat)
    requires ImageOk(m) && k < BLOCKS
    ensures SumAll(m.program[..k + 1]) == SumAll(m.program[..k]) + Sum(m.program[k])
  {
    assert m.program[..k + 1][..k] == m.program[..k];
  }

  /** Loading and programming block k extends the flashed prefix, whenever the target acknowledges. */
  lemma ProgramExchange(w: World, m: Image, k: nat, f: Firmware)
    requires ImageOk(m) && k < BLOCKS && f.blockNum == k && Aligned(f.chip) && Flashed(w, m, k, f)
    ensures var o, r := LoadAndProgram(w, f.chip, k, m.program[k]), Block(w, f, PROGRAM, m.program[k]);
            r == NextBlock(Accumulate(f, m.program[k]), o, PROGRAM) &&
            (!o.failed ==> Aligned(r.fw.chip) && Flashed(w, m, k + 1, r.fw))
  {
    hide Feed, ProgramOutcome, LoadBits, Sum, SumAll, Flashed;
    var data := m.program[k];
    LoadEffect(w, f.chip, data, BLOCK_SIZE);
    var c := Loaded(f.chip, data, BLOCK_SIZE);
    assert data[..64] + f.chip.mem.ram[64..] == data;
    ByteOfInt(k);
    ProgramMeaning(w, c, k as Byte);
    var o := LoadAndProgram(w, f.chip, k, data);
    if !o.failed { FlashedGrows(w, m, k, c.execs, f, NextBlock(Accumulate(f, data), o, PROGRAM).fw); }
  }

  lemma FlashedGrows(w: World, m: Image, k: nat, execs: nat, f: Firmware, g: Firmware)
    requires ImageOk(m) && k < BLOCKS && Flashed(w, m, k, f)
    requires g.checksum == (f.checksum + Sum(m.program[k]) % 0x10000) % 0x10000
    requires g.chip.mem.flash == f.chip.mem.flash[k := w.burn(execs, m.program[k])]
    ensures Flashed(w, m, k + 1, g)
  {
    hide Sum, SumAll;
    SumOneMore(m, k);
    ModAdd(SumAll(m.program[..k]), Sum(m.program[k]));
  }

  lemma ModAdd(a: nat, b: nat)
    ensures (a % 0x10000 + b % 0x10000) % 0x10000 == (a + b) % 0x10000
  {
  }

  /** Verifying block k changes neither flash nor checksum, and succeeds only if the block is right. */
  lemma VerifyExchange(w: World, m: Image, k: nat, f: Firmware)
    requires ImageOk(m) && k < BLOCKS && f.blockNum == k && Aligned(f.chip)
    ensures var o, r := VerifyOutcome(w, f.chip, k as Byte, m.program[k]), Block(w, f, VERIFY, m.program[k]);
            r == NextBlock(f, o, VERIFY) && Aligned(r.fw.chip) && r.fw.chip.mem.flash == f.chip.mem.flash &&
            (!o.failed ==> f.chip.mem.flash[k] == m.program[k])
  {
    hide VerifyOutcome;
    ByteOfInt(k);
    VerifyMeaning(w, f.chip, k as Byte, m.program[k]);
  }

  /** The checksum exchange succeeds only if the target's sum is the running one. */
  lemma CheckExchange(w: World, f: Firmware)
    requires Aligned(f.chip)
    ensures var r := Dispatch(w, f, CHECK);
            Aligned(r.fw.chip) && r.fw.chip.mem.flash == f.chip.mem.flash && r.fw.pc == Command &&
            (r.reply == Reply(CHECK, ZERO) || Failure(260, r.reply)) &&
            (r.reply == Reply(CHECK, ZERO) ==> f.checksum == SumAll(f.chip.mem.flash) % 0x10000)
  {
    hide ChecksumOutcome;
    ChecksumMeaning(w, f.chip);
  }

  /** How an exchange may end. */
  ghost predicate Ends(w: World, m: Image, e: nat, before: Firmware, r: Reaction)
    requires ImageOk(m) && e <= LAST
  {
    if r.reply == Success(e) then
      if e < LAST then FirmwareAt(m, e + 1, 0, r.fw) && TargetAt(w, m, e + 1, r.fw) else OutOfReset(w, m, r.fw)
    else Failure(e, r.reply) && r.fw.pc == Command
  }

  lemma ConsumeLastBlock(w: World, m: Image, e: nat, f: Firmware)
    requires ImageOk(m) && 2 <= e < 258 && FirmwareOk(f) && TargetAt(w, m, e, f)
    requires FirmwareAt(m, e, |Request(m, e)| - 1, f)
    ensures var q := Request(m, e); Ends(w, m, e, f, Receive(w, f, q[|q| - 1]))
  {
    hide Block, LoadAndProgram, VerifyOutcome, SumAll, Faithful;
    var q, data := Request(m, e), Payload(m, e);
    var k := BlockOf(e);
    assert q[|q| - 1] == data[63];
    assert f.buf + [data[63]] == data;
    var f' := f.(buf := data);
    if e < 130 {
      SumNothing(m);
      ProgramExchange(w, m, k, f');
      assert m.program[..128] == m.program;
    } else {
      VerifyExchange(w, m, k, f');
    }
  }

  lemma SumNothing(m: Image)
    ensures m.program[..0] == [] && SumAll(m.program[..0]) == 0
  {
  }

  lemma ConsumeLastCommand(w: World, m: Image, e: nat, f: Firmware)
    requires ImageOk(m) && e <= LAST && !(2 <= e < 258) && FirmwareOk(f) && TargetAt(w, m, e, f)
    requires FirmwareAt(m, e, |Request(m, e)| - 1, f)
    ensures var q := Request(m, e); Ends(w, m, e, f, Receive(w, f, q[|q| - 1]))
  {
    hide InitializeOutcome, SiliconIdOutcome, EraseOutcome, ChecksumOutcome, SecurityFlashOutcome,
         SecurityVerifyOutcome, SumAll, HasBlocks;
    var q, data := Request(m, e), Payload(m, e);
    OtherOperationsAlign(w, f.chip, Zeroes());
    if e == 258 || e == 259 {
      assert q[|q| - 1] == data[63];
      assert f.buf + [data[63]] == data;
      OtherOperationsAlign(w, f.chip, data);
    } else if e == 0 {
      OtherOperationsAlign(w, InitializeOutcome(w, f.chip).chip, Zeroes());
    } else if e == 260 {
      CheckExchange(w, f);
    } else if e == LAST {
      assert ResetFrom(w, m, f.chip.mem, Reset(w, f.chip));
    }
  }

  // --------------------------------------------------------------- the invariant

  /** A request of which i bytes have been read, a reply under way or waiting for the window, or the end of the run. */
  datatype Stage =
    | Asking(e: nat, i: nat) | Answering(e: nat, reply: seq<Byte>)
    | Waiting(e: nat, reply: seq<Byte>) | Finished(ok: bool)

  /** The host has handled the success replies of exchanges 0 to n - 1. */
  predicate Logged(log: seq<seq<Byte>>, n: nat) {
    n <= |log| && forall j | 0 <= j < n :: log[j] == Success(j)
  }

  /** Exchange e has been answered, and the answer not been taken up yet. */
  ghost predicate Answered(w: World, m: Image, s: System, e: nat, reply: seq<Byte>)
    requires ImageOk(m)
  {
    && e <= LAST && s.ring == s.tx == s.out == []
    && CounterAt(e, s.blockCntr) && Logged(s.log, e) && |s.log| == e
    && (reply == Success(e) || Failure(e, reply))
    && (reply == Success(e) && e < LAST ==> FirmwareAt(m, e + 1, 0, s.fw) && TargetAt(w, m, e + 1, s.fw))
    && (reply == Success(e) && e == LAST ==> OutOfReset(w, m, s.fw))
    && (reply == Reply(CHECK, ZERO) ==> SumRight(m, s.fw.chip.mem.flash))
  }

  ghost predicate At(w: World, m: Image, s: System, g: Stage)
    requires ImageOk(m)
  {
    FirmwareOk(s.fw) && s.dropped == 0 &&
    match g
    case Asking(e, i) =>
      && e <= LAST && i < |Request(m, e)| && s.ring + s.tx + s.out == Request(m, e)[i..]
      && s.rx == s.down == [] && s.inbox == []
      && CounterAt(e, s.blockCntr) && FirmwareAt(m, e, i, s.fw) && TargetAt(w, m, e, s.fw)
      && Logged(s.log, e) && |s.log| == e
    case Answering(e, reply) =>
      Answered(w, m, s, e, reply) && s.inbox == [] && s.rx + s.down == reply && |s.rx| < 4
    case Waiting(e, reply) =>
      Answered(w, m, s, e, reply) && s.inbox == [reply] && s.rx == s.down == []
    case Finished(ok) =>
      && s.ring == s.tx == s.out == s.rx == s.down == [] && s.inbox == []
      && 1 <= |s.log| <= LAST + 1 && Logged(s.log, |s.log| - 1)
      && (if ok then |s.log| == LAST + 1 && Logged(s.log, LAST + 1) && OutOfReset(w, m, s.fw)
          else Failure(|s.log| - 1, s.log[|s.log| - 1]))
  }

  /** A bound on the steps that are left. */
  function Measure(s: System, g: Stage): int {
    match g
    case Asking(e, i) => 250 * (LAST + 1 - e) + 3 * |s.out| + 2 * |s.tx| + |s.ring| + 6
    case Answering(e, reply) => 250 * (LAST + 1 - e) + |s.down| + 1
    case Waiting(e, reply) => 250 * (LAST + 1 - e)
    case Finished(ok) => 0
  }

  lemma WriteKeeps(w: World, m: Image, s: System, e: nat, i: nat, n: nat)
    requires ImageOk(m) && At(w, m, s, Asking(e, i)) && 0 < n <= |s.out|
    ensures var s' := Apply(w, m, s, Write(n));
            At(w, m, s', Asking(e, i)) && Measure(s', Asking(e, i)) < Measure(s, Asking(e, i))
  {
    hide FirmwareAt, TargetAt, Request;
    assert s.out == s.out[..n] + s.out[n..];
    assert s.ring + (s.tx + s.out[..n]) + s.out[n..] == s.ring + s.tx + s.out;
  }

  lemma TransmitKeeps(w: World, m: Image, s: System, e: nat, i: nat)
    requires ImageOk(m) && At(w, m, s, Asking(e, i)) && s.tx != []
    ensures var s' := Apply(w, m, s, Transmit);
            At(w, m, s', Asking(e, i)) && Measure(s', Asking(e, i)) < Measure(s, Asking(e, i))
  {
    hide FirmwareAt, TargetAt, Request;
    assert s.ring + [s.tx[0]] + s.tx[1..] == s.ring + s.tx;
  }

  lemma ConsumeKeeps(w: World, m: Image, s: System, e: nat, i: nat) returns (g: Stage)
    requires ImageOk(m) && At(w, m, s, Asking(e, i)) && s.ring != []
    ensures var s' := Apply(w, m, s, Consume);
            At(w, m, s', g) && Measure(s', g) < Measure(s, Asking(e, i))
  {
    hide FirmwareAt, TargetAt, Receive, Request, Success;
    var q := Request(m, e);
    var s' := Apply(w, m, s, Consume);
    ReceiveOk(w, s.fw, s.ring[0]);
    assert s.ring[0] == (s.ring + s.tx + s.out)[0] == q[i];
    assert s'.ring + s'.tx + s'.out == (s.ring + s.tx + s.out)[1..] == q[i + 1..];
    if i + 1 < |q| {
      ConsumeInner(w, m, e, i, s.fw);
      assert s'.down == [];
      g := Asking(e, i + 1);
    } else {
      ConsumeLast(w, m, e, s.fw);
      assert |s'.ring + s'.tx + s'.out| == 0;
      assert s.down + Receive(w, s.fw, q[i]).reply == s'.down == s'.rx + s'.down;
      g := Answering(e, s'.down);
    }
  }

  lemma ConsumeLast(w: World, m: Image, e: nat, f: Firmware)
    requires ImageOk(m) && e <= LAST && FirmwareOk(f) && TargetAt(w, m, e, f)
    requires FirmwareAt(m, e, |Request(m, e)| - 1, f)
    ensures var q := Request(m, e); var r := Receive(w, f, q[|q| - 1]);
            Ends(w, m, e, f, r) && |r.reply| == 4 &&
            (r.reply == Reply(CHECK, ZERO) ==> SumRight(m, r.fw.chip.mem.flash))
  {
    if 2 <= e < 258 {
      hide Receive, FirmwareAt, TargetAt;
      ConsumeLastBlock(w, m, e, f);
    } else {
      hide InitializeOutcome, SiliconIdOutcome, EraseOutcome, ChecksumOutcome, SecurityFlashOutcome,
           SecurityVerifyOutcome, SumAll, HasBlocks, Block;
      ConsumeLastCommand(w, m, e, f);
      if e == 260 { CheckExchange(w, f); }
    }
  }

  lemma ArriveKeeps(w: World, m: Image, s: System, e: nat, reply: seq<Byte>, n: nat) returns (g: Stage)
    requires ImageOk(m) && At(w, m, s, Answering(e, reply)) && 0 < n <= |s.down|
    ensures var s' := Apply(w, m, s, Arrive(n));
            At(w, m, s', g) && Measure(s', g) < Measure(s, Answering(e, reply)) &&
            g == if n < |s.down| then Answering(e, reply) else Waiting(e, reply)
  {
    hide FirmwareAt, TargetAt, Request, CounterAt, SumAll, Logged, Emissions;
    var all := s.rx + s.down[..n];
    assert all + s.down[n..] == reply;
    if n < |s.down| {
      NoMessage(all);
      assert all[0..] == all;
      g := Answering(e, reply);
    } else {
      assert all == reply;
      OneMessage(all);
      g := Waiting(e, reply);
    }
  }

  lemma NoMessage(all: seq<Byte>)
    requires |all| < 4
    ensures Emissions(all) == []
  {
  }

  /** A receive buffer of four bytes emits exactly one message, of exactly those four bytes. */
  lemma OneMessage(all: seq<Byte>)
    requires |all| == 4
    ensures Emissions(all) == [all]
  {
    assert all[..4] == all;
  }

  lemma HandleKeeps(w: World, m: Image, s: System, e: nat, reply: seq<Byte>) returns (g: Stage)
    requires ImageOk(m) && At(w, m, s, Waiting(e, reply))
    ensures var s' := Apply(w, m, s, Handle);
            At(w, m, s', g) && Measure(s', g) < Measure(s, Waiting(e, reply)) && s'.log == s.log + [reply]
  {
    hide FirmwareAt, TargetAt, Request, CounterAt, SumAll, React, Failure;
    var s' := Apply(w, m, s, Handle);
    FailureArgument(e, reply);
    if reply == Success(e) && e < LAST {
      HostAdvances(m, e, s.blockCntr);
      assert [] + [] + Request(m, e + 1) == Request(m, e + 1)[0..];
      g := Asking(e + 1, 0);
    } else {
      HostStops(m, e, s.blockCntr, reply[2]);
      g := Finished(reply == Success(e));
    }
  }

  lemma FailureArgument(e: nat, reply: seq<Byte>)
    requires Failure(e, reply) || reply == Success(e)
    ensures |reply| == 4 && (reply != Success(e) ==> reply == Reply(Cmd(e), reply[2]) && reply[2] in [ONE, TWO])
    ensures reply == Success(LAST) && e == LAST ==> reply == Reply(Cmd(e), ZERO)
  {
  }

  /** Every step, whatever it is, keeps the run where it should be, and uses up some of the steps left. */
  lemma StepKeeps(w: World, m: Image, s: System, g: Stage, step: Step) returns (g': Stage)
    requires ImageOk(m) && At(w, m, s, g) && Enabled(s, step)
    ensures var s' := Apply(w, m, s, step); At(w, m, s', g') && Measure(s', g') < Measure(s, g)
  {
    hide Apply, Measure, FirmwareAt, TargetAt, Request, CounterAt, SumAll;
    match g
    case Asking(e, i) =>
      match step {
        case Write(n) =>
          WriteKeeps(w, m, s, e, i, n);
          g' := g;
        case Transmit =>
          TransmitKeeps(w, m, s, e, i);
          g' := g;
        case Consume =>
          g' := ConsumeKeeps(w, m, s, e, i);
        case _ =>
          assert false;
      }
    case Answering(e, reply) =>
      g' := ArriveKeeps(w, m, s, e, reply, step.n);
    case Waiting(e, reply) =>
      g' := HandleKeeps(w, m, s, e, reply);
    case Finished(_) =>
      assert false;
  }

  // ---------------------------------------------------------------- whole runs

  /** The flash button has been pressed on a host connected to an idle programmer. */
  ghost predicate Start(s: System) {
    && s.out == [INIT, NL] && s.tx == s.rx == s.ring == s.down == [] && s.inbox == [] && s.log == [] && s.dropped == 0
    && s.fw.pc.Command? && FirmwareOk(s.fw)
  }

  /** s is what some sequence of enabled steps makes of s0. */
  ghost predicate Reaches(w: World, m: Image, s0: System, steps: seq<Step>, s: System)
    requires ImageOk(m)
    decreases |steps|
  {
    if steps == [] then s == s0
    else exists r ::
           Reaches(w, m, s0, steps[..|steps| - 1], r) && Enabled(r, steps[|steps| - 1]) && FirmwareOk(r.fw) &&
           s == Apply(w, m, r, steps[|steps| - 1])
  }

  /** In every interleaving the run is at one of its stages, and at most 66000 steps long. */
  lemma {:induction false} RunInvariant(w: World, m: Image, s0: System, steps: seq<Step>, s: System) returns (g: Stage)
    requires ImageOk(m) && Start(s0) && Reaches(w, m, s0, steps, s)
    ensures At(w, m, s, g) && |steps| + Measure(s, g) <= 66000
    decreases |steps|
  {
    hide Apply, Receive;
    if steps == [] {
      g := Asking(0, 0);
      assert s.ring + s.tx + s.out == [INIT, NL] + [] == Request(m, 0)[0..];
    } else {
      var last := steps[|steps| - 1];
      var r :| Reaches(w, m, s0, steps[..|steps| - 1], r) && Enabled(r, last) && FirmwareOk(r.fw) &&
             s == Apply(w, m, r, last);
      var h := RunInvariant(w, m, s0, steps[..|steps| - 1], r);
      g := StepKeeps(w, m, r, h, last);
    }
  }

  /** On its way to the window: the messages queued for it, what is not framed yet, and what is still to arrive. */
  function InFlight(s: System): seq<Byte> {
    Streams.Flat(s.inbox) + s.rx + s.down
  }

  lemma InFlightAt(w: World, m: Image, s: System, g: Stage)
    requires ImageOk(m) && At(w, m, s, g)
    ensures InFlight(s) == if g.Answering? || g.Waiting? then g.reply else []
  {
    hide FirmwareAt, TargetAt, Request, CounterAt, SumAll, Logged;
    if g.Waiting? {
      Streams.FlatSnoc([], g.reply);
      assert [] + [g.reply] == [g.reply];
    }
  }

  /**
   * When the host is about to receive the final verify reply, every block of the
   * target's flash is the block of the image, however faulty the flash is, and
   * whatever the opaque vectors mean.
   */
  lemma VerifiedMeansFlashed(w: World, m: Image, s0: System, steps: seq<Step>, s: System)
    requires ImageOk(m) && Start(s0) && Reaches(w, m, s0, steps, s)
    requires InFlight(s) == Reply(VERIFY, ZERO)
    ensures s.fw.chip.mem.flash == m.program
  {
    hide Reaches;
    var g := RunInvariant(w, m, s0, steps, s);
    InFlightAt(w, m, s, g);
    VerifyReplyIsLast(g.e);
    assert HasBlocks(m, 128, s.fw);
  }

  /** And so it stays from when the host has taken that reply up until the security data have been answered. */
  lemma HandledMeansFlashed(w: World, m: Image, s0: System, steps: seq<Step>, s: System)
    requires ImageOk(m) && Start(s0) && Reaches(w, m, s0, steps, s)
    requires s.log != [] && s.log[|s.log| - 1] == Reply(VERIFY, ZERO) && InFlight(s) == []
    ensures s.fw.chip.mem.flash == m.program
  {
    hide Reaches;
    var g := RunInvariant(w, m, s0, steps, s);
    InFlightAt(w, m, s, g);
    VerifyReplyIsLast(|s.log| - 1);
    assert HasBlocks(m, 128, s.fw);
  }

  lemma VerifyReplyIsLast(e: nat)
    requires e <= LAST
    ensures Success(e) == Reply(VERIFY, ZERO) <==> e == 257
    ensures !Failure(e, Reply(VERIFY, ZERO)) && !Failure(e, Reply(CHECK, ZERO)) && !Failure(e, Reply(PROGRAM, ZERO))
    ensures Success(e) == Reply(PROGRAM, ZERO) <==> e == 129
  {
    assert Success(e)[0] == Cmd(e);
    assert Reply(VERIFY, ZERO)[0] == VERIFY && Reply(VERIFY, ZERO)[2] == ZERO;
    assert Reply(PROGRAM, ZERO)[0] == PROGRAM && Reply(PROGRAM, ZERO)[2] == ZERO && Reply(CHECK, ZERO)[2] == ZERO;
    assert Reply(Cmd(e), ONE)[2] == ONE && Reply(Cmd(e), TWO)[2] == TWO && Success(e)[2] in [PLUS, ZERO];
  }

  /** If the flash keeps what it is given, it already holds the image when programming is reported complete. */
  lemma ProgrammedMeansFlashed(w: World, m: Image, s0: System, steps: seq<Step>, s: System)
    requires ImageOk(m) && Start(s0) && Reaches(w, m, s0, steps, s) && Faithful(w)
    requires InFlight(s) == Reply(PROGRAM, ZERO)
    ensures s.fw.chip.mem.flash == m.program
  {
    hide Reaches;
    var g := RunInvariant(w, m, s0, steps, s);
    InFlightAt(w, m, s, g);
    VerifyReplyIsLast(g.e);
    assert HasBlocks(m, 128, s.fw);
  }

  /** The checksum is reported right only if the target's 16-bit sum is that of all the bytes sent. */
  lemma CheckedMeansEqualSums(w: World, m: Image, s0: System, steps: seq<Step>, s: System)
    requires ImageOk(m) && Start(s0) && Reaches(w, m, s0, steps, s)
    requires InFlight(s) == Reply(CHECK, ZERO)
    ensures SumAll(s.fw.chip.mem.flash) % 0x10000 == SumAll(m.program) % 0x10000
  {
    hide Reaches, SumAll;
    var g := RunInvariant(w, m, s0, steps, s);
    InFlightAt(w, m, s, g);
  }

  lemma SuccessIsNoFailure(e: nat, reply: seq<Byte>)
    requires reply == Success(e)
    ensures !Failure(e, reply)
  {
    assert Reply(Cmd(e), ONE)[2] == ONE && Reply(Cmd(e), TWO)[2] == TWO && Success(e)[2] in [PLUS, ZERO];
  }

  /**
   * When the host has handled all 262 success replies, the target has come out of a
   * reset: nothing is left in its shift register or its queue, and it went into the
   * reset with a flash whose sum is the image's.
   */
  lemma FinishedOutOfReset(w: World, m: Image, s0: System, steps: seq<Step>, s: System)
    requires ImageOk(m) && Start(s0) && Reaches(w, m, s0, steps, s)
    requires Logged(s.log, LAST + 1)
    ensures s.fw.chip.shift == [] && s.fw.chip.queue == [] && OutOfReset(w, m, s.fw)
  {
    hide Reaches, FirmwareAt, TargetAt, CounterAt, Request, SumAll, Success, Failure;
    var g := RunInvariant(w, m, s0, steps, s);
    assert s.log[LAST] == Success(LAST);
    SuccessIsNoFailure(LAST, s.log[LAST]);
    var before: Memory :| ResetFrom(w, m, before, s.fw.chip);
  }

  lemma OneUnderWay(w: World, m: Image, s: System, g: Stage)
    requires ImageOk(m) && At(w, m, s, g)
    ensures ((s.out == s.tx == s.ring == []) || InFlight(s) == []) && |InFlight(s)| <= 4
  {
    hide FirmwareAt, TargetAt, Request, CounterAt, SumAll, Logged, InFlight, Cmd;
    InFlightAt(w, m, s, g);
  }

  lemma FourByteMessages(w: World, m: Image, s: System, g: Stage)
    requires ImageOk(m) && At(w, m, s, g)
    ensures forall msg | msg in s.log :: |msg| == 4
  {
    hide FirmwareAt, TargetAt, Request, CounterAt, SumAll, Cmd;
  }

  lemma CounterAhead(w: World, m: Image, s: System, g: Stage)
    requires ImageOk(m) && At(w, m, s, g) && s.out + s.tx + s.ring != [] && s.fw.pc in [Data(PROGRAM), Data(VERIFY)]
    ensures s.blockCntr == s.fw.blockNum + 1
  {
    hide TargetAt, SumAll, Logged, Payload;
  }

  /**
   * Stop and wait: a request and a reply are never under way together, no two
   * replies are ever buffered, every message the host has handled has exactly
   * four bytes, and while a block is on its way the host's counter is one ahead
   * of the firmware's.
   */
  lemma StopAndWait(w: World, m: Image, s0: System, steps: seq<Step>, s: System)
    requires ImageOk(m) && Start(s0) && Reaches(w, m, s0, steps, s)
    ensures (s.out == s.tx == s.ring == []) || InFlight(s) == []
    ensures |InFlight(s)| <= 4 && forall msg | msg in s.log :: |msg| == 4
    ensures s.out + s.tx + s.ring != [] && s.fw.pc in [Data(PROGRAM), Data(VERIFY)] ==> s.blockCntr == s.fw.blockNum + 1
  {
    hide Reaches, At, InFlight;
    var g := RunInvariant(w, m, s0, steps, s);
    OneUnderWay(w, m, s, g);
    FourByteMessages(w, m, s, g);
    if s.out + s.tx + s.ring != [] && s.fw.pc in [Data(PROGRAM), Data(VERIFY)] {
      CounterAhead(w, m, s, g);
    }
  }

  /** The input queue never holds more than 66 of its 128 bytes, and so never rejects one. */
  lemma NoOverrun(w: World, m: Image, s0: System, steps: seq<Step>, s: System)
    requires ImageOk(m) && Start(s0) && Reaches(w, m, s0, steps, s)
    ensures |s.ring| + |s.tx| + |s.out| <= 66 && s.dropped == 0
  {
    hide Reaches, TargetAt, SumAll;
    var g := RunInvariant(w, m, s0, steps, s);
    if g.Asking? {
      assert |s.ring + s.tx + s.out| <= |Request(m, g.e)|;
    }
  }

  /**
   * Every run ends: it has at most 66000 steps and 262 exchanges, and it can only
   * come to a halt when all has succeeded or the host has received a failure.
   */
  lemma EveryRunEnds(w: World, m: Image, s0: System, steps: seq<Step>, s: System)
    requires ImageOk(m) && Start(s0) && Reaches(w, m, s0, steps, s)
    ensures |steps| <= 66000 && |s.log| <= LAST + 1
    ensures (exists step :: Enabled(s, step)) || (|s.log| == LAST + 1 && Logged(s.log, LAST + 1)) ||
            (s.log != [] && Failure(|s.log| - 1, s.log[|s.log| - 1]))
  {
    hide Reaches, TargetAt, SumAll;
    var g := RunInvariant(w, m, s0, steps, s);
    match g
    case Asking(e, i) =>
      assert |s.ring + s.tx + s.out| > 0;
      assert Enabled(s, Write(1)) || Enabled(s, Transmit) || Enabled(s, Consume);
    case Answering(e, reply) =>
      assert |s.rx + s.down| == 4;
      assert Enabled(s, Arrive(1));
    case Waiting(e, reply) =>
      assert Enabled(s, Handle);
    case Finished(ok) =>
  }
}
