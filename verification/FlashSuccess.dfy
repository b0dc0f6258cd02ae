/**
 * On an obliging target every flashing run succeeds, whatever the interleaving, and
 * there are such runs.
 */
module FlashSuccess {
  import opened Bits
  import opened IsspTarget
  import opened IsspOperations
  import opened FlashProtocol
  import opened HostProtocol
  import opened FlashRun
  import opened ObligingTarget

  // ---------------------------------------------------------------- one exchange

  /** What the later exchanges need of the target, besides where the run is. */
  ghost predicate Kept(m: Image, e: nat, f: Firmware)
    requires ImageOk(m)
  {
    (e in {259, 260} ==> f.chip.mem.flash == m.program) && (e == 259 ==> f.chip.mem.ram[..32] == m.security[..32])
  }

  lemma InnerKeepsChip(w: World, m: Image, e: nat, i: nat, f: Firmware)
    requires ImageOk(m) && e <= LAST && i + 1 < |Request(m, e)| && FirmwareOk(f)
    requires FirmwareAt(m, e, i, f)
    ensures Receive(w, f, Request(m, e)[i]).fw.chip == f.chip
  {
    hide InitializeOutcome, SiliconIdOutcome, EraseOutcome, ChecksumOutcome, Block, Reset;
    var q := Request(m, e);
    if HasCommand(e) && i <= 1 {
      assert q[0] == Cmd(e) && q[1] == NL;
    }
  }

  lemma AllBlocks(m: Image, f: Firmware)
    requires ImageOk(m) && HasBlocks(m, BLOCKS, f)
    ensures f.chip.mem.flash == m.program
  {
  }

  /** A block is programmed, or verified, with success. */
  lemma BlockSucceeds(w: World, m: Image, e: nat, f: Firmware)
    requires Obliging(w) && ImageOk(m) && 2 <= e < 258 && FirmwareOk(f) && TargetAt(w, m, e, f)
    requires FirmwareAt(m, e, |Request(m, e)| - 1, f)
    ensures var q := Request(m, e); Receive(w, f, q[|q| - 1]).reply == Success(e)
  {
    hide Block, LoadAndProgram, VerifyOutcome, SumAll, Flashed, Obliging, Acknowledges;
    var q, data := Request(m, e), Payload(m, e);
    var k := BlockOf(e);
    assert q[|q| - 1] == data[63];
    assert f.buf + [data[63]] == data;
    var f' := f.(buf := data);
    if e < 130 {
      ProgramSucceedsFor(w, f', k, data);
    } else {
      ObligingIsFaithful(w);
      AllBlocks(m, f);
      ByteOfInt(k);
      VerifySucceeds(w, f.chip, k as Byte);
      VerifyReply(w, f', k, data);
    }
  }

  lemma ObligingIsFaithful(w: World)
    requires Obliging(w)
    ensures Faithful(w)
  {
  }

  lemma ProgramSucceedsFor(w: World, f: Firmware, k: nat, data: seq<Byte>)
    requires Obliging(w) && k < BLOCKS && f.blockNum == k && Aligned(f.chip) && |data| == BLOCK_SIZE
    ensures Block(w, f, PROGRAM, data).reply == Reply(PROGRAM, if k < BLOCKS - 1 then PLUS else ZERO)
  {
    hide Feed, LoadBits, ProgramOutcome, Obliging, Sum;
    LoadEffect(w, f.chip, data, BLOCK_SIZE);
    ByteOfInt(k);
    ProgramSucceeds(w, Loaded(f.chip, data, BLOCK_SIZE), k as Byte);
  }

  lemma VerifyReply(w: World, f: Firmware, k: nat, data: seq<Byte>)
    requires k < BLOCKS && f.blockNum == k && |data| == BLOCK_SIZE && !VerifyOutcome(w, f.chip, k as Byte, data).failed
    ensures Block(w, f, VERIFY, data).reply == Reply(VERIFY, if k < BLOCKS - 1 then PLUS else ZERO)
  {
    hide VerifyOutcome;
  }

  /** An exchange without blocks of the image succeeds. */
  lemma CommandSucceeds(w: World, m: Image, e: nat, f: Firmware)
    requires Obliging(w) && ImageOk(m) && e <= LAST && !(2 <= e < 258) && FirmwareOk(f) && TargetAt(w, m, e, f)
    requires FirmwareAt(m, e, |Request(m, e)| - 1, f) && Kept(m, e, f)
    ensures var q := Request(m, e); var r := Receive(w, f, q[|q| - 1]);
            r.reply == Success(e) && Kept(m, e + 1, r.fw)
  {
    hide InitializeOutcome, SiliconIdOutcome, EraseOutcome, ChecksumOutcome, SecurityFlashOutcome,
         SecurityVerifyOutcome, SumAll, Obliging;
    var q, data := Request(m, e), Payload(m, e);
    if e == 0 {
      InitializeSucceeds(w, f.chip);
      SiliconIdSucceeds(w, InitializeOutcome(w, f.chip).chip);
    } else if e == 1 {
      EraseSucceeds(w, f.chip);
    } else if e == 258 || e == 259 {
      assert q[|q| - 1] == data[63];
      assert f.buf + [data[63]] == data;
      if e == 258 {
        ObligingIsFaithful(w);
        AllBlocks(m, f);
        SecuritySucceeds(w, f.chip, data);
      } else {
        SecurityVerifySucceeds(w, f.chip, data);
      }
    } else if e == 260 {
      ChecksumSucceeds(w, f.chip);
      ChecksumMeaning(w, f.chip);
    }
  }

  lemma Succeeds(w: World, m: Image, e: nat, f: Firmware)
    requires Obliging(w) && ImageOk(m) && e <= LAST && FirmwareOk(f) && TargetAt(w, m, e, f)
    requires FirmwareAt(m, e, |Request(m, e)| - 1, f) && Kept(m, e, f)
    ensures var q := Request(m, e); var r := Receive(w, f, q[|q| - 1]);
            r.reply == Success(e) && Kept(m, e + 1, r.fw)
  {
    hide Obliging, TargetAt, FirmwareAt, Receive;
    if 2 <= e < 258 { BlockSucceeds(w, m, e, f); } else { CommandSucceeds(w, m, e, f); }
  }

  // ---------------------------------------------------------------- whole runs

  /** So far nothing has failed: neither what has been handled nor what is in flight. */
  ghost predicate Good(m: Image, s: System)
    requires ImageOk(m)
  {
    var e := |s.log|;
    && Logged(s.log, e)
    && (InFlight(s) == [] || InFlight(s) == Success(e))
    && Kept(m, if InFlight(s) == [] then e else e + 1, s.fw)
  }

  lemma NothingInFlight(s: System)
    requires s.inbox == [] && s.rx == s.down == []
    ensures InFlight(s) == []
  {
  }

  lemma ConsumeGood(w: World, m: Image, s: System, e: nat, i: nat)
    requires Obliging(w) && ImageOk(m) && At(w, m, s, Asking(e, i)) && Good(m, s) && s.ring != []
    ensures Good(m, Apply(w, m, s, Consume))
  {
    hide FirmwareAt, TargetAt, Receive, Request, Success, CounterAt, SumAll, Obliging, Kept, Logged, InFlight;
    var q, t := Request(m, e), Apply(w, m, s, Consume);
    InFlightAt(w, m, s, Asking(e, i));
    assert s.ring[0] == (s.ring + s.tx + s.out)[0] == q[i];
    if i + 1 < |q| {
      ConsumeInner(w, m, e, i, s.fw);
      InnerKeepsChip(w, m, e, i, s.fw);
      NothingInFlight(t);
      SameChip(m, e, s.fw, t.fw);
    } else {
      Succeeds(w, m, e, s.fw);
      DownInFlight(t);
      SuccessIsReply(e);
      assert [] + Success(e) == Success(e);
    }
  }

  lemma SuccessIsReply(e: nat)
    ensures |Success(e)| == 4 && !Failure(e, Success(e))
  {
  }

  lemma SameChip(m: Image, e: nat, f: Firmware, g: Firmware)
    requires ImageOk(m) && Kept(m, e, f) && f.chip == g.chip
    ensures Kept(m, e, g)
  {
  }

  lemma DownInFlight(s: System)
    requires s.inbox == [] && s.rx == []
    ensures InFlight(s) == s.down
  {
  }

  lemma HandleGood(w: World, m: Image, s: System, e: nat, reply: seq<Byte>)
    requires ImageOk(m) && At(w, m, s, Waiting(e, reply)) && Good(m, s)
    ensures Good(m, Apply(w, m, s, Handle))
  {
    hide FirmwareAt, TargetAt, Request, Success, CounterAt, SumAll, Kept, React, InFlight;
    InFlightAt(w, m, s, Waiting(e, reply));
    NothingInFlight(Apply(w, m, s, Handle));
  }

  lemma StepGood(w: World, m: Image, s: System, g: Stage, step: Step)
    requires Obliging(w) && ImageOk(m) && At(w, m, s, g) && Good(m, s) && Enabled(s, step)
    ensures Good(m, Apply(w, m, s, step))
  {
    hide FirmwareAt, TargetAt, Request, Success, CounterAt, SumAll, Kept, Obliging, Logged, Failure;
    InFlightAt(w, m, s, g);
    match g
    case Asking(e, i) =>
      if step.Consume? { ConsumeGood(w, m, s, e, i); }
    case Answering(e, reply) =>
      var g' := ArriveKeeps(w, m, s, e, reply, step.n);
      InFlightAt(w, m, Apply(w, m, s, step), g');
    case Waiting(e, reply) =>
      HandleGood(w, m, s, e, reply);
    case Finished(_) =>
      assert false;
  }

  /** On an obliging target no run ever comes to a failure. */
  lemma {:induction false} NothingFails(w: World, m: Image, s0: System, steps: seq<Step>, s: System)
    requires Obliging(w) && ImageOk(m) && Start(s0) && Reaches(w, m, s0, steps, s)
    ensures Good(m, s)
    decreases |steps|
  {
    hide Apply, Receive, Good, Obliging, At;
    if steps == [] {
      StartsGood(m, s);
    } else {
      var last := steps[|steps| - 1];
      var r :| Reaches(w, m, s0, steps[..|steps| - 1], r) && Enabled(r, last) && FirmwareOk(r.fw) &&
               s == Apply(w, m, r, last);
      var g := RunInvariant(w, m, s0, steps[..|steps| - 1], r);
      NothingFails(w, m, s0, steps[..|steps| - 1], r);
      StepGood(w, m, r, g, last);
    }
  }

  lemma StartsGood(m: Image, s: System)
    requires ImageOk(m) && Start(s)
    ensures Good(m, s)
  {
    NothingInFlight(s);
  }

  lemma NotFailed(m: Image, s: System)
    requires ImageOk(m) && Good(m, s) && s.log != []
    ensures !Failure(|s.log| - 1, s.log[|s.log| - 1])
  {
    hide InFlight, Kept, Failure, Success;
    SuccessIsReply(|s.log| - 1);
  }

  /**
   * On an obliging target every run that can go no further has logged the success
   * replies of all 262 exchanges.
   */
  lemma EveryRunSucceeds(w: World, m: Image, s0: System, steps: seq<Step>, s: System)
    requires Obliging(w) && ImageOk(m) && Start(s0) && Reaches(w, m, s0, steps, s)
    requires forall step :: !Enabled(s, step)
    ensures |s.log| == LAST + 1 && Logged(s.log, LAST + 1)
  {
    hide Reaches, Obliging, Enabled, Good, Start, Logged, Failure;
    NothingFails(w, m, s0, steps, s);
    EveryRunEnds(w, m, s0, steps, s);
    if s.log != [] { NotFailed(m, s); }
  }

  // ---------------------------------------------------------------- there are such runs

  lemma OneMoreStep(w: World, m: Image, s0: System, steps: seq<Step>, s: System, step: Step)
    requires ImageOk(m) && Reaches(w, m, s0, steps, s) && Enabled(s, step) && FirmwareOk(s.fw)
    ensures Reaches(w, m, s0, steps + [step], Apply(w, m, s, step))
  {
    hide Apply, Enabled;
    assert (steps + [step])[..|steps|] == steps;
  }

  /** Before the last verify reply is on its way the run can go on, and does not miss it. */
  lemma GoesOnTo(w: World, m: Image, s0: System, steps: seq<Step>, s: System) returns (step: Step)
    requires Obliging(w) && ImageOk(m) && Start(s0) && Reaches(w, m, s0, steps, s)
    requires |s.log| <= 257 && InFlight(s) != Reply(VERIFY, ZERO)
    ensures Enabled(s, step) && FirmwareOk(s.fw) && |steps| < 66000 && |Apply(w, m, s, step).log| <= 257
  {
    hide Reaches, Obliging, Start, Good, Logged, Failure;
    NothingFails(w, m, s0, steps, s);
    EveryRunEnds(w, m, s0, steps, s);
    if s.log != [] { NotFailed(m, s); }
    step :| Enabled(s, step);
    var g := RunInvariant(w, m, s0, steps, s);
    MeasurePositive(w, m, s, g, step);
    if step.Handle? { NotTheLast(w, m, s, g); }
  }

  lemma MeasurePositive(w: World, m: Image, s: System, g: Stage, step: Step)
    requires ImageOk(m) && At(w, m, s, g) && Enabled(s, step)
    ensures Measure(s, g) > 0 && FirmwareOk(s.fw)
  {
    hide FirmwareAt, TargetAt, Request, CounterAt, SumAll, Logged, Failure;
  }

  lemma NotTheLast(w: World, m: Image, s: System, g: Stage)
    requires ImageOk(m) && At(w, m, s, g) && Good(m, s) && s.inbox != [] && InFlight(s) != Reply(VERIFY, ZERO)
    ensures |s.log| != 257
  {
    hide FirmwareAt, TargetAt, Request, CounterAt, SumAll, Logged, Failure, Kept;
    InFlightAt(w, m, s, g);
    VerifyReplyIsLast(257);
    SuccessIsReply(257);
  }

  lemma {:induction false} RunOn(w: World, m: Image, s0: System, steps: seq<Step>, s: System)
      returns (steps': seq<Step>, s': System)
    requires Obliging(w) && ImageOk(m) && Start(s0) && Reaches(w, m, s0, steps, s) && |s.log| <= 257 && |steps| <= 66000
    ensures Reaches(w, m, s0, steps', s') && InFlight(s') == Reply(VERIFY, ZERO)
    decreases 66000 - |steps|
  {
    hide Reaches, Obliging, Start, Enabled, Apply, InFlight;
    if InFlight(s) == Reply(VERIFY, ZERO) {
      steps', s' := steps, s;
    } else {
      var step := GoesOnTo(w, m, s0, steps, s);
      OneMoreStep(w, m, s0, steps, s, step);
      steps', s' := RunOn(w, m, s0, steps + [step], Apply(w, m, s, step));
    }
  }

  /**
   * For every image there is a target and a run that comes to the final verify reply,
   * with the image in the flash.
   */
  lemma FlashingCanSucceed(m: Image) returns (w: World, s0: System, steps: seq<Step>, s: System)
    requires ImageOk(m)
    ensures Obliging(w) && Start(s0) && Reaches(w, m, s0, steps, s)
    ensures InFlight(s) == Reply(VERIFY, ZERO) && s.fw.chip.mem.flash == m.program
  {
    hide Reaches, Obliging, InFlight, Enabled, Apply;
    w := ObligingExists();
    var memory: Memory := Mem(seq(64, i => 0), seq(128, i => seq(64, j => 0)), 0, 0, 0);
    s0 := System(0, [INIT, NL], [], [], [], [], Firmware(Command, 0, 0, [], Chip(memory, [], [], 0)), [], [], 0);
    NoSteps(w, m, s0);
    steps, s := RunOn(w, m, s0, [], s0);
    VerifiedMeansFlashed(w, m, s0, steps, s);
  }

  lemma NoSteps(w: World, m: Image, s: System)
    requires ImageOk(m)
    ensures Reaches(w, m, s, [], s)
  {
  }
}
