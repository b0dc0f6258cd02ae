/**
 * Control transfers on endpoint zero: the device's state machine, step by step, and
 * what it guarantees over whole runs.
 */
module ControlPipe {
  import opened Bits
  import opened Streams

  datatype Ep0State = WaitingSetup | Tx | WaitingTx0 | WaitingSts | Rx | SendingSts | Error
  datatype UsbState = Stop | Ready | Selected | Active | Suspended
  datatype EndpointStatus = Disabled | Stalled | Operating

  /** What is called when the status stage is over. */
  datatype Callback = NoCallback | SetAddress | Application

  /** A transfer prepared by a request handler. */
  datatype Transfer = Transfer(data: seq<Byte>, endcb: Callback)

  /** What the application and the controller answer while a request is handled. */
  datatype Answers = Answers(hook: Option<Transfer>, descriptor: Option<seq<Byte>>, statusIn: EndpointStatus,
      statusOut: EndpointStatus)

  /** What the controller is told to do with an endpoint. */
  datatype Command = StallIn(ep: Byte) | StallOut(ep: Byte) | ClearIn(ep: Byte) | ClearOut(ep: Byte)

  /** The device as a whole, and the commands its controller has been given. */
  datatype Device = Device(state: UsbState, saved: UsbState, status: Byte, address: Byte, configuration: Byte,
    issued: seq<Command>)

  /**
   * Endpoint zero: the fields of its state machine, the busy bits, and what has
   * happened: the IN transactions since the last SETUP, the SET_ADDRESS requests
   * accepted and the addresses set, and whether an assertion of the driver has failed.
   */
  datatype Pipe = Pipe(setup: seq<Byte>, ep0: Ep0State, inBusy: bool, outBusy: bool, next: seq<Byte>, n: nat,
    endcb: Callback, sent: seq<seq<Byte>>, requests: nat, addressed: nat, fault: bool)

  datatype State = State(device: Device, pipe: Pipe)

  datatype Event =
    | Setup(packet: seq<Byte>, answers: Answers) | InDone | OutDone(size: nat)
    | BusReset | Suspend | Wakeup

  const REQ_GET_STATUS: Byte := 0
  const REQ_CLEAR_FEATURE: Byte := 1
  const REQ_SET_FEATURE: Byte := 3
  const REQ_SET_ADDRESS: Byte := 5
  const REQ_GET_DESCRIPTOR: Byte := 6
  const REQ_GET_CONFIGURATION: Byte := 8
  const REQ_SET_CONFIGURATION: Byte := 9
  const REQ_SYNCH_FRAME: Byte := 12
  const DEVICE: Byte := 0
  const INTERFACE: Byte := 1
  const ENDPOINT: Byte := 2
  const FEATURE_ENDPOINT_HALT: Byte := 0
  const FEATURE_DEVICE_REMOTE_WAKEUP: Byte := 1

  const PLUGGED: State :=
    State(Device(Ready, Ready, 0, 0, 0, []),
          Pipe([0, 0, 0, 0, 0, 0, 0, 0], WaitingSetup, false, false, [], 0, NoCallback, [], 0, 0, false))

  // ---------------------------------------------------------------- the requests

  function Length(setup: seq<Byte>): nat
    requires |setup| == 8
  {
    setup[6] as int + 256 * setup[7] as int
  }

  predicate DeviceToHost(setup: seq<Byte>)
    requires |setup| == 8
  {
    setup[0] & 0x80 == 0x80
  }

  /** A request accepted: the device's new state, and the transfer prepared. */
  datatype Reply = Reply(device: Device, transfer: Transfer)

  function Configured(d: Device, value: Byte): Device {
    if d.configuration == value then d else
    var e := if d.state.Active? then d.(configuration := 0, state := Selected) else d;
    if value != 0 then e.(configuration := value, state := Active) else e
  }

  /** A transfer without a callback. */
  function Answer(d: Device, data: seq<Byte>): Option<Reply> {
    Some(Reply(d, Transfer(data, NoCallback)))
  }

  /** The device's one feature is remote wakeup. */
  function FeatureHandler(d: Device, setup: seq<Byte>): Option<Reply>
    requires |setup| == 8
  {
    if setup[2] != FEATURE_DEVICE_REMOTE_WAKEUP then None
    else if setup[1] == REQ_SET_FEATURE then Answer(d.(status := d.status | 2), [])
    else Answer(d.(status := d.status & 0xFD), [])
  }

  /** The standard requests to the device; None if the request is refused. */
  function DeviceHandler(d: Device, setup: seq<Byte>, a: Answers): Option<Reply>
    requires |setup| == 8
  {
    var request := setup[1];
    if request == REQ_GET_STATUS then Answer(d, [d.status, 0])
    else if request == REQ_CLEAR_FEATURE || request == REQ_SET_FEATURE then FeatureHandler(d, setup)
    else if request == REQ_SET_ADDRESS then Some(Reply(d, Transfer([], SetAddress)))
    else if request == REQ_GET_DESCRIPTOR then
      if a.descriptor.Some? then Answer(d, a.descriptor.value) else None
    else if request == REQ_GET_CONFIGURATION then Answer(d, [d.configuration])
    else if request == REQ_SET_CONFIGURATION then Answer(Configured(d, setup[2]), [])
    else None
  }

  function Endpoint(setup: seq<Byte>): Byte
    requires |setup| == 8
  {
    setup[4] & 0x0F
  }

  predicate IsIn(setup: seq<Byte>)
    requires |setup| == 8
  {
    setup[4] & 0x80 != 0
  }

  /** The command a halt request asks for. */
  function HaltCommand(setup: seq<Byte>): Command
    requires |setup| == 8
  {
    if setup[1] == REQ_SET_FEATURE then
      if IsIn(setup) then StallIn(Endpoint(setup)) else StallOut(Endpoint(setup))
    else
      if IsIn(setup) then ClearIn(Endpoint(setup)) else ClearOut(Endpoint(setup))
  }

  /** An endpoint's one feature is its halt; endpoint zero has none, and the request is ignored. */
  function HaltHandler(d: Device, setup: seq<Byte>): Option<Reply>
    requires |setup| == 8
  {
    if setup[2] != FEATURE_ENDPOINT_HALT then None
    else if Endpoint(setup) == 0 then Answer(d, [])
    else Answer(d.(issued := d.issued + [HaltCommand(setup)]), [])
  }

  function EndpointHandler(d: Device, setup: seq<Byte>, a: Answers): Option<Reply>
    requires |setup| == 8
  {
    var request := setup[1];
    if request == REQ_SYNCH_FRAME then Answer(d, [0, 0])
    else if request == REQ_GET_STATUS then
      match if IsIn(setup) then a.statusIn else a.statusOut
      case Stalled => Answer(d, [1, 0])
      case Operating => Answer(d, [0, 0])
      case Disabled => None
    else if request == REQ_CLEAR_FEATURE || request == REQ_SET_FEATURE then HaltHandler(d, setup)
    else None
  }

  /** The standard requests. */
  function DefaultHandler(d: Device, setup: seq<Byte>, a: Answers): Option<Reply>
    requires |setup| == 8
  {
    var recipient := setup[0] & 0x7F;
    if recipient == DEVICE then DeviceHandler(d, setup, a)
    else if recipient == INTERFACE then
      if setup[1] == REQ_GET_STATUS then Answer(d, [0, 0]) else None
    else if recipient == ENDPOINT then EndpointHandler(d, setup, a)
    else None
  }

  /** The request is offered to the application's hook, then to the default handler. */
  function Handled(d: Device, setup: seq<Byte>, a: Answers): Option<Reply>
    requires |setup| == 8
  {
    if a.hook.Some? then Some(Reply(d, a.hook.value))
    else if setup[0] & 0x60 != 0 then None
    else DefaultHandler(d, setup, a)
  }

  /**
   * The driver's own callback comes from a standard SET_ADDRESS request only, and no
   * request sets the address at once.
   */
  lemma OnlySetAddress(d: Device, setup: seq<Byte>, a: Answers)
    requires |setup| == 8 && Handled(d, setup, a).Some? && (a.hook.Some? ==> a.hook.value.endcb != SetAddress)
    ensures var r := Handled(d, setup, a).value;
            && r.device.address == d.address
            && (r.transfer.endcb == SetAddress <==> a.hook.None? && AsksForAddress(setup))
  {
  }

  /** A standard request to halt an endpoint other than zero, or to end that. */
  predicate AsksForHalt(setup: seq<Byte>)
    requires |setup| == 8
  {
    && setup[0] & 0x7F == ENDPOINT && (setup[1] == REQ_CLEAR_FEATURE || setup[1] == REQ_SET_FEATURE)
    && setup[2] == FEATURE_ENDPOINT_HALT && Endpoint(setup) != 0
  }

  /** An accepted request gives the controller a command exactly if it is such a request, and then that one command. */
  lemma OnlyHaltRequests(d: Device, setup: seq<Byte>, a: Answers)
    requires |setup| == 8 && Handled(d, setup, a).Some?
    ensures var r := Handled(d, setup, a).value;
            && (a.hook.None? && AsksForHalt(setup) ==> r.device == d.(issued := d.issued + [HaltCommand(setup)]))
            && (!(a.hook.None? && AsksForHalt(setup)) ==> r.device.issued == d.issued)
  {
    hide Endpoint, IsIn, HaltCommand, FeatureHandler, Configured;
    if a.hook.None? && setup[0] & 0x60 == 0 && setup[0] & 0x7F == DEVICE { DeviceIssuesNothing(d, setup, a); }
    Recipients(setup[0]);
  }

  lemma Recipients(b: Byte)
    ensures b & 0x7F == DEVICE || b & 0x7F == INTERFACE || b & 0x7F == ENDPOINT ==> b & 0x60 == 0
  {
  }

  lemma DeviceIssuesNothing(d: Device, setup: seq<Byte>, a: Answers)
    requires |setup| == 8 && DeviceHandler(d, setup, a).Some?
    ensures DeviceHandler(d, setup, a).value.device.issued == d.issued
  {
  }

  // ---------------------------------------------------------------- the steps of endpoint zero

  /** A transaction is started; starting one on a busy endpoint fails an assertion. */
  function StartIn(p: Pipe, data: seq<Byte>): Pipe {
    p.(inBusy := true, sent := p.sent + [data], fault := p.fault || p.inBusy)
  }

  function StartOut(p: Pipe): Pipe {
    p.(outBusy := true, fault := p.fault || p.outBusy)
  }

  /** A SETUP packet arrives; the controller has dropped what was outstanding on endpoint zero. */
  function Fresh(p: Pipe, packet: seq<Byte>): Pipe {
    p.(ep0 := WaitingSetup, setup := packet, sent := [], inBusy := false, outBusy := false)
  }

  /** What is transferred is limited to the length the host asked for. */
  function Prepared(p: Pipe, t: Transfer): (r: Pipe)
    requires |p.setup| == 8
    ensures r.n <= |r.next|
  {
    p.(next := t.data, n := if |t.data| > Length(p.setup) then Length(p.setup) else |t.data|, endcb := t.endcb,
       requests := p.requests + if t.endcb == SetAddress then 1 else 0)
  }

  /** The stage after a handled SETUP: data in, data out, or straight to the status. */
  function FirstStage(p: Pipe): Pipe
    requires |p.setup| == 8 && p.n <= |p.next|
  {
    if DeviceToHost(p.setup) then
      if p.n != 0 then StartIn(p.(ep0 := Tx), p.next[..p.n]) else StartOut(p.(ep0 := WaitingSts))
    else
      if p.n != 0 then StartOut(p.(ep0 := Rx)) else StartIn(p.(ep0 := SendingSts), [])
  }

  const STALL_ZERO: seq<Command> := [StallIn(0), StallOut(0)]

  /** The error response: endpoint zero is stalled in both directions. */
  function Failed(d: Device, p: Pipe): State {
    State(d.(issued := d.issued + STALL_ZERO), p.(ep0 := Error))
  }

  function SetupStep(s: State, packet: seq<Byte>, a: Answers): State
    requires |packet| == 8
  {
    match Handled(s.device, packet, a)
    case None => Failed(s.device, Fresh(s.pipe, packet))
    case Some(r) => State(r.device, FirstStage(Prepared(Fresh(s.pipe, packet), r.transfer)))
  }

  /** The end of a control transfer. */
  function Finished(s: State): State
    requires |s.pipe.setup| == 8
  {
    if s.pipe.endcb == SetAddress
    then State(s.device.(address := s.pipe.setup[2], state := Selected),
               s.pipe.(ep0 := WaitingSetup, addressed := s.pipe.addressed + 1))
    else s.(pipe := s.pipe.(ep0 := WaitingSetup))
  }

  /** A data packet to the host is over: an empty one may have to follow, else the status stage does. */
  function AfterData(maxPacket: nat, p: Pipe): Pipe
    requires |p.setup| == 8 && maxPacket > 0
  {
    if p.ep0.Tx? && p.n < Length(p.setup) && p.n % maxPacket == 0 then StartIn(p, []).(ep0 := WaitingTx0)
    else StartOut(p.(ep0 := WaitingSts))
  }

  /** The IN transaction of endpoint zero is over. */
  function InStep(maxPacket: nat, s: State): State
    requires |s.pipe.setup| == 8 && maxPacket > 0
  {
    var p := s.pipe.(inBusy := false);
    match p.ep0
    case Tx => s.(pipe := AfterData(maxPacket, p))
    case WaitingTx0 => s.(pipe := AfterData(maxPacket, p))
    case SendingSts => Finished(s.(pipe := p))
    case Error => Failed(s.device, p)
    case _ => Failed(s.device, p.(fault := true))
  }

  /** An OUT transaction of that many bytes is over. */
  function OutStep(s: State, size: nat): State
    requires |s.pipe.setup| == 8
  {
    var p := s.pipe.(outBusy := false);
    match p.ep0
    case Rx => s.(pipe := StartIn(p.(ep0 := SendingSts), []))
    case WaitingSts => if size != 0 then s.(pipe := p) else Finished(s.(pipe := p))
    case Error => Failed(s.device, p)
    case _ => Failed(s.device, p.(fault := true))
  }

  function ResetStep(s: State): State {
    State(Device(Ready, s.device.saved, 0, 0, 0, s.device.issued),
          s.pipe.(inBusy := false, outBusy := false, ep0 := WaitingSetup))
  }

  /** Completion is only reported of a transaction under way; an application cannot name the driver's own callback. */
  predicate Enabled(s: State, e: Event) {
    match e
    case Setup(p, a) => |p| == 8 && (a.hook.Some? ==> a.hook.value.endcb != SetAddress)
    case InDone => s.pipe.inBusy
    case OutDone(_) => s.pipe.outBusy
    case _ => true
  }

  function Step(maxPacket: nat, s: State, e: Event): State
    requires |s.pipe.setup| == 8 && maxPacket > 0 && Enabled(s, e)
  {
    match e
    case Setup(p, a) => SetupStep(s, p, a)
    case InDone => InStep(maxPacket, s)
    case OutDone(size) => OutStep(s, size)
    case BusReset => ResetStep(s)
    case Suspend => s.(device := s.device.(saved := s.device.state, state := Suspended))
    case Wakeup => s.(device := s.device.(state := s.device.saved))
  }

  // ---------------------------------------------------------------- what every step keeps

  /** The state says which transaction is outstanding on endpoint zero. */
  predicate Agree(p: Pipe) {
    && (p.inBusy <==> p.ep0.Tx? || p.ep0.WaitingTx0? || p.ep0.SendingSts?)
    && (p.outBusy <==> p.ep0.Rx? || p.ep0.WaitingSts?)
  }

  /** The one exception: a status packet was not empty, and the device waits for the next SETUP. */
  predicate Stuck(p: Pipe) {
    p.ep0.WaitingSts? && !p.inBusy && !p.outBusy
  }

  predicate Transferring(p: Pipe) {
    !p.ep0.WaitingSetup? && !p.ep0.Error?
  }

  predicate AsksForAddress(setup: seq<Byte>)
    requires |setup| == 8
  {
    setup[0] & 0x7F == DEVICE && setup[1] == REQ_SET_ADDRESS
  }

  predicate AsksForConfiguration(setup: seq<Byte>)
    requires |setup| == 8
  {
    setup[0] & 0x7F == DEVICE && setup[1] == REQ_SET_CONFIGURATION
  }

  /** A pending address change was asked for by the last SETUP, and is counted among the requests. */
  predicate Inv(p: Pipe) {
    && |p.setup| == 8 && !p.fault && (Agree(p) || Stuck(p))
    && (Transferring(p) && p.endcb == SetAddress ==> AsksForAddress(p.setup))
    && p.addressed + (if Transferring(p) && p.endcb == SetAddress then 1 else 0) <= p.requests
  }

  lemma StepKeepsInv(maxPacket: nat, s: State, e: Event)
    requires maxPacket > 0 && Inv(s.pipe) && Enabled(s, e)
    ensures Inv(Step(maxPacket, s, e).pipe)
  {
    hide Length, DeviceToHost, Handled, AsksForAddress;
    if e.Setup? && Handled(s.device, e.packet, e.answers).Some? { OnlySetAddress(s.device, e.packet, e.answers); }
  }

  /** Agreement is lost exactly by a status packet that is not empty. */
  lemma AgreementKept(maxPacket: nat, s: State, e: Event)
    requires maxPacket > 0 && Inv(s.pipe) && Agree(s.pipe) && Enabled(s, e)
    ensures Agree(Step(maxPacket, s, e).pipe) <==> !(e.OutDone? && s.pipe.ep0.WaitingSts? && e.size != 0)
  {
    hide Length, DeviceToHost, Handled;
  }

  /** A SETUP restores it, whatever went before. */
  lemma SetupRestoresAgreement(s: State, packet: seq<Byte>, a: Answers)
    requires |packet| == 8
    ensures Agree(SetupStep(s, packet, a).pipe) && SetupStep(s, packet, a).pipe.fault == s.pipe.fault
  {
    hide Length, DeviceToHost, Handled;
  }

  /**
   * The address changes at a bus reset, or when the status stage of a SET_ADDRESS
   * request is over, to the address it gave; a bus reset makes it 0.
   */
  lemma AddressChanges(maxPacket: nat, s: State, e: Event)
    requires maxPacket > 0 && Inv(s.pipe) && Enabled(s, e) && Step(maxPacket, s, e).device.address != s.device.address
    ensures var t := Step(maxPacket, s, e);
            || (e.BusReset? && t.device.address == 0)
            || (AsksForAddress(s.pipe.setup) && t.device.address == s.pipe.setup[2] && t.device.state.Selected? &&
                t.pipe.ep0.WaitingSetup? &&
                ((e.InDone? && s.pipe.ep0.SendingSts?) || (e.OutDone? && s.pipe.ep0.WaitingSts? && e.size == 0)))
  {
    hide Length, DeviceToHost, FirstStage, Prepared, AsksForAddress;
    if e.Setup? && Handled(s.device, e.packet, e.answers).Some? { OnlySetAddress(s.device, e.packet, e.answers); }
  }

  // ---------------------------------------------------------------- whole runs

  function Run(maxPacket: nat, es: seq<Event>): Option<State>
    requires maxPacket > 0
  {
    if es == [] then Some(PLUGGED) else
    match Run(maxPacket, es[..|es| - 1])
    case None => None
    case Some(s) =>
      if |s.pipe.setup| == 8 && Enabled(s, es[|es| - 1]) then Some(Step(maxPacket, s, es[|es| - 1])) else None
  }

  /**
   * On every run, whatever the host and the application do: no assertion fails, so
   * the error branches of the callbacks are never reached and no transaction starts
   * on a busy endpoint zero; the state agrees with the busy bits unless a status
   * packet was not empty; and addresses are set no more often than SET_ADDRESS is
   * accepted.
   */
  lemma {:induction false} NoStateMachineError(maxPacket: nat, es: seq<Event>)
    requires maxPacket > 0 && Run(maxPacket, es).Some?
    ensures var p := Run(maxPacket, es).value.pipe;
            Inv(p) && !p.fault && (Agree(p) || Stuck(p)) && p.addressed <= p.requests
  {
    hide Step;
    if es == [] {
    } else {
      NoStateMachineError(maxPacket, es[..|es| - 1]);
      StepKeepsInv(maxPacket, Run(maxPacket, es[..|es| - 1]).value, es[|es| - 1]);
    }
  }

  // ---------------------------------------------------------------- the commands of a run

  predicate Refuses(d: Device, e: Event) {
    e.Setup? && |e.packet| == 8 && Handled(d, e.packet, e.answers).None?
  }

  /** What a request makes the driver tell the controller: a refused one stalls endpoint zero. */
  function CommandsOf(d: Device, e: Event): seq<Command> {
    if !e.Setup? || |e.packet| != 8 then []
    else if Refuses(d, e) then STALL_ZERO
    else if e.answers.hook.None? && AsksForHalt(e.packet) then [HaltCommand(e.packet)]
    else []
  }

  /** On an endpoint zero that is in order nothing but a request gives a command. */
  lemma StepIssues(maxPacket: nat, s: State, e: Event)
    requires maxPacket > 0 && Inv(s.pipe) && Enabled(s, e)
    ensures Step(maxPacket, s, e).device.issued == s.device.issued + CommandsOf(s.device, e)
  {
    hide Length, DeviceToHost, Handled, FirstStage, AsksForHalt, HaltCommand, AsksForAddress;
    if e.Setup? && Handled(s.device, e.packet, e.answers).Some? {
      OnlyHaltRequests(s.device, e.packet, e.answers);
    }
    assert s.device.issued + [] == s.device.issued;
  }

  /** The state before event i of a run. */
  function Before(maxPacket: nat, es: seq<Event>, i: nat): State
    requires maxPacket > 0 && i < |es|
  {
    var r := Run(maxPacket, es[..i]);
    if r.Some? then r.value else PLUGGED
  }

  /** The commands the requests of a run ask for, in order. */
  function Commands(maxPacket: nat, es: seq<Event>): seq<Command>
    requires maxPacket > 0
  {
    if es == [] then [] else
    Commands(maxPacket, es[..|es| - 1]) + CommandsOf(Before(maxPacket, es, |es| - 1).device, es[|es| - 1])
  }

  /** How many requests of a run are refused. */
  function Refused(maxPacket: nat, es: seq<Event>): nat
    requires maxPacket > 0
  {
    if es == [] then 0 else
    Refused(maxPacket, es[..|es| - 1]) +
    if Refuses(Before(maxPacket, es, |es| - 1).device, es[|es| - 1]) then 1 else 0
  }

  /** How many commands name endpoint zero. */
  function Zeros(cs: seq<Command>): nat {
    if cs == [] then 0 else Zeros(cs[..|cs| - 1]) + if cs[|cs| - 1].ep == 0 then 1 else 0
  }

  lemma ZerosSnoc(cs: seq<Command>, c: Command)
    ensures Zeros(cs + [c]) == Zeros(cs) + if c.ep == 0 then 1 else 0
  {
    assert (cs + [c])[..|cs|] == cs;
  }

  lemma ZerosOfRequest(cs: seq<Command>, d: Device, e: Event)
    ensures Zeros(cs + CommandsOf(d, e)) == Zeros(cs) + if Refuses(d, e) then 2 else 0
  {
    hide Zeros, Handled, AsksForHalt, HaltCommand;
    var more := CommandsOf(d, e);
    if more == STALL_ZERO {
      ZerosSnoc(cs, StallIn(0));
      ZerosSnoc(cs + [StallIn(0)], StallOut(0));
      assert cs + STALL_ZERO == cs + [StallIn(0)] + [StallOut(0)];
    } else if more == [] {
      assert cs + more == cs;
    } else {
      NamesNoZero(e.packet);
      ZerosSnoc(cs, more[0]);
    }
  }

  /**
   * On every run the controller is given exactly the commands its requests ask for.
   * Endpoint zero is stalled in both directions once for each refused request, and
   * never by a halt request or the error branches of the callbacks.
   */
  lemma {:induction false} IssuedExactly(maxPacket: nat, es: seq<Event>)
    requires maxPacket > 0 && Run(maxPacket, es).Some?
    ensures Run(maxPacket, es).value.device.issued == Commands(maxPacket, es)
    ensures Zeros(Run(maxPacket, es).value.device.issued) == 2 * Refused(maxPacket, es)
  {
    hide Step, CommandsOf, Refuses, Zeros;
    if es == [] {
      NoZeros();
    } else {
      var before, e := es[..|es| - 1], es[|es| - 1];
      var s := Run(maxPacket, before).value;
      NoStateMachineError(maxPacket, before);
      IssuedExactly(maxPacket, before);
      StepIssues(maxPacket, s, e);
      ZerosOfRequest(s.device.issued, s.device, e);
    }
  }

  lemma NoZeros()
    ensures Zeros([]) == 0
  {
  }

  lemma NamesNoZero(setup: seq<Byte>)
    requires |setup| == 8 && AsksForHalt(setup)
    ensures HaltCommand(setup).ep != 0
  {
  }

  // ---------------------------------------------------------------- agreement over runs

  /** Event i is a status packet that is not empty. */
  predicate Breaks(maxPacket: nat, es: seq<Event>, i: nat)
    requires maxPacket > 0 && i < |es|
  {
    es[i].OutDone? && es[i].size != 0 && Before(maxPacket, es, i).pipe.ep0.WaitingSts?
  }

  predicate BrokenAt(maxPacket: nat, es: seq<Event>, i: nat)
    requires maxPacket > 0 && i < |es|
  {
    Breaks(maxPacket, es, i) && forall j | i < j < |es| :: !es[j].Setup? && !es[j].BusReset?
  }

  /**
   * Exactly when a run ends with the state and the busy bits of endpoint zero at odds:
   * when a status packet was not empty, and neither a SETUP nor a bus reset has come
   * since.
   */
  lemma {:induction false} AgreesExactly(maxPacket: nat, es: seq<Event>)
    requires maxPacket > 0 && Run(maxPacket, es).Some?
    ensures !Agree(Run(maxPacket, es).value.pipe) <==> exists i :: 0 <= i < |es| && BrokenAt(maxPacket, es, i)
  {
    hide Step;
    if es == [] {
    } else {
      var n := |es| - 1;
      AgreesExactly(maxPacket, es[..n]);
      NoStateMachineError(maxPacket, es[..n]);
      AgreementStep(maxPacket, Run(maxPacket, es[..n]).value, es[n]);
      BrokenExtends(maxPacket, es);
    }
  }

  lemma AgreementStep(maxPacket: nat, s: State, e: Event)
    requires maxPacket > 0 && Inv(s.pipe) && Enabled(s, e)
    ensures !Agree(Step(maxPacket, s, e).pipe) <==>
            || (e.OutDone? && s.pipe.ep0.WaitingSts? && e.size != 0)
            || (!Agree(s.pipe) && !e.Setup? && !e.BusReset?)
  {
    hide Length, DeviceToHost, Handled, AsksForAddress;
    if Agree(s.pipe) { AgreementKept(maxPacket, s, e); }
  }

  lemma BrokenExtends(maxPacket: nat, es: seq<Event>)
    requires maxPacket > 0 && es != []
    ensures var n := |es| - 1;
            (exists i :: 0 <= i < |es| && BrokenAt(maxPacket, es, i)) <==>
            || Breaks(maxPacket, es, n)
            || ((exists i :: 0 <= i < n && BrokenAt(maxPacket, es[..n], i)) && !es[n].Setup? && !es[n].BusReset?)
  {
    hide Breaks;
    var n := |es| - 1;
    forall i | 0 <= i < n
      ensures BrokenAt(maxPacket, es, i) <==> BrokenAt(maxPacket, es[..n], i) && !es[n].Setup? && !es[n].BusReset?
    {
      BreaksInPrefix(maxPacket, es, n, i);
    }
    assert BrokenAt(maxPacket, es, n) <==> Breaks(maxPacket, es, n);
  }

  lemma BreaksInPrefix(maxPacket: nat, es: seq<Event>, n: nat, i: nat)
    requires maxPacket > 0 && i < n <= |es|
    ensures Breaks(maxPacket, es[..n], i) == Breaks(maxPacket, es, i)
  {
    assert es[..n][..i] == es[..i];
  }

  // ---------------------------------------------------------------- single transfers

  /** Events from a state on, with neither a SETUP nor a bus reset among them. */
  function Goes(maxPacket: nat, s: State, es: seq<Event>): Option<State>
    requires maxPacket > 0
  {
    if es == [] then Some(s) else
    match Goes(maxPacket, s, es[..|es| - 1])
    case None => None
    case Some(t) =>
      var e := es[|es| - 1];
      if |t.pipe.setup| == 8 && Enabled(t, e) && !e.Setup? && !e.BusReset? then Some(Step(maxPacket, t, e)) else None
  }

  /** How many IN transactions have come to their end. */
  function Ins(es: seq<Event>): nat {
    if es == [] then 0 else Ins(es[..|es| - 1]) + if es[|es| - 1].InDone? then 1 else 0
  }

  /** How many OUT transactions have come to their end. */
  function Outs(es: seq<Event>): nat {
    if es == [] then 0 else Outs(es[..|es| - 1]) + if es[|es| - 1].OutDone? then 1 else 0
  }

  lemma GoesOn(maxPacket: nat, s: State, es: seq<Event>, e: Event)
    requires maxPacket > 0 && Goes(maxPacket, s, es).Some? && !e.Setup? && !e.BusReset?
    requires var t := Goes(maxPacket, s, es).value; |t.pipe.setup| == 8 && Enabled(t, e)
    ensures Goes(maxPacket, s, es + [e]) == Some(Step(maxPacket, Goes(maxPacket, s, es).value, e))
  {
    hide Step;
    assert (es + [e])[..|es|] == es;
  }
}
