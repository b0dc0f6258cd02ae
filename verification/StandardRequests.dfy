/**
 * What the standard requests do over whole runs: the device's configuration, address,
 * remote wakeup and halted endpoints, and what the host is told about them.
 */
module StandardRequests {
  import opened Bits
  import opened Streams
  import opened ControlPipe

  /** A request of this kind that the application leaves to the driver. */
  predicate Standard(e: Event, recipient: Byte, request: Byte) {
    && e.Setup? && |e.packet| == 8 && e.answers.hook.None?
    && e.packet[0] & 0x7F == recipient && e.packet[1] == request
  }

  // ---------------------------------------------------------------- which requests are accepted, and their answers

  /** The requests the driver knows how to answer. */
  predicate Known(setup: seq<Byte>, a: Answers)
    requires |setup| == 8
  {
    var recipient, request := setup[0] & 0x7F, setup[1];
    || (recipient == DEVICE &&
        (|| request in {REQ_GET_STATUS, REQ_SET_ADDRESS, REQ_GET_CONFIGURATION, REQ_SET_CONFIGURATION}
         || (request in {REQ_CLEAR_FEATURE, REQ_SET_FEATURE} && setup[2] == 1)
         || (request == REQ_GET_DESCRIPTOR && a.descriptor.Some?)))
    || (recipient == INTERFACE && request == REQ_GET_STATUS)
    || (recipient == ENDPOINT &&
        (|| request == REQ_SYNCH_FRAME
         || (request in {REQ_CLEAR_FEATURE, REQ_SET_FEATURE} && setup[2] == 0)
         || (request == REQ_GET_STATUS && !Reported(setup, a).Disabled?)))
  }

  /** What the controller says of the endpoint that a request is about. */
  function Reported(setup: seq<Byte>, a: Answers): EndpointStatus
    requires |setup| == 8
  {
    if setup[4] & 0x80 == 0x80 then a.statusIn else a.statusOut
  }

  /** A request is refused exactly if neither the application nor the driver knows it. */
  lemma RefusedExactly(d: Device, setup: seq<Byte>, a: Answers)
    requires |setup| == 8
    ensures Handled(d, setup, a).None? <==> a.hook.None? && !Known(setup, a)
  {
    hide Configured, HaltCommand, Endpoint;
    Recipients(setup[0]);
    HighBit(setup[4]);
  }

  lemma HighBit(b: Byte)
    ensures b & 0x80 == 0x80 <==> b & 0x80 != 0
  {
  }

  /** What an accepted request to the device answers; those that set something answer nothing. */
  lemma DeviceAnswers(d: Device, setup: seq<Byte>, a: Answers)
    requires |setup| == 8 && a.hook.None? && setup[0] & 0x7F == DEVICE && Handled(d, setup, a).Some?
    ensures Handled(d, setup, a).value.transfer.data ==
            if setup[1] == REQ_GET_STATUS then [d.status, 0]
            else if setup[1] == REQ_GET_CONFIGURATION then [d.configuration]
            else if setup[1] == REQ_GET_DESCRIPTOR && a.descriptor.Some? then a.descriptor.value
            else []
  {
    hide Configured;
  }

  // ---------------------------------------------------------------- what a request does to the device

  /** The status with the bit of remote wakeup set. */
  function WakeupOn(status: Byte): Byte {
    status | 2
  }

  /** The status with it cleared. */
  function WakeupOff(status: Byte): Byte {
    status & 0xFD
  }

  /** A device changed by a request to the device itself. */
  predicate Changed(d: Device, setup: seq<Byte>, t: Device)
    requires |setup| == 8
  {
    var configured := if setup[1] == REQ_SET_CONFIGURATION then Configured(d, setup[2]) else d;
    && t.configuration == configured.configuration && t.state == configured.state
    && t.saved == d.saved && t.address == d.address
    && t.status == if setup[1] == REQ_SET_FEATURE && setup[2] == 1 then WakeupOn(d.status)
                   else if setup[1] == REQ_CLEAR_FEATURE && setup[2] == 1 then WakeupOff(d.status)
                   else d.status
  }

  lemma DeviceChanged(d: Device, setup: seq<Byte>, a: Answers)
    requires |setup| == 8 && DeviceHandler(d, setup, a).Some?
    ensures Changed(d, setup, DeviceHandler(d, setup, a).value.device)
  {
    hide Changed, FeatureHandler, Configured;
    var request := setup[1];
    if request == REQ_SET_CONFIGURATION {
      ConfigurationChanged(d, setup);
    } else if request == REQ_CLEAR_FEATURE || request == REQ_SET_FEATURE {
      FeatureChanged(d, setup);
    } else {
      NothingChanged(d, setup);
    }
  }

  lemma ConfigurationChanged(d: Device, setup: seq<Byte>)
    requires |setup| == 8 && setup[1] == REQ_SET_CONFIGURATION
    ensures Changed(d, setup, Configured(d, setup[2]))
  {
  }

  lemma FeatureChanged(d: Device, setup: seq<Byte>)
    requires |setup| == 8 && setup[1] in [REQ_CLEAR_FEATURE, REQ_SET_FEATURE] && FeatureHandler(d, setup).Some?
    ensures Changed(d, setup, FeatureHandler(d, setup).value.device)
  {
    hide Configured;
  }

  lemma NothingChanged(d: Device, setup: seq<Byte>)
    requires |setup| == 8 && setup[1] !in [REQ_CLEAR_FEATURE, REQ_SET_FEATURE, REQ_SET_CONFIGURATION]
    ensures Changed(d, setup, d)
  {
  }

  lemma RefusedUnchanged(d: Device, setup: seq<Byte>, a: Answers)
    requires |setup| == 8 && DeviceHandler(d, setup, a).None?
    ensures Changed(d, setup, d)
  {
  }

  /** The device but for the commands its controller has been given. */
  function Core(d: Device): Device {
    d.(issued := [])
  }

  lemma OthersUnchanged(d: Device, setup: seq<Byte>, a: Answers)
    requires |setup| == 8 && Handled(d, setup, a).Some? && (a.hook.None? ==> setup[0] & 0x7F != DEVICE)
    ensures Core(Handled(d, setup, a).value.device) == Core(d)
  {
    hide DeviceHandler, Endpoint, IsIn, HaltCommand;
  }

  lemma SetupDevice(s: State, packet: seq<Byte>, a: Answers)
    requires |packet| == 8
    ensures var d, t := s.device, SetupStep(s, packet, a).device;
            if a.hook.None? && packet[0] & 0x7F == DEVICE then Changed(d, packet, t) else Core(t) == Core(d)
  {
    hide DeviceHandler, EndpointHandler, FirstStage, Prepared, Changed, Fresh;
    Recipients(packet[0]);
    var d := s.device;
    if a.hook.None? && packet[0] & 0x7F == DEVICE {
      if DeviceHandler(d, packet, a).Some? {
        DeviceChanged(d, packet, a);
      } else {
        RefusedUnchanged(d, packet, a);
        IssuedIsApart(d, d.issued + STALL_ZERO, packet);
      }
    } else if Handled(d, packet, a).Some? {
      OthersUnchanged(d, packet, a);
    }
  }

  lemma IssuedIsApart(d: Device, issued: seq<Command>, setup: seq<Byte>)
    requires |setup| == 8 && Changed(d, setup, d)
    ensures Changed(d, setup, d.(issued := issued))
  {
  }

  lemma ConfiguredIs(d: Device, value: Byte)
    ensures var t := Configured(d, value);
            && t.saved == d.saved && t.address == d.address && t.status == d.status
            && t.configuration == (if value == 0 && !d.state.Active? then d.configuration else value)
            && t.state == if t.configuration == d.configuration then d.state
                          else if value != 0 then Active else Selected
  {
  }

  // ---------------------------------------------------------------- the configuration

  /** The value of the last SET_CONFIGURATION since the last bus reset, 0 if there is none. */
  function LastValue(es: seq<Event>): Byte {
    if es == [] then 0 else
    var e := es[|es| - 1];
    if e.BusReset? then 0
    else if Standard(e, DEVICE, REQ_SET_CONFIGURATION) then e.packet[2]
    else LastValue(es[..|es| - 1])
  }

  /** 0 is asked for while a configuration is chosen and the device is not active. */
  predicate Ignored(d: Device, value: Byte) {
    value == 0 && d.configuration != 0 && !d.state.Active?
  }

  /** The last SET_CONFIGURATION since the last bus reset was ignored. */
  predicate LastIgnored(maxPacket: nat, es: seq<Event>)
    requires maxPacket > 0
  {
    es != [] &&
    var e := es[|es| - 1];
    !e.BusReset? &&
    if Standard(e, DEVICE, REQ_SET_CONFIGURATION) then Ignored(Before(maxPacket, es, |es| - 1).device, e.packet[2])
    else LastIgnored(maxPacket, es[..|es| - 1])
  }

  /** Only a bus reset and a SET_CONFIGURATION change the configuration. */
  lemma ConfigurationStep(maxPacket: nat, s: State, e: Event)
    requires maxPacket > 0 && Inv(s.pipe) && Enabled(s, e)
    ensures Step(maxPacket, s, e).device.configuration ==
            if e.BusReset? then 0
            else if Standard(e, DEVICE, REQ_SET_CONFIGURATION) && !Ignored(s.device, e.packet[2]) then e.packet[2]
            else s.device.configuration
  {
    hide SetupStep, AfterData, Configured;
    if e.Setup? {
      SetupDevice(s, e.packet, e.answers);
      ConfiguredIs(s.device, e.packet[2]);
    }
  }

  /**
   * On every run the configuration is the value of the last SET_CONFIGURATION since
   * the last bus reset, exactly if that one was not ignored.
   */
  lemma {:induction false} ConfigurationExactly(maxPacket: nat, es: seq<Event>)
    requires maxPacket > 0 && Run(maxPacket, es).Some?
    ensures Run(maxPacket, es).value.device.configuration == LastValue(es) <==> !LastIgnored(maxPacket, es)
  {
    hide Step, Standard, Ignored, Inv;
    if es == [] {
    } else {
      var n := |es| - 1;
      ConfigurationExactly(maxPacket, es[..n]);
      NoStateMachineError(maxPacket, es[..n]);
      ConfigurationStep(maxPacket, Run(maxPacket, es[..n]).value, es[n]);
      IgnoredIsAnother(Run(maxPacket, es[..n]).value.device, es[n]);
    }
  }

  lemma IgnoredIsAnother(d: Device, e: Event)
    ensures Standard(e, DEVICE, REQ_SET_CONFIGURATION) && Ignored(d, e.packet[2]) ==> d.configuration != e.packet[2]
  {
  }

  /** And exactly then GET_CONFIGURATION is answered by that value. */
  lemma GetConfiguration(maxPacket: nat, es: seq<Event>, packet: seq<Byte>, a: Answers)
    requires maxPacket > 0 && Run(maxPacket, es).Some? && Standard(Setup(packet, a), DEVICE, REQ_GET_CONFIGURATION)
    ensures var r := Handled(Run(maxPacket, es).value.device, packet, a);
            r.Some? && |r.value.transfer.data| == 1 &&
            (r.value.transfer.data == [LastValue(es)] <==> !LastIgnored(maxPacket, es))
  {
    hide Run, LastValue, LastIgnored, Handled;
    var d := Run(maxPacket, es).value.device;
    RefusedExactly(d, packet, a);
    DeviceAnswers(d, packet, a);
    ConfigurationExactly(maxPacket, es);
  }

  // ---------------------------------------------------------------- remote wakeup

  /** The last request for remote wakeup since the last bus reset was to enable it. */
  predicate RemoteWakeup(es: seq<Event>) {
    es != [] &&
    var e := es[|es| - 1];
    !e.BusReset? &&
    (|| (Standard(e, DEVICE, REQ_SET_FEATURE) && e.packet[2] == 1)
     || (!(Standard(e, DEVICE, REQ_CLEAR_FEATURE) && e.packet[2] == 1) && RemoteWakeup(es[..|es| - 1])))
  }

  /** Only a bus reset and a request for remote wakeup change the status. */
  lemma StatusStep(maxPacket: nat, s: State, e: Event)
    requires maxPacket > 0 && Inv(s.pipe) && Enabled(s, e)
    ensures Step(maxPacket, s, e).device.status ==
            if e.BusReset? then 0
            else if Standard(e, DEVICE, REQ_SET_FEATURE) && e.packet[2] == 1 then WakeupOn(s.device.status)
            else if Standard(e, DEVICE, REQ_CLEAR_FEATURE) && e.packet[2] == 1 then WakeupOff(s.device.status)
            else s.device.status
  {
    hide SetupStep, AfterData, Configured, WakeupOn, WakeupOff;
    if e.Setup? { SetupDevice(s, e.packet, e.answers); }
  }

  lemma {:induction false} StatusExactly(maxPacket: nat, es: seq<Event>)
    requires maxPacket > 0 && Run(maxPacket, es).Some?
    ensures Run(maxPacket, es).value.device.status == if RemoteWakeup(es) then 2 else 0
  {
    hide Step, Standard, Inv;
    if es == [] {
    } else {
      var n := |es| - 1;
      StatusExactly(maxPacket, es[..n]);
      NoStateMachineError(maxPacket, es[..n]);
      StatusStep(maxPacket, Run(maxPacket, es[..n]).value, es[n]);
    }
  }

  /** On every run the device tells the host whether the last such request enabled remote wakeup. */
  lemma GetStatus(maxPacket: nat, es: seq<Event>, packet: seq<Byte>, a: Answers)
    requires maxPacket > 0 && Run(maxPacket, es).Some? && Standard(Setup(packet, a), DEVICE, REQ_GET_STATUS)
    ensures var r := Handled(Run(maxPacket, es).value.device, packet, a);
            r.Some? && r.value.transfer.data == [if RemoteWakeup(es) then 2 else 0, 0]
  {
    hide Run, RemoteWakeup, Handled;
    var d := Run(maxPacket, es).value.device;
    RefusedExactly(d, packet, a);
    DeviceAnswers(d, packet, a);
    StatusExactly(maxPacket, es);
  }

  // ---------------------------------------------------------------- halted endpoints

  /** The endpoint a request names, and its direction. */
  predicate Names(setup: seq<Byte>, ep: Byte, isIn: bool)
    requires |setup| == 8
  {
    setup[4] & 0x0F == ep && (setup[4] & 0x80 == 0x80 <==> isIn)
  }

  predicate HaltRequest(e: Event, request: Byte, ep: Byte, isIn: bool) {
    Standard(e, ENDPOINT, request) && e.packet[2] == 0 && Names(e.packet, ep, isIn)
  }

  /** The last halt request for the endpoint was to halt it. */
  predicate Halted(es: seq<Event>, ep: Byte, isIn: bool) {
    es != [] &&
    var e := es[|es| - 1];
    || HaltRequest(e, REQ_SET_FEATURE, ep, isIn)
    || (!HaltRequest(e, REQ_CLEAR_FEATURE, ep, isIn) && Halted(es[..|es| - 1], ep, isIn))
  }

  /** After these commands the endpoint is stalled. */
  predicate StalledBy(cs: seq<Command>, ep: Byte, isIn: bool) {
    cs != [] &&
    var c, before := cs[|cs| - 1], cs[..|cs| - 1];
    match c
    case StallIn(k) => (isIn && k == ep) || StalledBy(before, ep, isIn)
    case StallOut(k) => (!isIn && k == ep) || StalledBy(before, ep, isIn)
    case ClearIn(k) => !(isIn && k == ep) && StalledBy(before, ep, isIn)
    case ClearOut(k) => !(!isIn && k == ep) && StalledBy(before, ep, isIn)
  }

  lemma StalledBySnoc(cs: seq<Command>, c: Command, ep: Byte, isIn: bool)
    ensures StalledBy(cs + [c], ep, isIn) ==
            match c
            case StallIn(k) => (isIn && k == ep) || StalledBy(cs, ep, isIn)
            case StallOut(k) => (!isIn && k == ep) || StalledBy(cs, ep, isIn)
            case ClearIn(k) => !(isIn && k == ep) && StalledBy(cs, ep, isIn)
            case ClearOut(k) => !(!isIn && k == ep) && StalledBy(cs, ep, isIn)
  {
    assert (cs + [c])[..|cs|] == cs;
  }

  /** The commands of one event. */
  lemma StalledByEvent(cs: seq<Command>, d: Device, e: Event, ep: Byte, isIn: bool)
    requires ep != 0
    ensures StalledBy(cs + CommandsOf(d, e), ep, isIn) ==
            (|| HaltRequest(e, REQ_SET_FEATURE, ep, isIn)
             || (!HaltRequest(e, REQ_CLEAR_FEATURE, ep, isIn) && StalledBy(cs, ep, isIn)))
  {
    hide StalledBy, Handled;
    var more := CommandsOf(d, e);
    if e.Setup? && |e.packet| == 8 {
      RefusedExactly(d, e.packet, e.answers);
      HighBit(e.packet[4]);
    }
    if more == STALL_ZERO {
      StalledBySnoc(cs, StallIn(0), ep, isIn);
      StalledBySnoc(cs + [StallIn(0)], StallOut(0), ep, isIn);
      assert cs + STALL_ZERO == cs + [StallIn(0)] + [StallOut(0)];
    } else if more == [] {
      assert cs + [] == cs;
    } else {
      StalledBySnoc(cs, more[0], ep, isIn);
    }
  }

  /** On every run the controller has been told to stall exactly the endpoints that are halted. */
  lemma {:induction false} HaltedExactly(maxPacket: nat, es: seq<Event>, ep: Byte, isIn: bool)
    requires maxPacket > 0 && Run(maxPacket, es).Some? && ep != 0
    ensures StalledBy(Run(maxPacket, es).value.device.issued, ep, isIn) == Halted(es, ep, isIn)
  {
    hide Step, HaltRequest, Inv, CommandsOf;
    if es == [] {
    } else {
      var n := |es| - 1;
      HaltedExactly(maxPacket, es[..n], ep, isIn);
      NoStateMachineError(maxPacket, es[..n]);
      var s := Run(maxPacket, es[..n]).value;
      StepIssues(maxPacket, s, es[n]);
      StalledByEvent(s.device.issued, s.device, es[n], ep, isIn);
    }
  }

  /**
   * And if the controller does as it is told, the host is told the same: 1 of a halted
   * endpoint and 0 of any other.
   */
  lemma GetEndpointStatus(maxPacket: nat, es: seq<Event>, packet: seq<Byte>, a: Answers, ep: Byte, isIn: bool)
    requires maxPacket > 0 && Run(maxPacket, es).Some? && Standard(Setup(packet, a), ENDPOINT, REQ_GET_STATUS)
    requires ep != 0 && Names(packet, ep, isIn)
    requires Reported(packet, a) ==
             if StalledBy(Run(maxPacket, es).value.device.issued, ep, isIn) then Stalled else Operating
    ensures var r := Handled(Run(maxPacket, es).value.device, packet, a);
            r.Some? && r.value.transfer.data == [if Halted(es, ep, isIn) then 1 else 0, 0]
  {
    hide Run, Halted, StalledBy;
    HaltedExactly(maxPacket, es, ep, isIn);
    HighBit(packet[4]);
    Recipients(packet[0]);
  }

  /** The requests that are always answered by two zeroes. */
  lemma ZeroAnswers(d: Device, packet: seq<Byte>, a: Answers)
    requires var e := Setup(packet, a);
             Standard(e, INTERFACE, REQ_GET_STATUS) || Standard(e, ENDPOINT, REQ_SYNCH_FRAME)
    ensures Handled(d, packet, a) == Some(Reply(d, Transfer([0, 0], NoCallback)))
  {
    hide Configured, HaltCommand;
    Recipients(packet[0]);
  }

  // ---------------------------------------------------------------- the address

  /** The last SETUP of a run. */
  function Latest(es: seq<Event>): Option<Event> {
    if es == [] then None
    else if es[|es| - 1].Setup? then Some(es[|es| - 1])
    else Latest(es[..|es| - 1])
  }

  /** The status stage of a transfer comes to its end. */
  predicate EndsTransfer(p: Pipe, e: Event) {
    (e.InDone? && p.ep0.SendingSts?) || (e == OutDone(0) && p.ep0.WaitingSts?)
  }

  /** With its last event the run has ended the transfer of a SET_ADDRESS. */
  predicate TakesAddress(maxPacket: nat, es: seq<Event>)
    requires maxPacket > 0 && es != []
  {
    var n := |es| - 1;
    && EndsTransfer(Before(maxPacket, es, n).pipe, es[n])
    && Latest(es[..n]).Some? && Standard(Latest(es[..n]).value, DEVICE, REQ_SET_ADDRESS)
  }

  /** The address of the last SET_ADDRESS that has come to its end since the last bus reset, 0 if there is none. */
  function LastAddress(maxPacket: nat, es: seq<Event>): Byte
    requires maxPacket > 0
  {
    if es == [] || es[|es| - 1].BusReset? then 0
    else if TakesAddress(maxPacket, es) then Latest(es[..|es| - 1]).value.packet[2]
    else LastAddress(maxPacket, es[..|es| - 1])
  }

  /** A transfer under way is that of the last SETUP. */
  predicate Pending(p: Pipe, latest: Option<Event>) {
    Transferring(p) ==>
      && latest.Some? && latest.value.Setup? && latest.value.packet == p.setup
      && (p.endcb == SetAddress <==> Standard(latest.value, DEVICE, REQ_SET_ADDRESS))
  }

  lemma PendingStep(maxPacket: nat, s: State, e: Event, latest: Option<Event>)
    requires maxPacket > 0 && Inv(s.pipe) && Enabled(s, e) && Pending(s.pipe, latest)
    ensures Pending(Step(maxPacket, s, e).pipe, if e.Setup? then Some(e) else latest)
  {
    hide Length, DeviceToHost, Handled;
    if e.Setup? && Handled(s.device, e.packet, e.answers).Some? { OnlySetAddress(s.device, e.packet, e.answers); }
  }

  lemma {:induction false} PendingAlways(maxPacket: nat, es: seq<Event>)
    requires maxPacket > 0 && Run(maxPacket, es).Some?
    ensures Pending(Run(maxPacket, es).value.pipe, Latest(es))
  {
    hide Step, Inv, Pending;
    if es == [] {
      NothingPending();
    } else {
      var n := |es| - 1;
      PendingAlways(maxPacket, es[..n]);
      NoStateMachineError(maxPacket, es[..n]);
      PendingStep(maxPacket, Run(maxPacket, es[..n]).value, es[n], Latest(es[..n]));
    }
  }

  lemma NothingPending()
    ensures Pending(PLUGGED.pipe, None)
  {
  }

  /** Only a bus reset and the end of a SET_ADDRESS change the address. */
  lemma AddressStep(maxPacket: nat, s: State, e: Event)
    requires maxPacket > 0 && Inv(s.pipe) && Enabled(s, e)
    ensures var t := Step(maxPacket, s, e).device;
            t.address == if e.BusReset? then 0
                         else if EndsTransfer(s.pipe, e) && s.pipe.endcb == SetAddress then s.pipe.setup[2]
                         else s.device.address
  {
    hide SetupStep, AfterData, Changed, AsksForAddress;
    if e.Setup? {
      SetupDevice(s, e.packet, e.answers);
      SetupKeepsAddress(s, e.packet, e.answers);
    }
  }

  lemma SetupKeepsAddress(s: State, packet: seq<Byte>, a: Answers)
    requires |packet| == 8
    ensures SetupStep(s, packet, a).device.address == s.device.address
  {
    hide Configured;
    SetupDevice(s, packet, a);
    ConfiguredIs(s.device, packet[2]);
  }

  /** On every run the device's address is that of the last SET_ADDRESS that has come to its end. */
  lemma {:induction false} AddressExactly(maxPacket: nat, es: seq<Event>)
    requires maxPacket > 0 && Run(maxPacket, es).Some?
    ensures Run(maxPacket, es).value.device.address == LastAddress(maxPacket, es)
  {
    hide Step, Inv, Standard;
    if es == [] {
    } else {
      var n := |es| - 1;
      AddressExactly(maxPacket, es[..n]);
      NoStateMachineError(maxPacket, es[..n]);
      PendingAlways(maxPacket, es[..n]);
      AddressStep(maxPacket, Run(maxPacket, es[..n]).value, es[n]);
    }
  }

  // ---------------------------------------------------------------- the state of the device

  function ConfigurationOf(maxPacket: nat, es: seq<Event>): Byte
    requires maxPacket > 0
  {
    var r := Run(maxPacket, es);
    if r.Some? then r.value.device.configuration else 0
  }

  /** With its last event the run has changed the configuration. */
  predicate Reconfigures(maxPacket: nat, es: seq<Event>)
    requires maxPacket > 0 && es != []
  {
    ConfigurationOf(maxPacket, es) != ConfigurationOf(maxPacket, es[..|es| - 1])
  }

  /**
   * Where a device stands: ready after a bus reset, selected once it has an address,
   * active once it gets a configuration, selected once it loses it.
   */
  function Standing(maxPacket: nat, es: seq<Event>): UsbState
    requires maxPacket > 0
  {
    if es == [] || es[|es| - 1].BusReset? then Ready
    else if TakesAddress(maxPacket, es) then Selected
    else if !Reconfigures(maxPacket, es) then Standing(maxPacket, es[..|es| - 1])
    else if ConfigurationOf(maxPacket, es) != 0 then Active
    else Selected
  }

  /** The bus has been suspended, and nothing has ended that. */
  predicate Asleep(maxPacket: nat, es: seq<Event>)
    requires maxPacket > 0
  {
    es != [] &&
    var e := es[|es| - 1];
    && !e.BusReset? && !e.Wakeup? && !TakesAddress(maxPacket, es) && !Reconfigures(maxPacket, es)
    && (e.Suspend? || Asleep(maxPacket, es[..|es| - 1]))
  }

  /** The bus is suspended and woken in turn. */
  predicate InTurn(maxPacket: nat, es: seq<Event>)
    requires maxPacket > 0
  {
    es == [] ||
    (&& InTurn(maxPacket, es[..|es| - 1])
     && (es[|es| - 1].Suspend? ==> !Asleep(maxPacket, es[..|es| - 1]))
     && (es[|es| - 1].Wakeup? ==> Asleep(maxPacket, es[..|es| - 1])))
  }

  /** The device is where it stands, or asleep and to be woken there. */
  predicate StandsAt(d: Device, standing: UsbState, asleep: bool) {
    && standing in {Ready, Selected, Active}
    && if asleep then d.state.Suspended? && d.saved == standing else d.state == standing
  }

  lemma StateStep(maxPacket: nat, s: State, e: Event, standing: UsbState, asleep: bool)
    requires maxPacket > 0 && Inv(s.pipe) && Enabled(s, e) && StandsAt(s.device, standing, asleep)
    requires (e.Suspend? ==> !asleep) && (e.Wakeup? ==> asleep)
    ensures var t := Step(maxPacket, s, e).device;
            var taken := EndsTransfer(s.pipe, e) && s.pipe.endcb == SetAddress;
            var moved := t.configuration != s.device.configuration;
            StandsAt(t, if e.BusReset? then Ready else if taken then Selected else if !moved then standing
                        else if t.configuration != 0 then Active else Selected,
                     !e.BusReset? && !e.Wakeup? && !taken && !moved && (e.Suspend? || asleep))
  {
    hide SetupStep, AfterData, AsksForAddress, Changed;
    if e.Setup? { SetupState(s, e.packet, e.answers); }
  }

  lemma SetupState(s: State, packet: seq<Byte>, a: Answers)
    requires |packet| == 8
    ensures var d, t := s.device, SetupStep(s, packet, a).device;
            && t.saved == d.saved
            && t.state == if t.configuration == d.configuration then d.state
                          else if t.configuration != 0 then Active else Selected
  {
    hide Configured;
    SetupDevice(s, packet, a);
    ConfiguredIs(s.device, packet[2]);
  }

  /** On every run on which the bus is suspended and woken in turn the device's state is where it stands. */
  lemma {:induction false} StateExactly(maxPacket: nat, es: seq<Event>)
    requires maxPacket > 0 && Run(maxPacket, es).Some? && InTurn(maxPacket, es)
    ensures StandsAt(Run(maxPacket, es).value.device, Standing(maxPacket, es), Asleep(maxPacket, es))
  {
    hide Step, Inv, Standard, StandsAt;
    if es == [] {
      ReadyAtFirst();
    } else {
      var n := |es| - 1;
      StateExactly(maxPacket, es[..n]);
      NoStateMachineError(maxPacket, es[..n]);
      PendingAlways(maxPacket, es[..n]);
      StateStep(maxPacket, Run(maxPacket, es[..n]).value, es[n], Standing(maxPacket, es[..n]),
                Asleep(maxPacket, es[..n]));
    }
  }

  lemma ReadyAtFirst()
    ensures StandsAt(PLUGGED.device, Ready, false)
  {
  }

  /** There an active device always has a configuration. */
  lemma ActiveIsConfigured(maxPacket: nat, es: seq<Event>)
    requires maxPacket > 0 && Run(maxPacket, es).Some? && InTurn(maxPacket, es)
    ensures Run(maxPacket, es).value.device.state.Active? ==> Run(maxPacket, es).value.device.configuration != 0
  {
    StateExactly(maxPacket, es);
    StandingIsConfigured(maxPacket, es);
  }

  lemma {:induction false} StandingIsConfigured(maxPacket: nat, es: seq<Event>)
    requires maxPacket > 0 && Run(maxPacket, es).Some?
    ensures Standing(maxPacket, es).Active? ==> ConfigurationOf(maxPacket, es) != 0
  {
    hide Step, TakesAddress;
    if es == [] {
    } else {
      StandingIsConfigured(maxPacket, es[..|es| - 1]);
    }
  }

  // ---------------------------------------------------------------- two runs to beware of

  /** A standard request to the device that carries a value and no data. */
  function Request(request: Byte, value: Byte): Event {
    Setup([0, request, value, 0, 0, 0, 0, 0], Answers(None, None, Disabled, Disabled))
  }

  lemma RunSnoc(maxPacket: nat, es: seq<Event>, e: Event)
    requires maxPacket > 0 && Run(maxPacket, es).Some?
    requires var s := Run(maxPacket, es).value; |s.pipe.setup| == 8 && Enabled(s, e)
    ensures Run(maxPacket, es + [e]) == Some(Step(maxPacket, Run(maxPacket, es).value, e))
  {
    hide Step;
    assert (es + [e])[..|es|] == es;
  }

  /** A request without data: its SETUP and its status packet. */
  lemma RequestRuns(maxPacket: nat, es: seq<Event>, request: Byte, value: Byte)
    requires maxPacket > 0 && Run(maxPacket, es).Some?
    requires request == REQ_SET_ADDRESS || request == REQ_SET_CONFIGURATION
    ensures var d, r := Run(maxPacket, es).value.device, Run(maxPacket, es + [Request(request, value)] + [InDone]);
            && r.Some?
            && r.value.device == if request == REQ_SET_ADDRESS then d.(address := value, state := Selected)
                                 else Configured(d, value)
  {
    hide Run, Configured, Inv;
    NoStateMachineError(maxPacket, es);
    SetupOf(maxPacket, es);
    RunSnoc(maxPacket, es, Request(request, value));
    RequestBegins(Run(maxPacket, es).value, request, value);
    RunSnoc(maxPacket, es + [Request(request, value)], InDone);
  }

  lemma SetupOf(maxPacket: nat, es: seq<Event>)
    requires maxPacket > 0 && Run(maxPacket, es).Some?
    ensures |Run(maxPacket, es).value.pipe.setup| == 8
  {
    NoStateMachineError(maxPacket, es);
  }

  lemma RequestBegins(s: State, request: Byte, value: Byte)
    requires request == REQ_SET_ADDRESS || request == REQ_SET_CONFIGURATION
    ensures var e := Request(request, value);
            var t := SetupStep(s, e.packet, e.answers);
            && t.pipe.setup == e.packet && t.pipe.ep0.SendingSts? && t.pipe.inBusy
            && t.device == (if request == REQ_SET_ADDRESS then s.device else Configured(s.device, value))
            && t.pipe.endcb == (if request == REQ_SET_ADDRESS then SetAddress else NoCallback)
  {
    hide Configured;
  }

  /**
   * A device that is given an address while it has a configuration keeps that
   * configuration when the host asks for none, and goes on reporting it.
   */
  lemma ConfigurationSticks(maxPacket: nat)
    requires maxPacket > 0
    ensures var es := [Request(REQ_SET_CONFIGURATION, 1), InDone, Request(REQ_SET_ADDRESS, 7), InDone,
                       Request(REQ_SET_CONFIGURATION, 0), InDone];
            && Run(maxPacket, es).Some? && LastValue(es) == 0 && InTurn(maxPacket, es)
            && Run(maxPacket, es).value.device.configuration == 1 && Run(maxPacket, es).value.device.state.Selected?
  {
    hide Run;
    var c, d, f := Request(REQ_SET_CONFIGURATION, 1), Request(REQ_SET_ADDRESS, 7), Request(REQ_SET_CONFIGURATION, 0);
    RunNothing(maxPacket);
    RequestRuns(maxPacket, [], REQ_SET_CONFIGURATION, 1);
    assert [] + [c] + [InDone] == [c, InDone];
    RequestRuns(maxPacket, [c, InDone], REQ_SET_ADDRESS, 7);
    assert [c, InDone] + [d] + [InDone] == [c, InDone, d, InDone];
    RequestRuns(maxPacket, [c, InDone, d, InDone], REQ_SET_CONFIGURATION, 0);
    var es := [c, InDone, d, InDone, f, InDone];
    assert [c, InDone, d, InDone] + [f] + [InDone] == es;
    assert es[..5] == [c, InDone, d, InDone, f];
    NoTurns(maxPacket, es);
  }

  lemma RunNothing(maxPacket: nat)
    requires maxPacket > 0
    ensures Run(maxPacket, []) == Some(PLUGGED)
  {
  }

  lemma {:induction false} NoTurns(maxPacket: nat, es: seq<Event>)
    requires maxPacket > 0 && forall e | e in es :: !e.Suspend? && !e.Wakeup?
    ensures InTurn(maxPacket, es)
  {
    hide Asleep;
    if es == [] {
    } else {
      NoTurns(maxPacket, es[..|es| - 1]);
    }
  }

  /** A wakeup that follows a bus reset makes the device active without a configuration. */
  lemma StaleWakeup(maxPacket: nat)
    requires maxPacket > 0
    ensures var es := [Request(REQ_SET_CONFIGURATION, 1), InDone, Suspend, BusReset, Wakeup];
            && Run(maxPacket, es).Some? && !InTurn(maxPacket, es)
            && Run(maxPacket, es).value.device.state.Active? && Run(maxPacket, es).value.device.configuration == 0
  {
    hide Run, Inv, TakesAddress, Reconfigures;
    var c := Request(REQ_SET_CONFIGURATION, 1);
    RunNothing(maxPacket);
    RequestRuns(maxPacket, [], REQ_SET_CONFIGURATION, 1);
    assert [] + [c] + [InDone] == [c, InDone];
    SetupOf(maxPacket, [c, InDone]);
    RunSnoc(maxPacket, [c, InDone], Suspend);
    assert [c, InDone] + [Suspend] == [c, InDone, Suspend];
    RunSnoc(maxPacket, [c, InDone, Suspend], BusReset);
    var reset := [c, InDone, Suspend, BusReset];
    assert [c, InDone, Suspend] + [BusReset] == reset;
    RunSnoc(maxPacket, reset, Wakeup);
    var es := [c, InDone, Suspend, BusReset, Wakeup];
    assert reset + [Wakeup] == es && es[..4] == reset;
    assert !Asleep(maxPacket, reset);
  }
}
