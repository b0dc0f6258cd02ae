/** The USB driver's callbacks of endpoint zero, which update its fields as the control pipe machine says. */
module UsbDriver {
  import opened Bits
  import opened ControlPipe
  import opened Streams

  /** A mask of busy endpoints, as the set of their numbers. */
  type Mask = set<nat>

  predicate Busy(mask: Mask) {
    0 in mask
  }

  /** The state structure of an endpoint's transaction: how many bytes it asks for and how many have been moved. */
  datatype Transaction = Transaction(data: seq<Byte>, size: nat, count: nat)

  /** A SET_CONFIGURATION that ends the configuration of an active device: it closes all endpoints but zero. */
  predicate Closes(d: Device, setup: seq<Byte>)
    requires |setup| == 8
  {
    AsksForConfiguration(setup) && d.state.Active? && d.configuration != setup[2]
  }

  function KeptOpen(mask: Mask, closed: bool): Mask {
    if closed then mask * {0} else mask
  }

  lemma OpenedLater(mask: Mask, closed: bool)
    ensures KeptOpen(mask - {0}, closed) - {0} == KeptOpen(mask, closed) - {0}
    ensures Busy(KeptOpen(mask, closed)) == Busy(mask)
  {
  }

  lemma Cleared(mask: Mask)
    ensures !Busy(mask - {0}) && mask - {0} - {0} == mask - {0}
  {
  }

  lemma PreparedAlready(p: Pipe, t: Transfer)
    requires |p.setup| == 8
    ensures Prepared(p.(next := t.data, n := |t.data|, endcb := t.endcb), t) == Prepared(p, t)
  {
  }

  class Driver {
    const maxPacket: nat
    var state: UsbState
    var savedState: UsbState
    var status: Byte
    var address: Byte
    var configuration: Byte
    var setup: seq<Byte>
    var ep0state: Ep0State
    var transmitting: Mask
    var receiving: Mask
    var ep0next: seq<Byte>
    var ep0n: nat
    var ep0endcb: Callback
    var inState: map<nat, Transaction>
    var outState: map<nat, Transaction>

    /** The commands given to the controller. */
    var issued: seq<Command>

    /** The IN transactions since the last SETUP, SET_ADDRESS requests and addresses set, and a failed assertion. */
    ghost var sent: seq<seq<Byte>>
    ghost var requests: nat
    ghost var addressed: nat
    ghost var fault: bool

    ghost predicate Valid()
      reads this
    {
      maxPacket > 0 && |setup| == 8 && ep0n <= |ep0next| && Sized()
    }

    /** What the transactions of endpoint zero are about: the data prepared, or an empty packet. */
    ghost predicate Sized()
      requires ep0n <= |ep0next|
      reads `ep0state, `ep0next, `ep0n, `inState, `outState
    {
      && (ep0state.Tx? ==> 0 in inState && inState[0] == Transaction(ep0next[..ep0n], ep0n, 0))
      && (ep0state.WaitingTx0? || ep0state.SendingSts? ==> 0 in inState && inState[0] == Transaction([], 0, 0))
      && (ep0state.Rx? ==> 0 in outState && outState[0] == Transaction([], ep0n, 0))
      && (ep0state.WaitingSts? ==> 0 in outState && outState[0] == Transaction([], 0, 0))
    }

    ghost function TheDevice(): Device
      reads `state, `savedState, `status, `address, `configuration, `issued
    {
      Device(state, savedState, status, address, configuration, issued)
    }

    ghost function ThePipe(): Pipe
      reads `setup, `ep0state, `transmitting, `receiving, `ep0next, `ep0n, `ep0endcb
      reads `sent, `requests, `addressed, `fault
    {
      Pipe(setup, ep0state, Busy(transmitting), Busy(receiving), ep0next, ep0n, ep0endcb, sent, requests, addressed,
          fault)
    }

    ghost function Abs(): State
      reads this
    {
      State(TheDevice(), ThePipe())
    }

    constructor (packet: nat)
      requires packet > 0
      ensures Valid() && Abs() == PLUGGED && transmitting == receiving == {}
    {
      maxPacket, state, savedState, status, address, configuration := packet, Ready, Ready, 0, 0, 0;
      setup, ep0state, transmitting, receiving := [0, 0, 0, 0, 0, 0, 0, 0], WaitingSetup, {}, {};
      ep0next, ep0n, ep0endcb, inState, outState, issued := [], 0, NoCallback, map[], map[], [];
      sent, requests, addressed, fault := [], 0, 0, false;
    }

    /** A transaction on any endpoint; its other transactions and endpoints are left alone. */
    method StartTransmitI(ep: nat, data: seq<Byte>)
      modifies this`transmitting, this`inState, this`sent, this`fault
      ensures transmitting == old(transmitting) + {ep} && inState == old(inState)[ep := Transaction(data, |data|, 0)]
      ensures fault <==> old(fault || ep in transmitting)
      ensures ep == 0 ==> ThePipe() == StartIn(old(ThePipe()), data)
      ensures ep != 0 ==> ThePipe() == old(ThePipe()).(fault := fault)
    {
      fault := fault || ep in transmitting;
      sent := if ep == 0 then sent + [data] else sent;
      transmitting := transmitting + {ep};
      inState := inState[ep := Transaction(data, |data|, 0)];
    }

    method StartReceiveI(ep: nat, n: nat)
      modifies this`receiving, this`outState, this`fault
      ensures receiving == old(receiving) + {ep} && outState == old(outState)[ep := Transaction([], n, 0)]
      ensures fault <==> old(fault || ep in receiving)
      ensures ep == 0 ==> ThePipe() == StartOut(old(ThePipe()))
      ensures ep != 0 ==> ThePipe() == old(ThePipe()).(fault := fault)
    {
      fault := fault || ep in receiving;
      receiving := receiving + {ep};
      outState := outState[ep := Transaction([], n, 0)];
    }

    method SetupTransfer(data: seq<Byte>, endcb: Callback)
      modifies this`ep0next, this`ep0n, this`ep0endcb
      ensures ep0next == data && ep0n == |data| && ep0endcb == endcb
    {
      ep0next, ep0n, ep0endcb := data, |data|, endcb;
    }

    /** The end of a configuration closes all endpoints but zero. */
    method DisableEndpointsI()
      modifies this`transmitting, this`receiving
      ensures transmitting == old(transmitting) * {0} && receiving == old(receiving) * {0}
    {
      transmitting, receiving := transmitting * {0}, receiving * {0};
    }

    method SetConfiguration(value: Byte)
      modifies this`state, this`configuration, this`transmitting, this`receiving
      ensures TheDevice() == Configured(old(TheDevice()), value)
      ensures var closed := old(state.Active? && configuration != value);
              transmitting == KeptOpen(old(transmitting), closed) && receiving == KeptOpen(old(receiving), closed)
    {
      if configuration != value {
        if state.Active? {
          DisableEndpointsI();
          configuration := 0;
          state := Selected;
        }
        if value != 0 {
          configuration := value;
          state := Active;
        }
      }
    }

    /** The outcome of handling a request is in the fields. */
    ghost predicate Shows(r: Option<Reply>, handled: bool)
      reads this
    {
      && handled == r.Some?
      && (r.Some? ==> TheDevice() == r.value.device)
      && (r.Some? ==> Transfer(ep0next, ep0endcb) == r.value.transfer && ep0n == |ep0next|)
    }

    /** Remote wakeup is enabled or disabled. */
    method DeviceFeature() returns (handled: bool)
      requires Valid() && (setup[1] == REQ_CLEAR_FEATURE || setup[1] == REQ_SET_FEATURE)
      modifies this`status, this`ep0next, this`ep0n, this`ep0endcb
      ensures Shows(FeatureHandler(old(TheDevice()), setup), handled) && (!handled ==> unchanged(this))
    {
      if setup[2] != FEATURE_DEVICE_REMOTE_WAKEUP { return false; }
      status := if setup[1] == REQ_SET_FEATURE then status | 2 else status & 0xFD;
      SetupTransfer([], NoCallback);
      handled := true;
    }

    /** The default handler: requests to the device. */
    method DeviceRequest(a: Answers) returns (handled: bool)
      requires Valid()
      modifies this`state, this`status, this`configuration, this`transmitting, this`receiving, this`ep0next,
               this`ep0n, this`ep0endcb
      ensures Shows(DeviceHandler(old(TheDevice()), setup, a), handled) && (!handled ==> unchanged(this))
      ensures var closed := setup[1] == REQ_SET_CONFIGURATION && old(state.Active? && configuration != setup[2]);
              transmitting == KeptOpen(old(transmitting), closed) && receiving == KeptOpen(old(receiving), closed)
    {
      hide Busy, Configured, FeatureHandler;
      var request := setup[1];
      if request == REQ_CLEAR_FEATURE || request == REQ_SET_FEATURE {
        handled := DeviceFeature();
        return;
      }
      handled := true;
      if request == REQ_GET_STATUS {
        SetupTransfer([status, 0], NoCallback);
      } else if request == REQ_SET_ADDRESS {
        SetupTransfer([], SetAddress);
      } else if request == REQ_GET_DESCRIPTOR && a.descriptor.Some? {
        SetupTransfer(a.descriptor.value, NoCallback);
      } else if request == REQ_GET_CONFIGURATION {
        SetupTransfer([configuration], NoCallback);
      } else if request == REQ_SET_CONFIGURATION {
        SetConfiguration(setup[2]);
        SetupTransfer([], NoCallback);
      } else {
        handled := false;
      }
    }

    /** An endpoint other than zero is stalled or cleared. */
    method EndpointFeature() returns (handled: bool)
      requires Valid() && (setup[1] == REQ_CLEAR_FEATURE || setup[1] == REQ_SET_FEATURE)
      modifies this`issued, this`ep0next, this`ep0n, this`ep0endcb
      ensures Shows(HaltHandler(old(TheDevice()), setup), handled) && (!handled ==> unchanged(this))
    {
      if setup[2] != FEATURE_ENDPOINT_HALT { return false; }
      if setup[4] & 0x0F != 0 {
        var ep, isIn := setup[4] & 0x0F, setup[4] & 0x80 != 0;
        var command := if setup[1] == REQ_CLEAR_FEATURE then if isIn then ClearIn(ep) else ClearOut(ep)
                       else if isIn then StallIn(ep) else StallOut(ep);
        issued := issued + [command];
      }
      SetupTransfer([], NoCallback);
      handled := true;
    }

    /** The default handler: requests to an endpoint. */
    method EndpointRequest(a: Answers) returns (handled: bool)
      requires Valid()
      modifies this`issued, this`ep0next, this`ep0n, this`ep0endcb
      ensures Shows(EndpointHandler(old(TheDevice()), setup, a), handled) && (!handled ==> unchanged(this))
    {
      hide HaltHandler;
      var request := setup[1];
      if request == REQ_CLEAR_FEATURE || request == REQ_SET_FEATURE {
        handled := EndpointFeature();
        return;
      }
      handled := true;
      if request == REQ_SYNCH_FRAME {
        SetupTransfer([0, 0], NoCallback);
      } else if request == REQ_GET_STATUS {
        var st := if setup[4] & 0x80 != 0 then a.statusIn else a.statusOut;
        if st.Disabled? { return false; }
        SetupTransfer([if st.Stalled? then 1 else 0, 0], NoCallback);
      } else {
        handled := false;
      }
    }

    /** The default handler of standard requests. */
    method HandleRequest(a: Answers) returns (handled: bool)
      requires Valid()
      modifies this`state, this`status, this`configuration, this`transmitting, this`receiving, this`issued,
               this`ep0next, this`ep0n, this`ep0endcb
      ensures Shows(DefaultHandler(old(TheDevice()), setup, a), handled) && (!handled ==> unchanged(this))
      ensures var closed := Closes(old(TheDevice()), setup);
              transmitting == KeptOpen(old(transmitting), closed) && receiving == KeptOpen(old(receiving), closed)
    {
      hide Busy, DeviceHandler, EndpointHandler;
      var recipient := setup[0] & 0x7F;
      if recipient == DEVICE {
        handled := DeviceRequest(a);
      } else if recipient == ENDPOINT {
        handled := EndpointRequest(a);
      } else if recipient == INTERFACE && setup[1] == REQ_GET_STATUS {
        SetupTransfer([0, 0], NoCallback);
        handled := true;
      } else {
        handled := false;
      }
    }

    /** The request is offered to the application's hook, then to the default handler. */
    method Handle(a: Answers) returns (handled: bool)
      requires Valid() && ep0state.WaitingSetup?
      modifies this`state, this`status, this`configuration, this`transmitting, this`receiving, this`issued,
               this`ep0next, this`ep0n, this`ep0endcb
      ensures Shows(Handled(old(TheDevice()), setup, a), handled) && (!handled ==> unchanged(this))
      ensures Valid()
      ensures var closed := a.hook.None? && Closes(old(TheDevice()), setup);
              transmitting == KeptOpen(old(transmitting), closed) && receiving == KeptOpen(old(receiving), closed)
    {
      hide DefaultHandler, Busy;
      handled := true;
      if a.hook.Some? {
        SetupTransfer(a.hook.value.data, a.hook.value.endcb);
      } else if setup[0] & 0x60 != 0 {
        handled := false;
      } else {
        handled := HandleRequest(a);
      }
    }

    /** What is transferred is limited to the length the host asked for. */
    method LimitTransfer()
      requires Valid() && ep0n == |ep0next| && ep0state.WaitingSetup?
      modifies this`ep0n, this`requests
      ensures Valid() && ThePipe() == Prepared(old(ThePipe()), Transfer(ep0next, ep0endcb))
    {
      hide Length, Busy;
      requests := requests + if ep0endcb == SetAddress then 1 else 0;
      var max := Length(setup);
      if ep0n > max { ep0n := max; }
    }

    /** The empty status packet is sent. */
    method SendStatus()
      requires Valid()
      modifies this`ep0state, this`transmitting, this`inState, this`sent, this`fault
      ensures Valid() && ThePipe() == StartIn(old(ThePipe()).(ep0 := SendingSts), [])
      ensures transmitting == old(transmitting) + {0}
    {
      hide StartIn;
      ep0state := SendingSts;
      StartTransmitI(0, []);
    }

    /** The empty status packet is awaited. */
    method AwaitStatus()
      requires Valid()
      modifies this`ep0state, this`receiving, this`outState, this`fault
      ensures Valid() && ThePipe() == StartOut(old(ThePipe()).(ep0 := WaitingSts))
      ensures receiving == old(receiving) + {0}
    {
      hide StartOut;
      ep0state := WaitingSts;
      StartReceiveI(0, 0);
    }

    /** The first stage of the prepared transfer begins. */
    method BeginTransfer()
      requires Valid() && ep0n == |ep0next| && ep0state.WaitingSetup?
      modifies this`ep0n, this`ep0state, this`transmitting, this`receiving, this`inState, this`outState, this`sent,
               this`requests, this`fault
      ensures Valid() && ThePipe() == FirstStage(Prepared(old(ThePipe()), Transfer(ep0next, ep0endcb)))
      ensures transmitting - {0} == old(transmitting) - {0} && receiving - {0} == old(receiving) - {0}
    {
      hide DeviceToHost, StartIn, StartOut, Busy, Prepared;
      LimitTransfer();
      if DeviceToHost(setup) {
        if ep0n != 0 {
          ep0state := Tx;
          StartTransmitI(0, ep0next[..ep0n]);
        } else {
          AwaitStatus();
        }
      } else {
        if ep0n != 0 {
          ep0state := Rx;
          StartReceiveI(0, ep0n);
        } else {
          SendStatus();
        }
      }
    }

    /** A SETUP packet is read; the controller has dropped what was outstanding on endpoint zero. */
    method Arrive(packet: seq<Byte>)
      requires Valid() && |packet| == 8
      modifies this`transmitting, this`receiving, this`sent, this`ep0state, this`setup
      ensures Valid() && ThePipe() == Fresh(old(ThePipe()), packet)
      ensures transmitting == old(transmitting) - {0} && receiving == old(receiving) - {0}
    {
      transmitting, receiving, sent := transmitting - {0}, receiving - {0}, [];
      ep0state := WaitingSetup;
      setup := packet;
    }

    /** The error response: endpoint zero is stalled in both directions. */
    method Fail()
      requires Valid()
      modifies this`issued, this`ep0state
      ensures Valid() && Abs() == Failed(old(TheDevice()), old(ThePipe())) && ep0state.Error?
    {
      issued := issued + [StallIn(0)];
      issued := issued + [StallOut(0)];
      ep0state := Error;
      assert issued == old(issued) + STALL_ZERO;
    }

    /** The callback of a SETUP packet. */
    method Ep0Setup(packet: seq<Byte>, a: Answers)
      requires Valid() && |packet| == 8
      modifies this
      ensures Valid() && Abs() == SetupStep(old(Abs()), packet, a)
      ensures var closed := a.hook.None? && Closes(old(TheDevice()), packet);
              && transmitting - {0} == KeptOpen(old(transmitting), closed) - {0}
              && receiving - {0} == KeptOpen(old(receiving), closed) - {0}
    {
      hide Handled, FirstStage, Prepared, Busy, TheDevice, Failed, Sized, Closes, KeptOpen;
      ghost var p, closed := Fresh(ThePipe(), packet), a.hook.None? && Closes(TheDevice(), packet);
      OpenedLater(transmitting, closed);
      OpenedLater(receiving, closed);
      OpenedLater(transmitting - {0}, closed);
      OpenedLater(receiving - {0}, closed);
      Arrive(packet);
      var handled := Handle(a);
      if !handled {
        Fail();
        return;
      }
      PreparedAlready(p, Transfer(ep0next, ep0endcb));
      BeginTransfer();
    }

    method InvokeEndCallback()
      requires Valid()
      modifies this`address, this`state, this`addressed, this`ep0state
      ensures Valid() && Abs() == Finished(old(Abs()))
    {
      if ep0endcb == SetAddress {
        address := setup[2];
        state := Selected;
        addressed := addressed + 1;
      }
      ep0state := WaitingSetup;
    }

    method DataSent()
      requires Valid() && (ep0state.Tx? || ep0state.WaitingTx0?)
      modifies this`ep0state, this`transmitting, this`receiving, this`inState, this`outState, this`sent, this`fault
      ensures Valid() && ThePipe() == AfterData(maxPacket, old(ThePipe()))
      ensures transmitting - {0} == old(transmitting) - {0} && receiving - {0} == old(receiving) - {0}
    {
      hide Length, StartIn, StartOut;
      var max := Length(setup);
      if ep0state.Tx? && ep0n < max && ep0n % maxPacket == 0 {
        StartTransmitI(0, []);
        ep0state := WaitingTx0;
        return;
      }
      AwaitStatus();
    }

    /** The callback of a completed IN transaction, after the controller has cleared the busy bit. */
    method Ep0In()
      requires Valid()
      modifies this
      ensures Valid() && Abs() == InStep(maxPacket, old(Abs()))
      ensures transmitting - {0} == old(transmitting) - {0} && receiving - {0} == old(receiving) - {0}
    {
      hide AfterData, Finished, Failed, Busy, TheDevice;
      Cleared(transmitting);
      transmitting := transmitting - {0};
      if ep0state.Tx? || ep0state.WaitingTx0? {
        DataSent();
      } else if ep0state.SendingSts? {
        InvokeEndCallback();
      } else {
        fault := fault || !ep0state.Error?;
        Fail();
      }
    }

    /** The callback of a completed OUT transaction. */
    method Ep0Out(size: nat)
      requires Valid()
      modifies this
      ensures Valid() && Abs() == OutStep(old(Abs()), size)
      ensures transmitting - {0} == old(transmitting) - {0} && receiving - {0} == old(receiving) - {0}
    {
      hide StartIn, StartOut, Finished, Failed, Busy, TheDevice;
      Cleared(receiving);
      receiving := receiving - {0};
      if ep0state.Rx? {
        SendStatus();
      } else if ep0state.WaitingSts? {
        if size != 0 { return; }
        InvokeEndCallback();
      } else {
        fault := fault || !ep0state.Error?;
        Fail();
      }
    }

    method ResetDevice()
      modifies this`state, this`status, this`address, this`configuration
      ensures TheDevice() == old(TheDevice()).(state := Ready, status := 0, address := 0, configuration := 0)
      ensures ThePipe() == old(ThePipe())
    {
      hide ThePipe;
      state, status, address, configuration := Ready, 0, 0, 0;
    }

    method Reset()
      requires Valid()
      modifies this`state, this`status, this`address, this`configuration, this`transmitting, this`receiving,
               this`ep0state
      ensures Valid() && Abs() == ResetStep(old(Abs()))
      ensures transmitting == receiving == {}
    {
      hide TheDevice;
      ResetDevice();
      transmitting, receiving, ep0state := {}, {}, WaitingSetup;
    }

    method SuspendBus()
      requires Valid()
      modifies this`state, this`savedState
      ensures Abs() == Step(maxPacket, old(Abs()), Suspend)
    {
      savedState := state;
      state := Suspended;
    }

    method WakeupBus()
      requires Valid()
      modifies this`state
      ensures Abs() == Step(maxPacket, old(Abs()), Wakeup)
    {
      state := savedState;
    }
  }
}
