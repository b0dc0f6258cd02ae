/** A control transfer from the host to the device, from its SETUP to its status stage. */
module ControlWrite {
  import opened Bits
  import opened ControlPipe

  /** There is a data stage exactly if both the host and the device have a use for it. */
  function DataStages(packet: seq<Byte>, t: Transfer): nat
    requires |packet| == 8
  {
    if Length(packet) > 0 && t.data != [] then 1 else 0
  }

  /**
   * How far the transfer is after so many OUT and IN transactions: the data come first
   * if there are any, then one empty packet is sent, and with that it is over.
   */
  predicate WriteAt(p: Pipe, stages: nat, outs: nat, ins: nat) {
    && outs <= stages <= 1 && ins <= 1 && (ins == 1 ==> outs == stages)
    && p.sent == (if outs == stages then [[]] else [])
    && (p.outBusy <==> outs < stages)
    && (p.inBusy <==> outs == stages && ins == 0)
    && p.ep0 == (if ins == 1 then WaitingSetup else if outs == stages then SendingSts else Rx)
  }

  /** The device's address: the one asked for once the transfer of a SET_ADDRESS is over, before that the old one. */
  predicate AddressAt(before: Device, d: Device, packet: seq<Byte>, asked: bool, over: bool)
    requires |packet| == 8
  {
    d.address == if asked && over then packet[2] else before.address
  }

  lemma WriteBegins(s: State, packet: seq<Byte>, a: Answers)
    requires Enabled(s, Setup(packet, a)) && !DeviceToHost(packet) && Handled(s.device, packet, a).Some?
    ensures var t := SetupStep(s, packet, a);
            && WriteAt(t.pipe, DataStages(packet, Handled(s.device, packet, a).value.transfer), 0, 0)
            && t.device.address == s.device.address && t.pipe.setup == packet && t.pipe.fault == s.pipe.fault
            && (t.pipe.endcb == SetAddress <==> a.hook.None? && AsksForAddress(packet))
  {
    hide Handled, Length, DeviceToHost;
    OnlySetAddress(s.device, packet, a);
  }

  lemma WriteStep(maxPacket: nat, s: State, e: Event, stages: nat, outs: nat, ins: nat)
    requires maxPacket > 0 && |s.pipe.setup| == 8 && Enabled(s, e) && !e.Setup? && !e.BusReset?
    requires WriteAt(s.pipe, stages, outs, ins)
    ensures var t := Step(maxPacket, s, e);
            && WriteAt(t.pipe, stages, outs + (if e.OutDone? then 1 else 0), ins + (if e.InDone? then 1 else 0))
            && t.pipe.setup == s.pipe.setup && t.pipe.endcb == s.pipe.endcb && t.pipe.fault == s.pipe.fault
            && t.device.address == if e.InDone? && s.pipe.endcb == SetAddress then s.pipe.setup[2]
                                   else s.device.address
  {
  }

  /**
   * Whatever the host and the bus do: of a request from the host to the device that is
   * accepted, the data, if there are any, arrive in one OUT transaction; exactly one IN
   * transaction follows, which is empty; its completion ends the transfer, and only
   * then a SET_ADDRESS takes effect. Up to its end the transfer can always go on.
   */
  lemma {:induction false} ControlWriteEnds(maxPacket: nat, s: State, packet: seq<Byte>, a: Answers, es: seq<Event>)
    requires maxPacket > 0 && Enabled(s, Setup(packet, a)) && !DeviceToHost(packet)
    requires Handled(s.device, packet, a).Some?
    requires Goes(maxPacket, SetupStep(s, packet, a), es).Some?
    ensures var t := Goes(maxPacket, SetupStep(s, packet, a), es).value;
            && WriteAt(t.pipe, DataStages(packet, Handled(s.device, packet, a).value.transfer), Outs(es), Ins(es))
            && AddressAt(s.device, t.device, packet, a.hook.None? && AsksForAddress(packet), Ins(es) == 1)
            && t.pipe.setup == packet && t.pipe.fault == s.pipe.fault
            && (t.pipe.endcb == SetAddress <==> a.hook.None? && AsksForAddress(packet))
  {
    hide Handled, Length, DeviceToHost, SetupStep, DataStages, WriteAt, Step, AsksForAddress;
    WriteBegins(s, packet, a);
    if es == [] {
    } else {
      var before, e := es[..|es| - 1], es[|es| - 1];
      ControlWriteEnds(maxPacket, s, packet, a, before);
      var stages := DataStages(packet, Handled(s.device, packet, a).value.transfer);
      var r := Goes(maxPacket, SetupStep(s, packet, a), before).value;
      WriteStep(maxPacket, r, e, stages, Outs(before), Ins(before));
      NoMoreThanOne(Step(maxPacket, r, e).pipe, stages, Outs(es), Ins(es));
    }
  }

  lemma NoMoreThanOne(p: Pipe, stages: nat, outs: nat, ins: nat)
    requires WriteAt(p, stages, outs, ins)
    ensures ins <= 1
  {
  }

  /** Such a transfer can come to its end: by the data, if there are any, and the status packet. */
  lemma ControlWriteCanEnd(maxPacket: nat, s: State, packet: seq<Byte>, a: Answers, size: nat)
    requires maxPacket > 0 && Enabled(s, Setup(packet, a)) && !DeviceToHost(packet)
    requires Handled(s.device, packet, a).Some?
    ensures var es := if DataStages(packet, Handled(s.device, packet, a).value.transfer) == 1
                      then [OutDone(size), InDone] else [InDone];
            var t := Goes(maxPacket, SetupStep(s, packet, a), es);
            t.Some? && t.value.pipe.ep0.WaitingSetup? && t.value.pipe.sent == [[]]
  {
    hide Handled, Length, DeviceToHost, SetupStep, DataStages, Step;
    WriteBegins(s, packet, a);
    var t := SetupStep(s, packet, a);
    if DataStages(packet, Handled(s.device, packet, a).value.transfer) == 1 {
      var u := Step(maxPacket, t, OutDone(size));
      WriteStep(maxPacket, t, OutDone(size), 1, 0, 0);
      GoesOn(maxPacket, t, [], OutDone(size));
      GoesOn(maxPacket, t, [OutDone(size)], InDone);
      assert [] + [OutDone(size)] == [OutDone(size)] && [OutDone(size)] + [InDone] == [OutDone(size), InDone];
      WriteStep(maxPacket, u, InDone, 1, 1, 0);
    } else {
      GoesOn(maxPacket, t, [], InDone);
      assert [] + [InDone] == [InDone];
      WriteStep(maxPacket, t, InDone, 0, 0, 0);
    }
  }
}
