/** A control transfer from the device to the host, and its data stage as the host sees it. */
module ControlRead {
  import opened Arithmetic
  import opened Bits
  import opened Streams
  import opened ControlPipe

  /** The packets of one IN transaction; an empty transaction is an empty packet. */
  function Packets(data: seq<Byte>, maxPacket: nat): seq<seq<Byte>>
    requires maxPacket > 0
    decreases |data|
  {
    if |data| <= maxPacket then [data] else [data[..maxPacket]] + Packets(data[maxPacket..], maxPacket)
  }

  function AllPackets(transactions: seq<seq<Byte>>, maxPacket: nat): seq<seq<Byte>>
    requires maxPacket > 0
  {
    if transactions == [] then [] else
    AllPackets(transactions[..|transactions| - 1], maxPacket) + Packets(transactions[|transactions| - 1], maxPacket)
  }

  /**
   * A host that wants so many bytes stops at a short packet or when it has them all:
   * here it stops exactly at the last packet, neither waiting for more nor leaving any.
   */
  predicate EndsExactly(packets: seq<seq<Byte>>, wanted: nat, maxPacket: nat) {
    packets != [] && |packets[0]| <= wanted &&
    if |packets[0]| < maxPacket || |packets[0]| == wanted then packets[1..] == []
    else EndsExactly(packets[1..], wanted - |packets[0]|, maxPacket)
  }

  /**
   * An empty packet after the data is right exactly if the data falls short of what is
   * wanted and ends with a full packet.
   */
  lemma {:induction false} ZeroPacketNeeded(data: seq<Byte>, wanted: nat, maxPacket: nat, zero: bool)
    requires maxPacket > 0 && 0 < |data| <= wanted
    ensures EndsExactly(Packets(data, maxPacket) + (if zero then [[]] else []), wanted, maxPacket) <==>
            (zero <==> |data| < wanted && |data| % maxPacket == 0)
    decreases |data|
  {
    var last: seq<seq<Byte>> := if zero then [[]] else [];
    var all := Packets(data, maxPacket) + last;
    if |data| <= maxPacket {
      assert all == [data] + last && all[1..] == last;
      if zero { assert last[1..] == []; }
      RemainderOf(|data|, maxPacket, if |data| == maxPacket then 1 else 0, if |data| == maxPacket then 0 else |data|);
    } else {
      var rest := data[maxPacket..];
      assert all == [data[..maxPacket]] + (Packets(rest, maxPacket) + last);
      assert all[1..] == Packets(rest, maxPacket) + last;
      RemainderLess(|data|, maxPacket);
      ZeroPacketNeeded(rest, wanted - maxPacket, maxPacket, zero);
    }
  }

  lemma {:induction false} PacketsCarry(data: seq<Byte>, maxPacket: nat)
    requires maxPacket > 0
    ensures Flat(Packets(data, maxPacket)) == data
    decreases |data|
  {
    if |data| <= maxPacket {
      assert [data][..0] == [] && [] + data == data;
    } else {
      PacketsCarry(data[maxPacket..], maxPacket);
      var all := Packets(data, maxPacket);
      assert all[1..] == Packets(data[maxPacket..], maxPacket);
      FlatHead(all);
    }
  }

  lemma TwoTransactions(data: seq<Byte>, maxPacket: nat, zero: bool)
    requires maxPacket > 0
    ensures AllPackets([data] + (if zero then [[]] else []), maxPacket) ==
            Packets(data, maxPacket) + (if zero then [[]] else [])
    ensures Flat(Packets(data, maxPacket) + (if zero then [[]] else [])) == Flat(Packets(data, maxPacket))
  {
    assert [data][..0] == [];
    assert AllPackets([data], maxPacket) == [] + Packets(data, maxPacket) == Packets(data, maxPacket);
    if zero {
      assert ([data] + [[]])[..1] == [data];
      assert Packets([], maxPacket) == [[]];
      FlatSnoc(Packets(data, maxPacket), []);
    } else {
      assert [data] + [] == [data];
      assert Packets(data, maxPacket) + [] == Packets(data, maxPacket);
    }
  }

  /** An empty answer to a host that wants data leaves it waiting: nothing is sent at all. */
  lemma EmptyAnswer(maxPacket: nat, s: State, packet: seq<Byte>, a: Answers)
    requires maxPacket > 0 && |packet| == 8 && DeviceToHost(packet)
    requires Handled(s.device, packet, a).Some? && Handled(s.device, packet, a).value.transfer.data == []
    ensures var t := SetupStep(s, packet, a); t.pipe.sent == [] && t.pipe.ep0.WaitingSts?
    ensures !EndsExactly(AllPackets(SetupStep(s, packet, a).pipe.sent, maxPacket), Length(packet), maxPacket)
  {
    hide Handled, Length, DeviceToHost;
  }

  // ---------------------------------------------------------------- whole transfers

  /** The IN transactions of an answer: its data, as far as they are wanted, and an empty one if that is needed. */
  function Transactions(maxPacket: nat, data: seq<Byte>, wanted: nat): (ts: seq<seq<Byte>>)
    requires maxPacket > 0
    ensures |ts| <= 2
  {
    var n := if |data| < wanted then |data| else wanted;
    if n == 0 then [] else [data[..n]] + if n < wanted && n % maxPacket == 0 then [[]] else []
  }

  /** How many OUT transactions have brought an empty packet. */
  function Empties(es: seq<Event>): nat {
    if es == [] then 0 else Empties(es[..|es| - 1]) + if es[|es| - 1] == OutDone(0) then 1 else 0
  }

  /**
   * How far the transfer is after so many IN and OUT transactions: one after the other
   * is sent, then the status packet is awaited, and if that is empty the transfer is
   * over.
   */
  predicate ReadAt(p: Pipe, ts: seq<seq<Byte>>, ins: nat, outs: nat, empties: nat) {
    && ins <= |ts| && empties <= outs <= 1 && (outs == 1 ==> ins == |ts|)
    && p.sent == ts[..if ins < |ts| then ins + 1 else |ts|]
    && (p.inBusy <==> ins < |ts|)
    && (p.outBusy <==> ins == |ts| && outs == 0)
    && p.ep0 == (if empties == 1 then WaitingSetup else if ins == |ts| then WaitingSts
                 else if ins == 0 then Tx else WaitingTx0)
  }

  /** The pipe still holds what the SETUP has prepared. */
  predicate Holds(p: Pipe, packet: seq<Byte>, data: seq<Byte>) {
    && |packet| == 8 && p.setup == packet && p.next == data
    && p.n == if |data| < Length(packet) then |data| else Length(packet)
  }

  lemma ReadBegins(maxPacket: nat, s: State, packet: seq<Byte>, a: Answers, data: seq<Byte>)
    requires maxPacket > 0 && |packet| == 8 && DeviceToHost(packet)
    requires Handled(s.device, packet, a).Some? && Handled(s.device, packet, a).value.transfer.data == data
    ensures var t := SetupStep(s, packet, a);
            && ReadAt(t.pipe, Transactions(maxPacket, data, Length(packet)), 0, 0, 0) && Holds(t.pipe, packet, data)
            && t.pipe.fault == s.pipe.fault
  {
    hide Handled, Length, DeviceToHost;
  }

  lemma ReadStep(maxPacket: nat, s: State, e: Event, packet: seq<Byte>, data: seq<Byte>, ins: nat, outs: nat,
      empties: nat)
    requires maxPacket > 0 && |s.pipe.setup| == 8 && Enabled(s, e) && !e.Setup? && !e.BusReset?
    requires Holds(s.pipe, packet, data)
    requires ReadAt(s.pipe, Transactions(maxPacket, data, Length(packet)), ins, outs, empties)
    ensures var t := Step(maxPacket, s, e);
            && ReadAt(t.pipe, Transactions(maxPacket, data, Length(packet)), ins + (if e.InDone? then 1 else 0),
                      outs + (if e.OutDone? then 1 else 0), empties + (if e == OutDone(0) then 1 else 0))
            && Holds(t.pipe, packet, data) && t.pipe.fault == s.pipe.fault
  {
    hide Length;
  }

  /**
   * Whatever the host and the bus do: an accepted request from the device to the host
   * is answered by its IN transactions, one after the other and no others, and then by
   * taking one OUT transaction; if that is empty the transfer is over.
   */
  lemma {:induction false} ReadRuns(maxPacket: nat, s: State, packet: seq<Byte>, a: Answers, data: seq<Byte>,
      es: seq<Event>)
    requires maxPacket > 0 && |packet| == 8 && DeviceToHost(packet)
    requires Handled(s.device, packet, a).Some? && Handled(s.device, packet, a).value.transfer.data == data
    requires Goes(maxPacket, SetupStep(s, packet, a), es).Some?
    ensures var t := Goes(maxPacket, SetupStep(s, packet, a), es).value;
            && ReadAt(t.pipe, Transactions(maxPacket, data, Length(packet)), Ins(es), Outs(es), Empties(es))
            && Holds(t.pipe, packet, data) && t.pipe.fault == s.pipe.fault
  {
    hide Handled, Length, DeviceToHost, SetupStep, ReadAt, Holds, Step, Transactions;
    ReadBegins(maxPacket, s, packet, a, data);
    if es == [] {
    } else {
      var before, e := es[..|es| - 1], es[|es| - 1];
      ReadRuns(maxPacket, s, packet, a, data, before);
      var r := Goes(maxPacket, SetupStep(s, packet, a), before).value;
      ReadStep(maxPacket, r, e, packet, data, Ins(before), Outs(before), Empties(before));
    }
  }

  /**
   * Whatever the length of the answer, the length asked for and the packet size, and
   * whatever happens meanwhile: once the device has nothing more to send, the host has
   * seen the end exactly when it had the shorter of the two, and those bytes.
   */
  lemma ControlReadEnds(maxPacket: nat, s: State, packet: seq<Byte>, a: Answers, data: seq<Byte>, es: seq<Event>)
    requires maxPacket > 0 && |packet| == 8 && DeviceToHost(packet)
    requires Handled(s.device, packet, a).Some? && Handled(s.device, packet, a).value.transfer.data == data
    requires data != [] && Length(packet) > 0
    requires Goes(maxPacket, SetupStep(s, packet, a), es).Some?
    requires !Goes(maxPacket, SetupStep(s, packet, a), es).value.pipe.inBusy
    ensures var wanted := Length(packet);
            var packets := AllPackets(Goes(maxPacket, SetupStep(s, packet, a), es).value.pipe.sent, maxPacket);
            EndsExactly(packets, wanted, maxPacket) &&
            Flat(packets) == data[..if |data| < wanted then |data| else wanted]
  {
    hide Handled, Length, DeviceToHost, Goes, SetupStep, Flat, Holds;
    ReadRuns(maxPacket, s, packet, a, data, es);
    var wanted := Length(packet);
    var n := if |data| < wanted then |data| else wanted;
    var zero := n < wanted && n % maxPacket == 0;
    ZeroPacketNeeded(data[..n], wanted, maxPacket, zero);
    PacketsCarry(data[..n], maxPacket);
    TwoTransactions(data[..n], maxPacket, zero);
  }
}
