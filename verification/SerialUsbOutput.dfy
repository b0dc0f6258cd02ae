/** The sending half of the serial-over-USB driver: its callbacks, and the writer's loops between them. */
module SerialUsbOutput {
  import opened Arithmetic
  import opened Bits
  import opened BufferMemory
  import opened OutputStream
  import opened Streams
  import opened OutputBuffers
  import opened Deadlines
  import opened Wakeups

  /** What of a step concerns a writer asleep on the queue: buffers released, resets and suspensions. */
  function SeenOf(s: State, e: Event): seq<Interrupt> {
    match e
    case Complete => if s.tx.Sending? && s.tx.data != [] && s.full != [] then [Put] else []
    case Configure => [Clear]
    case Suspend => [Halt]
    case Wakeup => [Resume]
    case _ => []
  }

  function Seen(k: Config, s: State, es: seq<Event>): seq<Interrupt>
    requires ConfigOk(k)
  {
    if es == [] then [] else
    var before := Run(k, s, es[..|es| - 1]);
    Seen(k, s, es[..|es| - 1]) + if before.Some? then SeenOf(before.value, es[|es| - 1]) else []
  }

  lemma SeenSnoc(k: Config, s: State, es: seq<Event>, e: Event)
    requires ConfigOk(k) && Run(k, s, es).Some?
    ensures Seen(k, s, es + [e]) == Seen(k, s, es) + SeenOf(Run(k, s, es).value, e)
  {
    assert (es + [e])[..|es|] == es;
  }

  lemma StepMakesRoom(k: Config, s: State, e: Event)
    requires ConfigOk(k) && s.part.None? && InterruptsOnly([e]) && Enabled(k, s, e) && |s.full| <= k.n
    ensures var t := Step(k, s, e);
            && t.part.None? && |t.full| <= |s.full|
            && (Put in SeenOf(s, e) || Clear in SeenOf(s, e) ==> |t.full| < k.n)
            && (Halt in SeenOf(s, e) ==> e == Suspend) && (Clear in SeenOf(s, e) ==> e == Configure)
  {
    assert e in [e];
  }

  /** Once a buffer has been released, or the queue reset, there is room for the writer that sleeps. */
  lemma {:induction false} SeenMakesRoom(k: Config, s: State, es: seq<Event>)
    requires ConfigOk(k) && s.part.None? && InterruptsOnly(es) && Run(k, s, es).Some? && |s.full| <= k.n
    ensures var t, seen := Run(k, s, es).value, Seen(k, s, es);
            && t.part.None? && |t.full| <= |s.full|
            && (Put in seen || Clear in seen ==> |t.full| < k.n)
            && (Halt in seen ==> Suspend in es) && (Clear in seen ==> Configure in es)
  {
    hide Step, Enabled, SeenOf;
    if es == [] {
    } else {
      var front, e := es[..|es| - 1], es[|es| - 1];
      assert InterruptsOnly([e]) && InterruptsOnly(front) && es == front + [e];
      SeenMakesRoom(k, s, front);
      StepMakesRoom(k, Run(k, s, front).value, e);
    }
  }

  /** A writer woken with Ok has room; one that is reset has met a suspension or a new configuration. */
  lemma SeenSettles(k: Config, s: State, es: seq<Event>)
    requires ConfigOk(k) && s.part.None? && InterruptsOnly(es) && Run(k, s, es).Some? && |s.full| <= k.n
    ensures Run(k, s, es).value.part.None?
    ensures Message(Seen(k, s, es)) == Some(Ok) ==> |Run(k, s, es).value.full| < k.n
    ensures Message(Seen(k, s, es)) == Some(Reset) ==> Suspend in es || Configure in es
  {
    hide Run, Seen;
    SeenMakesRoom(k, s, es);
    if Message(Seen(k, s, es)) == Some(Ok) { OkHeard(Seen(k, s, es)); }
    if Message(Seen(k, s, es)) == Some(Reset) { ResetHeard(Seen(k, s, es)); ClearHeard(Seen(k, s, es)); }
  }

  lemma {:induction false} StaysActive(k: Config, s: State, es: seq<Event>)
    requires ConfigOk(k) && s.active && Run(k, s, es).Some? && Suspend !in es
    ensures Run(k, s, es).value.active
  {
    if es == [] {
    } else {
      var front, e := es[..|es| - 1], es[|es| - 1];
      assert es == front + [e];
      StaysActive(k, s, front);
    }
  }

  class Output {
    const q: OutputBuffersQueue
    const maxPacket: nat
    const clock: Clock
    var active: bool         // the bus is active and the device configured
    var transmitting: bool   // the status bit of the bulk-IN endpoint
    var txbuf: int
    var txsize: nat

    /** What the controller has fetched from memory and sent, and the state of the abstract machine. */
    ghost var wire: seq<seq<Byte>>
    ghost var st: State

    ghost function Cfg(): Config {
      Config(q.bn, if q.bsize < HEADER then 0 else q.bsize - HEADER, maxPacket)
    }

    /** The bytes of the transaction under way, as they are in memory now. */
    ghost predicate InMemory(data: seq<Byte>)
      reads this, q.mem
    {
      && txsize == |data|
      && (txsize > 0 ==> 0 <= txbuf <= txbuf + txsize <= q.mem.Length)
      && (txsize > 0 ==> q.mem[..][txbuf..txbuf + txsize] == data)
    }

    ghost predicate Linked()
      reads this, q, q.mem
    {
      && q.Valid() && IsPowerOfTwo(maxPacket) && ConfigOk(Cfg())
      && st.active == active == !q.suspended && st.full == q.full && st.part == q.part && st.wire == wire
      && transmitting == st.tx.Sending? && (transmitting ==> InMemory(st.tx.data))
      && (transmitting && txsize > 0 ==> q.full != [] && q.full[0] == st.tx.data && txbuf == q.brdptr + HEADER)
    }

    ghost predicate Valid()
      reads this, q, q.mem
    {
      ConfigOk(Cfg()) && Linked() && Inv(Cfg(), st)
    }

    /** Event e has taken the abstract machine from s to where it is. */
    ghost predicate Took(s: State, e: Event)
      reads this
    {
      ConfigOk(Cfg()) && Enabled(Cfg(), s, e) && st == Step(Cfg(), s, e)
    }

    constructor (size: nat, n: nat, packet: nat)
      requires 2 <= size < 0xFFFF_FFFC && n >= 1 && IsPowerOfTwo(packet)
      ensures Valid() && fresh(q) && fresh(q.mem) && fresh(clock) && st == EMPTY.(active := false)
    {
      q := new OutputBuffersQueue(size, n);
      clock := new Clock();
      maxPacket, active, transmitting, txbuf, txsize := packet, false, false, 0, 0;
      wire, st := [], EMPTY.(active := false);
    }

    /** The bytes of the oldest buffer are at its place. */
    lemma OldestInMemory()
      requires q.Valid() && q.full != [] && txsize == |q.full[0]| && txbuf == q.brdptr + HEADER
      ensures InMemory(q.full[0])
    {
      assert Slot(q.rd, 0, q.bn) == q.rd;
    }

    // ------------------------------------------------------------ the driver's own steps

    method StartTransmit(buf: int, n: nat)
      requires !transmitting
      modifies this`transmitting, this`txbuf, this`txsize
      ensures transmitting && txbuf == buf && txsize == n
    {
      transmitting, txbuf, txsize := true, buf, n;
    }

    /** The queue's notification of a posted buffer. */
    method ObNotify()
      requires Linked()
      modifies this`transmitting, this`txbuf, this`txsize, this`st
      ensures Linked() && st == Notify(old(st))
    {
      hide OutputBuffersQueue.Valid, IsPowerOfTwo;
      if !active { return; }
      if !transmitting {
        var buf, n := q.GetFullBufferI();
        if buf != NULL {
          StartTransmit(buf, n);
          OldestInMemory();
          st := Notify(st);
        }
      }
    }

    /** The current buffer is posted and the notification follows. */
    method PostFullBuffer(size: nat)
      requires Linked() && q.part.Some? && size == |q.part.value| > 0
      modifies this`transmitting, this`txbuf, this`txsize, this`st, q, q.mem
      ensures Linked() && st == Notify(Post(old(st)))
    {
      hide OutputBuffersQueue.Valid, IsPowerOfTwo;
      q.PostCurrent(size);
      if transmitting && txsize > 0 { OldestInMemory(); }
      st := Post(st);
      ObNotify();
    }

    method SofHook()
      requires Valid()
      modifies this`transmitting, this`txbuf, this`txsize, this`st, q, q.mem
      ensures Valid() && Took(old(st), Sof)
    {
      hide Inv, OutputBuffersQueue.Valid, IsPowerOfTwo, EndpointOk, Flat, NonEmpty;
      StepKeepsInv(Cfg(), st, Sof);
      if !active || transmitting { return; }
      var flushed := q.TryFlushI();
      if flushed {
        st := Step(Cfg(), st, Sof);
        var buf, n := q.GetFullBufferI();
        StartTransmit(buf, n);
        OldestInMemory();
      }
    }

    /** The endpoint has transmitted its data: the controller clears its status bit and calls the driver. */
    method DataTransmitted()
      requires Valid() && transmitting
      modifies this`transmitting, this`txbuf, this`txsize, this`wire, this`st, q
      ensures Valid() && Took(old(st), Complete)
      ensures wire == old(wire + [if txsize == 0 then [] else q.mem[..][txbuf..txbuf + txsize]])
    {
      hide Inv, OutputBuffersQueue.Valid, IsPowerOfTwo, BitAnd, EndpointOk, Flat, NonEmpty;
      StepKeepsInv(Cfg(), st, Complete);
      wire := wire + [if txsize == 0 then [] else q.mem[..][txbuf..txbuf + txsize]];
      st := Step(Cfg(), st, Complete);
      transmitting := false;
      if txsize > 0 {
        q.ReleaseEmptyBufferI();
      }
      var buf, n := q.GetFullBufferI();
      if buf != NULL {
        StartTransmit(buf, n);
        OldestInMemory();
      } else {
        MaskIsRemainder(txsize, maxPacket);
        if txsize > 0 && BitAnd(txsize, maxPacket - 1) == 0 {
          StartTransmit(NULL, 0);
        }
      }
    }

    /** Suspension ends all waiting; transactions already started stay. */
    method SuspendHook()
      requires Valid()
      modifies this`active, this`st, q`suspended
      ensures Valid() && Took(old(st), Suspend)
    {
      hide Inv, OutputBuffersQueue.Valid, IsPowerOfTwo, EndpointOk, Flat, NonEmpty;
      StepKeepsInv(Cfg(), st, Suspend);
      active, st := false, Step(Cfg(), st, Suspend);
      q.Suspend();
    }

    method WakeupHook()
      requires Valid()
      modifies this`active, this`st, q`suspended
      ensures Valid() && Took(old(st), Wakeup)
    {
      hide Inv, OutputBuffersQueue.Valid, IsPowerOfTwo, EndpointOk, Flat, NonEmpty;
      StepKeepsInv(Cfg(), st, Wakeup);
      active, st := true, Step(Cfg(), st, Wakeup);
      q.Resume();
    }

    /** The device is configured: its endpoints start idle and the queue empty. */
    method ConfigureHook()
      requires Valid()
      modifies this`active, this`transmitting, this`wire, this`st, q
      ensures Valid() && Took(old(st), Configure)
    {
      hide Inv, OutputBuffersQueue.Valid, IsPowerOfTwo, EndpointOk, Flat, NonEmpty;
      StepKeepsInv(Cfg(), st, Configure);
      active, transmitting, wire := true, false, [];
      q.ResetI();
      q.Resume();
      st := Step(Cfg(), st, Configure);
    }

    /** Any interrupts in any order while the writer does not hold the lock. */
    method Interrupts() returns (settled: Option<Msg>, ghost es: seq<Event>)
      requires Valid()
      modifies this, q, q.mem, clock
      ensures Valid() && clock.now >= old(clock.now) && InterruptsOnly(es) && Run(Cfg(), old(st), es) == Some(st)
      ensures settled == Message(Seen(Cfg(), old(st), es))
    {
      hide Linked, Inv, Step, Run, Enabled, Message, Seen;
      settled, es := None, [];
      RunNone(Cfg(), st);
      NoneSeen(st);
      var steps: int := *;
      while steps > 0
        invariant Valid() && clock.now >= old(clock.now) && InterruptsOnly(es) && Run(Cfg(), old(st), es) == Some(st)
        invariant settled == Message(Seen(Cfg(), old(st), es))
        decreases steps
      {
        ghost var s := st;
        var seen;
        ghost var e;
        seen, e := OneInterrupt();
        SeenSnoc(Cfg(), old(st), es, e);
        if seen.Some? {
          settled := Settle(settled, seen.value);
          Snoc(false, Seen(Cfg(), old(st), es), seen.value);
        } else {
          assert Seen(Cfg(), old(st), es) + [] == Seen(Cfg(), old(st), es);
        }
        RunSnoc(Cfg(), old(st), es, e);
        es, steps := es + [e], steps - 1;
      }
    }

    lemma NoneSeen(s: State)
      requires ConfigOk(Cfg())
      ensures Message(Seen(Cfg(), s, [])) == None
    {
    }

    /** One interrupt, and what a sleeping writer sees of it. */
    method OneInterrupt() returns (seen: Option<Interrupt>, ghost e: Event)
      requires Valid()
      modifies this, q, q.mem, clock
      ensures Valid() && clock.now >= old(clock.now) && InterruptsOnly([e]) && Took(old(st), e)
      ensures SeenOf(old(st), e) == if seen.Some? then [seen.value] else []
    {
      hide Inv, Step, Run, Enabled;
      var which: int := *;
      clock.Pass();
      if which == 1 { seen, e := Some(Halt), Suspend; SuspendHook(); }
      else if which == 2 { seen, e := Some(Resume), Wakeup; WakeupHook(); }
      else if which == 3 { seen, e := Some(Clear), Configure; ConfigureHook(); }
      else if which == 4 && transmitting {
        seen, e := if txsize > 0 then Some(Put) else None, Complete;
        Releases();
        DataTransmitted();
      } else {
        seen, e := None, Sof;
        SofHook();
      }
    }

    /** A transmission that is over releases its buffer exactly if it was not empty. */
    lemma Releases()
      requires Valid() && transmitting
      ensures st.tx.Sending? && (txsize > 0 <==> st.tx.data != [] && st.full != [])
    {
    }

    // ------------------------------------------------------------ the writing thread

    lemma PartNotFull()
      requires Valid() && q.part.Some?
      ensures q.Valid() && |q.part.value| < q.bsize - HEADER
    {
    }

    /**
     * Sleeps on the queue. The thread is woken with Ok when a buffer is released, and
     * finds one: the interrupts take none in the meantime. As long as nothing settles
     * it and it is not late it sleeps, here until the next suspension.
     */
    method Sleep(timeout: nat) returns (msg: Msg, ghost es: seq<Event>, ghost z: Wakeups.Sleep)
      requires Valid() && q.part.None?
      modifies this, q, q.mem, clock
      ensures Valid() && clock.now >= old(clock.now) && q.part.None?
      ensures Run(Cfg(), old(st), es) == Some(st) && Written(es) == []
      ensures z == Wakeups.Sleep(Seen(Cfg(), old(st), es), clock.now, msg) && Slept(z, old(clock.now), timeout)
      ensures msg == Ok ==> |q.full| < q.bn
      ensures msg == Reset ==> Suspend in es || Configure in es
      ensures msg == Timeout ==> timeout != TIME_INFINITE && clock.now >= old(clock.now) + timeout
    {
      hide Inv, OutputBuffersQueue.Valid, IsPowerOfTwo, EndpointOk, Run, Written, InterruptsOnly, Seen, Message;
      var start := clock.now;
      if timeout == TIME_IMMEDIATE {
        RunNone(Cfg(), st);
        NothingSeen(st);
        return Timeout, [], Wakeups.Sleep([], start, Timeout);
      }
      var settled;
      settled, es := Interrupts();
      var late := Expired(clock, start, timeout);
      if late {
        msg := Timeout;
      } else {
        if settled.None? {
          SeenSnoc(Cfg(), old(st), es, Suspend);
          Snoc(false, Seen(Cfg(), old(st), es), Halt);
          RunSnoc(Cfg(), old(st), es, Suspend);
          InterruptsSnoc(es, Suspend);
          SuspendHook();
          es, settled := es + [Suspend], Some(Reset);
        }
        msg := settled.value;
      }
      InterruptsWriteNothing(es);
      RoomWithin();
      SeenSettles(Cfg(), old(st), es);
      z := Wakeups.Sleep(Seen(Cfg(), old(st), es), clock.now, msg);
    }

    twostate lemma RoomWithin()
      requires old(Valid())
      ensures |old(st.full)| <= q.bn && ConfigOk(Cfg())
    {
    }

    lemma NothingSeen(s: State)
      requires ConfigOk(Cfg())
      ensures Seen(Cfg(), s, []) == [] && Written([]) == []
    {
    }

    /** Waits for an empty buffer and makes it the current one. */
    method GetEmptyBuffer(timeout: nat) returns (msg: Msg, ghost es: seq<Event>, ghost naps: seq<Nap>)
      requires Valid() && q.part.None?
      modifies this, q, q.mem, clock
      ensures Valid() && clock.now >= old(clock.now)
      ensures Run(Cfg(), old(st), es) == Some(st) && Written(es) == []
      ensures msg == Ok ==> q.part == Some([])
      ensures |old(q.full)| < q.bn ==> msg == Ok
      ensures msg == Timeout ==> timeout != TIME_INFINITE && clock.now >= old(clock.now) + timeout
      ensures Once(naps, old(clock.now), timeout, |old(q.full)| < q.bn, old(q.suspended), msg)
      ensures msg == Reset ==> old(q.suspended) || Suspend in es || Configure in es
      ensures naps == [] && msg == Reset ==> q.suspended && |q.full| == q.bn
    {
      hide Inv, OutputBuffersQueue.Valid, IsPowerOfTwo, EndpointOk, Run, Written, InterruptsOnly, Slept, Seen;
      es, naps := [], [];
      RunNone(Cfg(), st);
      InterruptsWriteNothing(es);
      var full := q.IsFullI();
      while full
        invariant Valid() && q.part.None? && clock.now >= old(clock.now) && full == (|q.full| == q.bn)
        invariant |q.full| <= q.bn
        invariant Run(Cfg(), old(st), es) == Some(st) && Written(es) == [] && (|old(q.full)| < q.bn ==> !full)
        invariant full ==> naps == [] && clock.now == old(clock.now) && q.suspended == old(q.suspended)
        invariant |old(q.full)| == q.bn && naps == [] ==> full
        invariant !full ==> Once(naps, old(clock.now), timeout, |old(q.full)| < q.bn, old(q.suspended), Ok)
        decreases if full then 1 else 0
      {
        if q.suspended { return Reset, es, naps; }
        ghost var more, z;
        ghost var at, had := clock.now, q.bn - |q.full|;
        msg, more, z := Sleep(timeout);
        naps := [Nap(at, timeout, had, z)];
        RunAppend(Cfg(), old(st), es, more);
        WrittenAppend(es, more);
        es := es + more;
        if msg != Ok { return; }
        full := q.IsFullI();
      }
      q.TakeEmptyBuffer();
      RunSnoc(Cfg(), old(st), es, Acquire);
      StepKeepsInv(Cfg(), st, Acquire);
      WrittenSnoc(es, Acquire);
      es, st := es + [Acquire], Step(Cfg(), st, Acquire);
      msg := Ok;
    }

    method CopyChunk(b: seq<Byte>)
      requires Linked() && q.part.Some? && |b| <= q.bsize - HEADER - |q.part.value|
      modifies this`st, q, q.mem
      ensures Linked() && st == old(st).(part := Some(old(st).part.value + b), accepted := old(st).accepted + b)
    {
      hide OutputBuffersQueue.Valid, IsPowerOfTwo;
      q.CopyIn(b);
      if transmitting && txsize > 0 { OldestInMemory(); }
      st := st.(part := q.part, accepted := st.accepted + b);
    }

    /** One critical zone of the writer: a chunk is copied, and the buffer posted if that fills it. */
    method StoreChunk(b: seq<Byte>, ghost s: State, ghost es: seq<Event>) returns (ghost es': seq<Event>)
      requires Valid() && q.part.Some? && 1 <= |b| <= CHUNK && |b| <= q.bsize - HEADER - |q.part.value|
      requires Run(Cfg(), s, es) == Some(st)
      modifies this`transmitting, this`txbuf, this`txsize, this`st, q, q.mem
      ensures Valid() && Run(Cfg(), s, es') == Some(st) && Written(es') == Written(es) + b
    {
      hide Inv, OutputBuffersQueue.Valid, IsPowerOfTwo, EndpointOk, Run, Written, Flat, NonEmpty, InMemory;
      StepKeepsInv(Cfg(), st, Store(b));
      RunSnoc(Cfg(), s, es, Store(b));
      WrittenSnoc(es, Store(b));
      es' := es + [Store(b)];
      CopyChunk(b);
      var space := q.Space();
      if space == 0 {
        PostFullBuffer(q.bsize - HEADER);
      }
    }

    /** One byte; without a buffer in hand it is the wait for one that gives the result. */
    method PutTimeout(b: Byte, timeout: nat) returns (msg: Msg, ghost es: seq<Event>, ghost naps: seq<Nap>)
      requires Valid()
      modifies this, q, q.mem, clock
      ensures Valid() && Run(Cfg(), old(st), es) == Some(st)
      ensures Written(es) == if msg == Ok then [b] else []
      ensures old(q.part.Some? || |q.full| < q.bn) ==> msg == Ok
      ensures msg == Timeout ==> timeout != TIME_INFINITE && clock.now >= old(clock.now) + timeout
      ensures Once(naps, old(clock.now), timeout, old(q.part.Some? || |q.full| < q.bn), old(q.suspended), msg)
      ensures msg == Reset ==> old(q.suspended) || Suspend in es || Configure in es
    {
      hide Inv, OutputBuffersQueue.Valid, IsPowerOfTwo, EndpointOk, Run, Written, Linked, Slept;
      es, naps := [], [];
      RunNone(Cfg(), st);
      InterruptsWriteNothing(es);
      var current := HasCurrent();
      if !current {
        msg, es, naps := GetEmptyBuffer(timeout);
        if msg != Ok { return; }
      }
      PartNotFull();
      es := StoreChunk([b], old(st), es);
      msg := Ok;
    }

    /** Within the time window that began at tick start, a new buffer is waited for. */
    method Reacquire(timeout: nat, deadline: nat, ghost start: nat, ghost s: State, ghost es: seq<Event>,
        ghost naps: seq<Nap>)
        returns (msg: Msg, ghost es': seq<Event>, ghost naps': seq<Nap>)
      requires Valid() && q.part.None? && Run(Cfg(), s, es) == Some(st)
      requires start <= clock.now && timeout < TICKS && deadline == Plus(SystemTime(start), timeout)
      requires Napped(naps, start, timeout)
      modifies this, q, q.mem, clock
      ensures Valid() && clock.now >= old(clock.now)
      ensures Run(Cfg(), s, es') == Some(st) && Written(es') == Written(es)
      ensures msg == Ok ==> q.part == Some([])
      ensures start == old(clock.now) && |old(q.full)| < q.bn ==> msg == Ok
      ensures msg == Timeout ==> timeout != TIME_INFINITE && clock.now >= start + timeout
      ensures Napped(naps', start, timeout)
      ensures msg != Ok ==> Explains(naps', msg, start, clock.now, timeout) ||
                            (msg == Reset && old(q.suspended) && q.suspended && |q.full| == q.bn)
      ensures msg == Reset ==> old(q.suspended) || Suspend in es' || Configure in es'
      ensures (Suspend in es ==> Suspend in es') && (Configure in es ==> Configure in es')
    {
      hide Inv, OutputBuffersQueue.Valid, IsPowerOfTwo, EndpointOk, Run, Written, Linked, Plus, Minus, SystemTime,
           Step, Enabled, Napped, Slept;
      naps' := naps;
      ghost var now := clock.now;
      var nextTimeout := timeout;
      if timeout != TIME_INFINITE && timeout != TIME_IMMEDIATE {
        nextTimeout := Minus(deadline, SystemTime(clock.now));
        Remaining(start, clock.now, timeout);
        if nextTimeout > timeout { return Timeout, es, naps; }
      }
      ghost var more, asked;
      msg, more, asked := GetEmptyBuffer(nextTimeout);
      if asked != [] {
        OneMoreNap(naps, asked[0], start, timeout);
        assert asked == [asked[0]];
        naps' := naps + asked;
      }
      RunAppend(Cfg(), s, es, more);
      WrittenAppend(es, more);
      es' := es + more;
    }

    /**
     * Writes bp in chunks of at most 64 bytes, interrupts coming in between them and
     * while it waits. Whatever they do, the bytes stored are the first w of bp, in
     * order, one at least if there is room; a write without a reset gives up no
     * earlier than its timeout, and every wait for a buffer ends at the deadline. It
     * only ends short after a sleep that ended so, because its deadline has passed, or
     * for want of a buffer in a suspended queue; without a time limit, on a bus that is
     * neither suspended nor configured anew, it never does.
     */
    method WriteTimeout(bp: seq<Byte>, timeout: nat)
        returns (w: nat, ghost last: Msg, ghost es: seq<Event>, ghost naps: seq<Nap>)
      requires Valid() && bp != [] && timeout < TICKS
      modifies this, q, q.mem, clock
      ensures Valid() && Run(Cfg(), old(st), es) == Some(st)
      ensures w <= |bp| && Written(es) == bp[..w]
      ensures last == Ok <==> w == |bp|
      ensures old(q.part.Some? || |q.full| < q.bn) ==> w > 0
      ensures last == Timeout ==> timeout != TIME_INFINITE && clock.now >= old(clock.now) + timeout
      ensures Napped(naps, old(clock.now), timeout)
      ensures Limited(timeout) ==> EndAtDeadline(Waits(naps), old(clock.now), timeout)
      ensures w < |bp| ==> Explains(naps, last, old(clock.now), clock.now, timeout) ||
                           (last == Reset && q.suspended && |q.full| == q.bn)
      ensures timeout == TIME_INFINITE && old(active) && Suspend !in es && Configure !in es ==> w == |bp|
    {
      hide Inv, OutputBuffersQueue.Valid, IsPowerOfTwo, EndpointOk, Run, Written, Linked, InterruptsOnly, Plus,
        Minus, SystemTime, Step, Enabled, EndAtDeadline, Napped, Waits, Explains;
      w, es, naps := 0, [], [];
      NotSuspendedNow();
      NoNaps(clock.now, timeout);
      RunNone(Cfg(), st);
      InterruptsWriteNothing(es);
      var deadline := Plus(SystemTime(clock.now), timeout);
      ghost var start, more := clock.now, [];
      while true
        invariant Valid() && Run(Cfg(), old(st), es) == Some(st)
        invariant clock.now >= start && w < |bp| && Written(es) == bp[..w]
        invariant w == 0 ==> clock.now == start && q.full == old(q.full) && q.part == old(q.part)
        invariant Napped(naps, start, timeout)
        decreases |bp| - w
      {
        var current := HasCurrent();
        if !current {
          var msg;
          NotSuspended(old(st), es);
          msg, es, naps := Reacquire(timeout, deadline, start, old(st), es, naps);
          if Limited(timeout) { NapsEnd(naps, start, timeout); }
          last := msg;
          if msg != Ok { return; }
        }
        PartNotFull();
        var size := q.Space();
        if size > |bp| - w { size := |bp| - w; }
        if size > CHUNK { size := CHUNK; }
        es := StoreChunk(bp[w..w + size], old(st), es);
        assert bp[..w] + bp[w..w + size] == bp[..w + size];
        w := w + size;
        if Limited(timeout) { NapsEnd(naps, start, timeout); }
        if w >= |bp| { return w, Ok, es, naps; }
        var settled;
        settled, more := Interrupts();
        RunAppend(Cfg(), old(st), es, more);
        InterruptsWriteNothing(more);
        WrittenAppend(es, more);
        assert Written(es) + [] == Written(es);
        es := es + more;
      }
    }

    lemma NotSuspendedNow()
      requires Valid()
      ensures st.active == active == !q.suspended
    {
    }

    /** A queue whose bus was active, and has not been suspended since, is not suspended. */
    lemma NotSuspended(s: State, es: seq<Event>)
      requires Valid() && Run(Cfg(), s, es) == Some(st)
      ensures s.active && Suspend !in es ==> !q.suspended
    {
      if s.active && Suspend !in es { StaysActive(Cfg(), s, es); }
    }

    method FlushOutput()
      requires Valid()
      modifies this, q, q.mem
      ensures Valid() && Took(old(st), Flush)
    {
      hide Inv, OutputBuffersQueue.Valid, IsPowerOfTwo, EndpointOk, Flat, NonEmpty;
      StepKeepsInv(Cfg(), st, Flush);
      var current := q.HasCurrent();
      if current {
        var size := q.CurrentSize();
        if size > 0 { PostFullBuffer(size); }
      }
    }

    method HasCurrent() returns (b: bool)
      requires Valid()
      ensures b <==> q.part.Some?
    {
      b := q.HasCurrent();
    }

  }
}
