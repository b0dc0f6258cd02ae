/** The receiving half of the serial-over-USB driver: its callbacks, and the reader's loops between them. */
module SerialUsbInput {
  import opened Bits
  import opened BufferMemory
  import opened InputStream
  import opened InputBuffers
  import opened Deadlines
  import opened Streams
  import opened Wakeups

  /** What of a step concerns a thread asleep on the queue. */
  function SeenOf(e: Event): seq<Interrupt> {
    match e
    case Received(_) => [Put]
    case Configure => [Clear]
    case Suspend => [Halt]
    case Wakeup => [Resume]
    case _ => []
  }

  function Seen(es: seq<Event>): seq<Interrupt> {
    if es == [] then [] else Seen(es[..|es| - 1]) + SeenOf(es[|es| - 1])
  }

  lemma SeenSnoc(es: seq<Event>, e: Event)
    ensures Seen(es + [e]) == Seen(es) + SeenOf(e)
  {
    assert (es + [e])[..|es|] == es;
  }

  lemma {:induction false} SeenAppend(a: seq<Event>, b: seq<Event>)
    ensures Seen(a + b) == Seen(a) + Seen(b)
    decreases |b|
  {
    hide SeenOf;
    if b == [] {
      assert a + b == a;
    } else {
      var n := |b| - 1;
      assert (a + b)[..|a + b| - 1] == a + b[..n] && (a + b)[|a + b| - 1] == b[n];
      SeenAppend(a, b[..n]);
      Associative(Seen(a), Seen(b[..n]), SeenOf(b[n]));
    }
  }

  lemma Associative(x: seq<Interrupt>, y: seq<Interrupt>, z: seq<Interrupt>)
    ensures x + y + z == x + (y + z)
  {
  }

  lemma NoneSeen()
    ensures Seen([]) == []
  {
  }

  /** The sleeping thread is reset when the device is configured anew or suspended, and only then. */
  lemma {:induction false} SeenClear(es: seq<Event>)
    ensures (Clear in Seen(es) <==> Configure in es) && (Halt in Seen(es) <==> Suspend in es)
  {
    hide SeenOf;
    if es == [] {
    } else {
      var front, e := es[..|es| - 1], es[|es| - 1];
      SeenClear(front);
      ClearOf(e);
      assert Configure in es <==> Configure in front || e == Configure;
      assert Suspend in es <==> Suspend in front || e == Suspend;
    }
  }

  lemma ClearOf(e: Event)
    ensures (Clear in SeenOf(e) <==> e == Configure) && (Halt in SeenOf(e) <==> e == Suspend)
  {
  }

  lemma EventTells(k: Config, s: State, e: Event) returns (i: Interrupt)
    requires InterruptsOnly([e]) && Enabled(k, s, e)
    ensures var t := Step(k, s, e);
            && SeenOf(e) == [i]
            && (t.full != []) == (if i.Put? then true else if i.Clear? then false else s.full != [])
            && !t.active == (if i.Put? then !s.active else i.Halt?)
  {
    assert e in [e];
    i := SeenOf(e)[0];
  }

  /** What the thread hears tells it whether a buffer is there, and whether the queue is suspended. */
  lemma {:induction false} SeenTells(k: Config, s: State, es: seq<Event>)
    requires InterruptsOnly(es) && Run(k, s, es).Some?
    ensures var t := Run(k, s, es).value;
            Filled(s.full != [], Seen(es)) == (t.full != []) && Halted(!s.active, Seen(es)) == !t.active
  {
    hide Step, Enabled, SeenOf, Message;
    if es == [] {
    } else {
      var front, e := es[..|es| - 1], es[|es| - 1];
      assert InterruptsOnly([e]) && InterruptsOnly(front);
      SeenTells(k, s, front);
      var i := EventTells(k, Run(k, s, front).value, e);
      Snoc(s.full != [], Seen(front), i);
      Snoc(!s.active, Seen(front), i);
    }
  }

  /**
   * It happens: a buffer comes in, the device is configured anew, and the thread runs
   * at tick 7 of a wait of 10. It waits again until tick 17.
   */
  lemma LateRead(k: Config, d: seq<Byte>)
    requires ConfigOk(k) && 0 < |d| <= k.cap
    ensures var es := [Received(d), Configure];
            var t := Turn(0, 10, false, false, [Wakeups.Sleep(Seen(es), 7, Ok), Wakeups.Sleep([], 17, Timeout)]);
            && Run(k, LISTENING, es).Some? && Run(k, LISTENING, es).value.full == []
            && Looped(t) && Over(t) && Asked(t) == [Wait(0, 10), Wait(7, 10)] && !EndAt(Asked(t), 10)
  {
    hide Seen, Message, Filled, Halted;
    var es := [Received(d), Configure];
    RunNone(k, LISTENING);
    RunSnoc(k, LISTENING, [], Received(d));
    RunSnoc(k, LISTENING, [] + [Received(d)], Configure);
    SeenSnoc([], Received(d));
    SeenSnoc([] + [Received(d)], Configure);
    NoneSeen();
    assert [] + [Received(d)] + [Configure] == es && [] + [Put] + [Clear] == [Put, Clear];
    PutAndClear();
    var t := Turn(0, 10, false, false, []);
    NoSleeps(t);
    OneMoreSleep(t, Wakeups.Sleep([Put, Clear], 7, Ok));
    t := t.(sleeps := [] + [Wakeups.Sleep([Put, Clear], 7, Ok)]);
    OneMoreSleep(t, Wakeups.Sleep([], 17, Timeout));
    t := t.(sleeps := t.sleeps + [Wakeups.Sleep([], 17, Timeout)]);
    assert t.sleeps == [Wakeups.Sleep(Seen(es), 7, Ok), Wakeups.Sleep([], 17, Timeout)];
    assert Asked(t)[1] == Wait(7, 10);
  }

  class Input {
    const q: InputBuffersQueue
    const clock: Clock
    var active: bool      // the bus is active and the device configured
    var receiving: bool   // the status bit of the bulk-OUT endpoint
    var rxbuf: int

    /** The state of the abstract machine. */
    ghost var st: State

    ghost function Cfg(): Config {
      Config(q.bn, if q.bsize < HEADER then 0 else q.bsize - HEADER)
    }

    ghost predicate Linked()
      reads this, q, q.mem
    {
      && q.Valid() && ConfigOk(Cfg())
      && st.active == active == !q.suspended && st.full == q.full && st.cur == q.cur && st.receiving == receiving
      && (receiving ==> |q.full| < q.bn && rxbuf == q.bwrptr + HEADER && q.bwrptr + q.bsize <= q.mem.Length)
    }

    ghost predicate Valid()
      reads this, q, q.mem
    {
      ConfigOk(Cfg()) && Linked() && Inv(Cfg(), st)
    }

    /** Event e has taken the abstract machine from s to where it is. */
    ghost predicate Took(s: State, e: Event)
      reads this
    {
      Enabled(Cfg(), s, e) && st == Step(Cfg(), s, e)
    }

    constructor (size: nat, n: nat)
      requires 2 <= size < 0xFFFF_FFFC && n >= 1
      ensures Valid() && fresh(q) && fresh(q.mem) && fresh(clock)
      ensures st == LISTENING.(active := false, receiving := false)
    {
      q := new InputBuffersQueue(size, n);
      clock := new Clock();
      active, receiving, rxbuf := false, false, NULL;
      st := LISTENING.(active := false, receiving := false);
    }

    // ------------------------------------------------------------ the driver's own steps

    /** A new reception is started if that is possible. */
    method StartReceiving()
      requires Linked()
      modifies this`receiving, this`rxbuf, this`st
      ensures Linked() && st == StartReceive(Cfg(), old(st))
    {
      hide InputBuffersQueue.Valid;
      if !active { return; }
      if receiving { return; }
      var buf := q.GetEmptyBufferI();
      if buf == NULL { return; }
      receiving, rxbuf := true, buf;
      st := StartReceive(Cfg(), st);
    }

    /** The controller stores received bytes in memory, at any time and in any pieces. */
    method ControllerStores(at: nat, b: seq<Byte>)
      requires Valid() && receiving && rxbuf <= at && at + |b| <= rxbuf + (q.bsize - HEADER)
      modifies q.mem
      ensures Valid() && q.mem[..][at..at + |b|] == b
    {
      hide InputBuffersQueue.Valid;
      q.FillEmptyBuffer(at, b);
    }

    /** A transfer into the buffer is over; the driver takes what is in memory by now. */
    method DataReceived(size: nat)
      requires Valid() && receiving && 0 < size <= q.bsize - HEADER
      modifies this`receiving, this`rxbuf, this`st, q, q.mem
      ensures Valid() && Took(old(st), Received(old(q.mem[..][rxbuf..rxbuf + size])))
    {
      hide Inv, InputBuffersQueue.Valid, Flat;
      ghost var d := q.mem[..][rxbuf..rxbuf + size];
      StepKeepsInv(Cfg(), st, Received(d));
      receiving := false;
      q.PostFullBufferI(size);
      st := st.(full := st.full + [d], received := st.received + [d], receiving := false);
      StartReceiving();
    }

    method SuspendHook()
      requires Valid()
      modifies this`active, this`st, q`suspended
      ensures Valid() && Took(old(st), Suspend)
    {
      hide Inv, InputBuffersQueue.Valid, Flat;
      StepKeepsInv(Cfg(), st, Suspend);
      active, st := false, Step(Cfg(), st, Suspend);
      q.Suspend();
    }

    method WakeupHook()
      requires Valid()
      modifies this`active, this`st, q`suspended
      ensures Valid() && Took(old(st), Wakeup)
    {
      hide Inv, InputBuffersQueue.Valid, Flat;
      StepKeepsInv(Cfg(), st, Wakeup);
      active, st := true, Step(Cfg(), st, Wakeup);
      q.Resume();
    }

    /** The device is configured: its endpoints start idle, the queue empty, and reception begins. */
    method ConfigureHook()
      requires Valid()
      modifies this`active, this`receiving, this`rxbuf, this`st, q
      ensures Valid() && Took(old(st), Configure)
    {
      hide Inv, InputBuffersQueue.Valid, Flat;
      StepKeepsInv(Cfg(), st, Configure);
      active, receiving := true, false;
      q.ResetI();
      q.Resume();
      st := LISTENING.(receiving := false);
      StartReceiving();
    }

    /**
     * Any interrupts in any order, and any stores of the controller, while the reader
     * does not hold the lock; a new configuration only if resets are to come.
     */
    method Interrupts(resets: bool) returns (settled: Option<Msg>, ghost es: seq<Event>)
      requires Valid()
      modifies this, q, q.mem, clock
      ensures Valid() && clock.now >= old(clock.now) && InterruptsOnly(es) && Run(Cfg(), old(st), es) == Some(st)
      ensures settled == Message(Seen(es)) && (!resets ==> Configure !in es)
    {
      hide Inv, Step, Run, Enabled, InputBuffersQueue.Valid, Message, Seen;
      settled, es := None, [];
      NothingSeen();
      RunNone(Cfg(), st);
      var steps: int := *;
      while steps > 0
        invariant Valid() && clock.now >= old(clock.now) && InterruptsOnly(es) && Run(Cfg(), old(st), es) == Some(st)
        invariant settled == Message(Seen(es)) && (!resets ==> Configure !in es)
        decreases steps
      {
        var which: int := *;
        clock.Pass();
        ghost var e := None;
        var seen := None;
        if which == 0 { e, seen := Some(Suspend), Some(Halt); SuspendHook(); }
        else if which == 1 { e, seen := Some(Wakeup), Some(Resume); WakeupHook(); }
        else if which == 2 && resets { e, seen := Some(Configure), Some(Clear); ConfigureHook(); }
        else if receiving {
          if which == 3 {
            var size: int :| 0 < size <= q.bsize - HEADER;
            e, seen := Some(Received(q.mem[..][rxbuf..rxbuf + size])), Some(Put);
            DataReceived(size);
          } else {
            Traffic();
          }
        }
        if seen.Some? {
          settled := Settle(settled, seen.value);
          SeenSnoc(es, e.value);
          Snoc(false, Seen(es), seen.value);
          RunSnoc(Cfg(), old(st), es, e.value);
          es := es + [e.value];
        }
        steps := steps - 1;
      }
    }

    lemma NothingSeen()
      ensures Message(Seen([])) == None
    {
    }

    method Traffic()
      requires Valid() && receiving
      modifies q.mem
      ensures Valid()
    {
      hide InputBuffersQueue.Valid, Inv;
      var at: int :| rxbuf <= at <= rxbuf + (q.bsize - HEADER);
      var b: seq<Byte> := *;
      if at + |b| <= rxbuf + (q.bsize - HEADER) { ControllerStores(at, b); }
    }

    // ------------------------------------------------------------ the reading thread

    lemma CurrentNotRead()
      requires Valid() && q.cur.Some?
      ensures q.Valid() && q.full != [] && q.cur.value < |q.full[0]|
    {
    }

    /**
     * Sleeps on the queue. Woken with Ok when a buffer is posted, the thread finds
     * one, unless a reset has come in between. As long as nothing settles it and it is
     * not late it sleeps, here until the next suspension.
     */
    method Sleep(timeout: nat, resets: bool) returns (msg: Msg, ghost es: seq<Event>, ghost z: Wakeups.Sleep)
      requires Valid() && q.cur.None? && q.full == [] && !q.suspended
      modifies this, q, q.mem, clock
      ensures Valid() && clock.now >= old(clock.now) && q.cur.None?
      ensures Run(Cfg(), old(st), es) == Some(st) && Taken(es) == []
      ensures z == Wakeups.Sleep(Seen(es), clock.now, msg) && Slept(z, old(clock.now), timeout)
      ensures Filled(false, z.es) == (q.full != []) && Halted(false, z.es) == q.suspended
      ensures msg == Ok && q.full == [] ==> resets && Configure in es
      ensures Configure !in es ==> !Overtaken(z)
      ensures msg == Reset ==> Suspend in es || Configure in es
      ensures msg == Timeout ==> timeout != TIME_INFINITE && clock.now >= old(clock.now) + timeout
    {
      hide Inv, InputBuffersQueue.Valid, Run, Taken, InterruptsOnly, Seen, Message, Filled, Halted;
      var start := clock.now;
      if timeout == TIME_IMMEDIATE {
        RunNone(Cfg(), st);
        InterruptsTakeNothing([]);
        NothingHeard();
        return Timeout, [], Wakeups.Sleep([], start, Timeout);
      }
      var settled;
      settled, es := Interrupts(resets);
      var late := Expired(clock, start, timeout);
      if late {
        msg := Timeout;
      } else {
        if settled.None? {
          SeenSnoc(es, Suspend);
          Snoc(false, Seen(es), Halt);
          RunSnoc(Cfg(), old(st), es, Suspend);
          InterruptsSnoc(es, Suspend);
          SuspendHook();
          es, settled := es + [Suspend], Some(Reset);
        }
        msg := settled.value;
      }
      InterruptsTakeNothing(es);
      InterruptsOpenNothing(Cfg(), old(st), es);
      SeenTells(Cfg(), old(st), es);
      z := Wakeups.Sleep(Seen(es), clock.now, msg);
      SeenClear(es);
      if Configure !in es { NotOvertaken(z); }
      if msg == Reset {
        ResetHeard(z.es);
        ClearHeard(z.es);
      }
    }

    /** One more sleep of a turn. */
    method SleepOnce(timeout: nat, resets: bool, ghost s: State, ghost es: seq<Event>, ghost turn: Turn)
        returns (msg: Msg, ghost es': seq<Event>, ghost turn': Turn, ghost z: Wakeups.Sleep)
      requires Valid() && q.cur.None? && q.full == [] && !q.suspended && Run(Cfg(), s, es) == Some(st)
      requires Looped(turn) && turn.ticks == timeout && Begun(turn, |turn.sleeps|) == clock.now
      requires (turn.sleeps != [] ==> GoesOn(turn.sleeps[|turn.sleeps| - 1])) && Seen(es) == Heard(turn.sleeps)
      requires !turn.found && !turn.halted
      modifies this, q, q.mem, clock
      ensures Valid() && clock.now >= old(clock.now) && q.cur.None?
      ensures Run(Cfg(), s, es') == Some(st) && Taken(es') == Taken(es) && Seen(es') == Heard(turn'.sleeps)
      ensures Looped(turn') && Begun(turn', |turn'.sleeps|) == clock.now
      ensures turn' == turn.(sleeps := turn.sleeps + [z]) && (Configure !in es' ==> !GoesOn(z))
      ensures GoesOn(z) <==> msg == Ok && q.full == [] && !q.suspended
      ensures (Configure !in es' ==> Configure !in es) && (msg == Ok && q.full == [] ==> resets)
      ensures z.msg == msg && (Overtaken(z) <==> msg == Ok && q.full == [])
      ensures Suspend !in es' ==> Suspend !in es
      ensures msg == Reset || Overtaken(z) ==> Suspend in es' || Configure in es'
      ensures msg == Timeout ==> timeout != TIME_INFINITE && clock.now >= old(clock.now) + timeout
    {
      hide Inv, InputBuffersQueue.Valid, Run, Taken, Seen, Looped, Slept, Filled, Halted;
      ghost var more;
      msg, more, z := Sleep(timeout, resets);
      RunAppend(Cfg(), s, es, more);
      TakenAppend(es, more);
      SeenAppend(es, more);
      OneMoreSleep(turn, z);
      HeardSnoc(turn.sleeps, z);
      es', turn' := es + more, turn.(sleeps := turn.sleeps + [z]);
    }

    /**
     * Waits for a full buffer and makes it the current one. Resets may overtake the
     * thread any number of times; it then waits again, for as long as the first time.
     * All its waits end where the first does exactly if no thread that is overtaken,
     * and waits again, runs later than it was called.
     */
    method GetFullBuffer(timeout: nat) returns (msg: Msg, ghost es: seq<Event>, ghost turn: Turn)
      requires Valid() && q.cur.None?
      modifies this, q, q.mem, clock
      ensures Valid() && clock.now >= old(clock.now)
      ensures Run(Cfg(), old(st), es) == Some(st) && Taken(es) == []
      ensures msg == Ok ==> q.cur.Some?
      ensures old(q.full) != [] ==> msg == Ok && turn.sleeps == []
      ensures msg == Timeout ==> timeout != TIME_INFINITE && clock.now >= old(clock.now) + timeout
      ensures turn.computed == old(clock.now) && turn.ticks == timeout && Looped(turn) && Over(turn)
      ensures turn.found == old(q.full != []) && turn.halted == old(q.suspended) && msg == Returned(turn)
      ensures msg == Reset ==> old(q.suspended) || Suspend in es || Configure in es
      ensures EndAt(Asked(turn), old(clock.now) + timeout) <==>
              forall z | z in turn.sleeps :: GoesOn(z) ==> z.now == old(clock.now)
      ensures Seen(es) == Heard(turn.sleeps)
      ensures Configure !in es ==> forall z | z in turn.sleeps :: !GoesOn(z)
    {
      hide Inv, InputBuffersQueue.Valid, Run, Taken, Seen, Heard, Looped, GoesOn, Overtaken, EndAt,
           Asked, Step, Enabled;
      es, turn := [], Turn(clock.now, timeout, q.full != [], q.suspended, []);
      RunNone(Cfg(), st);
      InterruptsTakeNothing(es);
      NoSleeps(turn);
      NothingHeard();
      var resets: nat :| true;
      var empty := q.IsEmptyI();
      while empty
        invariant Valid() && q.cur.None? && clock.now >= old(clock.now) && empty == (q.full == [])
        invariant Run(Cfg(), old(st), es) == Some(st) && Taken(es) == []
        invariant old(q.full) != [] ==> !empty && turn.sleeps == []
        invariant turn.computed == old(clock.now) && turn.ticks == timeout && Looped(turn)
        invariant turn.found == old(q.full != []) && turn.halted == old(q.suspended)
        invariant turn.sleeps == [] ==> empty == !turn.found && q.suspended == turn.halted
        invariant turn.sleeps != [] ==> !turn.found && !turn.halted && Returned(turn) == if empty then Reset else Ok
        invariant turn.sleeps != [] && empty ==> Suspend in es || Configure in es
        invariant Begun(turn, |turn.sleeps|) == clock.now && Seen(es) == Heard(turn.sleeps)
        invariant turn.sleeps != [] ==> (GoesOn(turn.sleeps[|turn.sleeps| - 1]) <==> empty && !q.suspended)
        invariant Configure !in es ==> forall z | z in turn.sleeps :: !GoesOn(z)
        decreases if empty then 1 + resets else 0
      {
        if q.suspended {
          LateExactly(turn);
          return Reset, es, turn;
        }
        ghost var z;
        msg, es, turn, z := SleepOnce(timeout, resets > 0, old(st), es, turn);
        assert turn.sleeps[|turn.sleeps| - 1] == z;
        if msg != Ok {
          LateExactly(turn);
          return;
        }
        empty := q.IsEmptyI();
        if resets > 0 { resets := resets - 1; }
      }
      LateExactly(turn);
      es := OpenBuffer(old(st), es);
      msg := Ok;
    }

    method OpenBuffer(ghost s: State, ghost es: seq<Event>) returns (ghost es': seq<Event>)
      requires Valid() && q.cur.None? && q.full != [] && Run(Cfg(), s, es) == Some(st)
      modifies this`st, q
      ensures Valid() && q.cur.Some? && es' == es + [Open]
      ensures Run(Cfg(), s, es') == Some(st) && Taken(es') == Taken(es) && Seen(es') == Seen(es)
    {
      hide Inv, InputBuffersQueue.Valid, Run, Taken, Seen;
      q.TakeFullBuffer();
      RunSnoc(Cfg(), s, es, Open);
      StepKeepsInv(Cfg(), st, Open);
      TakenSnoc(es, Open);
      SeenSnoc(es, Open);
      assert Seen(es) + [] == Seen(es);
      es', st := es + [Open], Step(Cfg(), st, Open);
    }

    lemma NothingHeard()
      ensures Seen([]) == [] == Heard([])
      ensures !Filled(false, []) && !Halted(false, [])
    {
    }

    /** A read-out buffer is returned and reception may start again. */
    method Release()
      requires Linked() && q.full != []
      modifies this`receiving, this`rxbuf, this`st, q
      ensures Linked() && st == StartReceive(Cfg(), old(st).(full := old(st).full[1..], cur := None))
    {
      hide InputBuffersQueue.Valid;
      q.ReleaseEmptyBuffer();
      st := st.(full := st.full[1..], cur := None);
      StartReceiving();
    }

    /** One critical zone of the reader: a chunk is copied, and the buffer released if that empties it. */
    method TakeChunk(size: nat, ghost s: State, ghost es: seq<Event>) returns (b: seq<Byte>, ghost es': seq<Event>)
      requires Valid() && q.cur.Some? && 1 <= size <= CHUNK && size <= |q.full[0]| - q.cur.value
      requires Run(Cfg(), s, es) == Some(st)
      modifies this`receiving, this`rxbuf, this`st, q
      ensures Valid() && Run(Cfg(), s, es') == Some(st) && Taken(es') == Taken(es) + b && |b| == size
      ensures es <= es'
    {
      hide Inv, InputBuffersQueue.Valid, Run, Taken, Flat;
      CurrentNotRead();
      ghost var p := q.cur.value;
      b := q.CopyOut(size);
      assert |b| == size && st.full[0][p..p + |b|] == b;
      StepKeepsInv(Cfg(), st, Take(b));
      RunSnoc(Cfg(), s, es, Take(b));
      TakenSnoc(es, Take(b));
      es' := es + [Take(b)];
      st := st.(cur := q.cur, delivered := st.delivered + b);
      var left := q.Left();
      if left == 0 { Release(); }
    }

    /** The next byte; the waits are those for a buffer, if the reader holds none, and so is the result. */
    method GetTimeout(timeout: nat) returns (msg: Msg, b: Byte, ghost es: seq<Event>, ghost turn: Turn)
      requires Valid()
      modifies this, q, q.mem, clock
      ensures Valid() && Run(Cfg(), old(st), es) == Some(st)
      ensures Taken(es) == if msg == Ok then [b] else []
      ensures old(q.full) != [] ==> msg == Ok && turn.sleeps == []
      ensures msg == Timeout ==> timeout != TIME_INFINITE && clock.now >= old(clock.now) + timeout
      ensures turn.computed == old(clock.now) && turn.ticks == timeout && Looped(turn) && Over(turn)
      ensures turn.found == old(q.cur.Some? || q.full != []) && turn.halted == old(q.suspended) && msg == Returned(turn)
      ensures msg == Reset ==> old(q.suspended) || Suspend in es || Configure in es
      ensures EndAt(Asked(turn), old(clock.now) + timeout) <==>
              forall z | z in turn.sleeps :: GoesOn(z) ==> z.now == old(clock.now)
      ensures Configure !in es ==> forall z | z in turn.sleeps :: !GoesOn(z)
    {
      hide Inv, InputBuffersQueue.Valid, Run, Taken, Linked, Looped, Over, EndAt, GoesOn;
      es, b, turn := [], 0, Turn(clock.now, timeout, true, q.suspended, []);
      NoSleeps(turn);
      LateExactly(turn);
      RunNone(Cfg(), st);
      InterruptsTakeNothing(es);
      var current := HasCurrent();
      if !current {
        msg, es, turn := GetFullBuffer(timeout);
        if msg != Ok { return; }
      }
      CurrentNotRead();
      var one;
      one, es := TakeChunk(1, old(st), es);
      msg, b := Ok, one[0];
    }

    /** Within the time window that began at tick start, a new buffer is waited for. */
    method Reacquire(timeout: nat, deadline: nat, ghost start: nat, ghost s: State, ghost es: seq<Event>,
        ghost turns: seq<Turn>)
        returns (msg: Msg, ghost es': seq<Event>, ghost turns': seq<Turn>)
      requires Valid() && q.cur.None? && Run(Cfg(), s, es) == Some(st)
      requires start <= clock.now && timeout < TICKS && deadline == Plus(SystemTime(start), timeout)
      requires Counted(turns, start, timeout) && (Configure !in es ==> NeverAgain(turns))
      modifies this, q, q.mem, clock
      ensures Valid() && clock.now >= old(clock.now)
      ensures Run(Cfg(), s, es') == Some(st) && Taken(es') == Taken(es)
      ensures msg == Ok ==> q.cur.Some?
      ensures start == old(clock.now) && old(q.full) != [] ==> msg == Ok
      ensures msg == Timeout ==> timeout != TIME_INFINITE && clock.now >= start + timeout
      ensures Counted(turns', start, timeout) && (Configure !in es' ==> NeverAgain(turns'))
      ensures msg != Ok ==> Accounts(turns', msg, start, clock.now, timeout)
      ensures msg == Reset ==> old(q.suspended) || Suspend in es' || Configure in es'
      ensures (Suspend in es ==> Suspend in es') && (Configure in es ==> Configure in es')
    {
      hide Inv, InputBuffersQueue.Valid, Run, Taken, Linked, Plus, Minus, SystemTime, Step, Enabled, Counted, Looped,
           Over, GoesOn, EndAt, Asked, Returned;
      turns' := turns;
      var nextTimeout := timeout;
      if timeout != TIME_INFINITE && timeout != TIME_IMMEDIATE {
        nextTimeout := Minus(deadline, SystemTime(clock.now));
        Remaining(start, clock.now, timeout);
        if nextTimeout > timeout { return Timeout, es, turns; }
      }
      ghost var more, turn;
      msg, more, turn := GetFullBuffer(nextTimeout);
      OneMoreTurn(turns, turn, start, timeout);
      turns' := turns + [turn];
      RunAppend(Cfg(), s, es, more);
      TakenAppend(es, more);
      es' := es + more;
    }

    /**
     * Reads up to n bytes in chunks of at most 64, interrupts coming in between them
     * and while it waits. Whatever they do, the bytes returned are the next of the
     * stream, one at least if one is there; a read gives up no earlier than its
     * timeout, and every wait for a buffer ends at the deadline, exactly if no thread
     * that a reset overtakes, and that waits again, runs late. It only ends short with
     * what its last wait for a buffer returned, or because its deadline has passed;
     * without a time limit, on a bus that is neither suspended nor configured anew, it
     * never does.
     */
    method ReadTimeout(n: nat, timeout: nat)
        returns (buf: seq<Byte>, ghost last: Msg, ghost es: seq<Event>, ghost turns: seq<Turn>)
      requires Valid() && n > 0 && timeout < TICKS
      modifies this, q, q.mem, clock
      ensures Valid() && Run(Cfg(), old(st), es) == Some(st)
      ensures |buf| <= n && Taken(es) == buf
      ensures last == Ok <==> |buf| == n
      ensures old(q.full) != [] ==> buf != []
      ensures last == Timeout ==> timeout != TIME_INFINITE && clock.now >= old(clock.now) + timeout
      ensures Counted(turns, old(clock.now), timeout)
      ensures Limited(timeout) ==> (OnTime(turns, old(clock.now), timeout) <==> NeverLate(turns, old(clock.now)))
      ensures Configure !in es ==> NeverAgain(turns)
      ensures Configure !in es && Limited(timeout) ==> OnTime(turns, old(clock.now), timeout)
      ensures |buf| < n ==> Accounts(turns, last, old(clock.now), clock.now, timeout)
      ensures timeout == TIME_INFINITE && old(active) && Suspend !in es && Configure !in es ==> |buf| == n
    {
      hide Inv, InputBuffersQueue.Valid, Run, Taken, Linked, InterruptsOnly, Plus, Minus, SystemTime, Step, Enabled,
        Counted, NeverAgain, NeverLate, OnTime, Accounts;
      NotSuspendedNow();
      buf, es, turns := [], [], [];
      NoTurns(clock.now, timeout);
      RunNone(Cfg(), st);
      InterruptsTakeNothing(es);
      var deadline := Plus(SystemTime(clock.now), timeout);
      ghost var start := clock.now;
      while true
        invariant Valid() && Run(Cfg(), old(st), es) == Some(st)
        invariant clock.now >= start && |buf| < n && Taken(es) == buf
        invariant buf == [] ==> clock.now == start && q.full == old(q.full)
        invariant Counted(turns, start, timeout) && (Configure !in es ==> NeverAgain(turns))
        decreases n - |buf|
      {
        var current := HasCurrent();
        if !current {
          var msg;
          NotSuspended(old(st), es);
          msg, es, turns := Reacquire(timeout, deadline, start, old(st), es, turns);
          if Limited(timeout) { ReadLateExactly(turns, start, timeout); }
          last := msg;
          if msg != Ok { return; }
        }
        CurrentNotRead();
        var size := q.Left();
        if size > n - |buf| { size := n - |buf|; }
        if size > CHUNK { size := CHUNK; }
        var chunk;
        chunk, es := TakeChunk(size, old(st), es);
        buf := buf + chunk;
        if Limited(timeout) { ReadLateExactly(turns, start, timeout); }
        if |buf| >= n { return buf, Ok, es, turns; }
        ghost var more;
        var settled;
        settled, more := Interrupts(true);
        RunAppend(Cfg(), old(st), es, more);
        InterruptsTakeNothing(more);
        TakenAppend(es, more);
        es := es + more;
      }
    }

    lemma NotSuspendedNow()
      requires Valid()
      ensures st.active == active == !q.suspended
    {
    }

    /** A queue whose bus was active, and has not been suspended since, is not suspended. */
    lemma NotSuspended(s: State, es: seq<Event>)
      requires Valid() && Run(Cfg(), s, es) == Some(st)
      ensures s.active && Suspend !in es ==> !q.suspended
    {
      if s.active && Suspend !in es { StaysActive(Cfg(), s, es); }
    }

    method HasCurrent() returns (b: bool)
      requires Valid()
      ensures b <==> q.cur.Some?
    {
      b := q.HasCurrent();
    }
  }
}
