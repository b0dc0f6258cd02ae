/**
 * The input half of the serial-over-USB driver as a machine over whole steps:
 * the interrupts post received buffers, the reader takes bytes from the oldest.
 */
module InputStream {
  import opened Bits
  import opened Streams

  /** Number of buffers and bytes in each. */
  datatype Config = Config(n: nat, cap: nat)

  /** The reader releases the lock after at most so many bytes. */
  const CHUNK: nat := 64

  predicate ConfigOk(k: Config) {
    k.n >= 1 && k.cap >= 2
  }

  /**
   * Buffers posted and not yet released, oldest first; how far the reader is in the
   * oldest, if it holds it; whether the bulk-OUT endpoint is receiving. received and
   * delivered are all the buffers and bytes since the last configuration.
   */
  datatype State = State(active: bool, full: seq<seq<Byte>>, cur: Option<nat>, receiving: bool,
    received: seq<seq<Byte>>, delivered: seq<Byte>)

  datatype Event =
    | Open | Take(bytes: seq<Byte>)                             // the reading thread
    | Received(data: seq<Byte>) | Suspend | Wakeup | Configure  // the interrupts

  /** Just configured: the driver has started to receive. */
  const LISTENING: State := State(true, [], None, true, [], [])

  function Position(s: State): nat {
    if s.cur.Some? then s.cur.value else 0
  }

  /** Reception is started if the bus is active, the endpoint free and a buffer empty. */
  function StartReceive(k: Config, s: State): State {
    if s.active && !s.receiving && |s.full| < k.n then s.(receiving := true) else s
  }

  predicate Enabled(k: Config, s: State, e: Event) {
    match e
    case Open => s.cur.None? && s.full != []
    case Take(b) => s.cur.Some? && s.full != [] && 0 < |b| <= CHUNK && s.cur.value + |b| <= |s.full[0]| &&
                    s.full[0][s.cur.value..s.cur.value + |b|] == b
    case Received(d) => s.receiving && 0 < |d| <= k.cap
    case _ => true
  }

  function Step(k: Config, s: State, e: Event): State
    requires Enabled(k, s, e)
  {
    match e
    case Open => s.(cur := Some(0))
    case Take(b) =>
      var t := s.(cur := Some(s.cur.value + |b|), delivered := s.delivered + b);
      if t.cur.value == |s.full[0]| then StartReceive(k, t.(full := s.full[1..], cur := None)) else t
    case Received(d) => StartReceive(k, s.(full := s.full + [d], received := s.received + [d], receiving := false))
    case Suspend => s.(active := false)
    case Wakeup => s.(active := true)
    case Configure => LISTENING
  }

  /** The bytes posted and not yet read. */
  function Rest(s: State): seq<Byte> {
    var all := Flat(s.full);
    if Position(s) <= |all| then all[Position(s)..] else []
  }

  predicate Inv(k: Config, s: State) {
    && |s.full| <= k.n && (forall b | b in s.full :: 1 <= |b| <= k.cap)
    && (s.cur.Some? ==> s.full != [] && s.cur.value < |s.full[0]|)
    && (s.receiving ==> |s.full| < k.n)
    && s.delivered + Rest(s) == Flat(s.received)
  }

  lemma ListeningOk(k: Config)
    requires ConfigOk(k)
    ensures Inv(k, LISTENING)
  {
  }

  /**
   * No step loses, repeats or reorders a byte, and there is a buffer to receive into
   * whenever the endpoint receives.
   */
  lemma StepKeepsInv(k: Config, s: State, e: Event)
    requires ConfigOk(k) && Inv(k, s) && Enabled(k, s, e)
    ensures Inv(k, Step(k, s, e))
  {
    hide Flat;
    match e
    case Open =>
    case Take(b) =>
      TakeKeeps(k, s, b);
    case Received(d) =>
      FlatSnoc(s.full, d);
      FlatSnoc(s.received, d);
      PositionInside(s);
      assert s.delivered + (Flat(s.full) + d)[Position(s)..] == s.delivered + Rest(s) + d;
    case Configure =>
      ListeningOk(k);
    case _ =>
  }

  lemma PositionInside(s: State)
    requires s.cur.Some? ==> s.full != [] && s.cur.value < |s.full[0]|
    ensures Position(s) <= |Flat(s.full)|
  {
    if s.cur.Some? { FlatHead(s.full); }
  }

  lemma TakeKeeps(k: Config, s: State, b: seq<Byte>)
    requires ConfigOk(k) && Inv(k, s) && Enabled(k, s, Take(b))
    ensures Inv(k, Step(k, s, Take(b)))
  {
    hide Flat, Rest;
    var t := Step(k, s, Take(b));
    RestAt(s);
    RestAt(t);
    FlatHead(s.full);
    TakeMoves(s.delivered, s.full[0], Flat(s.full[1..]), s.cur.value, b);
  }

  lemma RestAt(s: State)
    requires s.cur.Some? ==> s.full != [] && s.cur.value < |s.full[0]|
    ensures Position(s) <= |Flat(s.full)| && Rest(s) == Flat(s.full)[Position(s)..]
  {
    PositionInside(s);
  }

  lemma TakeMoves(d: seq<Byte>, first: seq<Byte>, rest: seq<Byte>, p: nat, b: seq<Byte>)
    requires p + |b| <= |first| && first[p..p + |b|] == b
    ensures d + b + (first + rest)[p + |b|..] == d + (first + rest)[p..]
    ensures p + |b| == |first| ==> d + b + rest[0..] == d + (first + rest)[p..]
  {
    var all, q := first + rest, p + |b|;
    assert all[p..q] == b && all[p..] == all[p..q] + all[q..];
    assert q == |first| ==> all[q..] == rest == rest[0..];
  }

  // ------------------------------------------------------------------ whole runs

  function Run(k: Config, s: State, es: seq<Event>): Option<State> {
    if es == [] then Some(s) else
    match Run(k, s, es[..|es| - 1])
    case None => None
    case Some(r) => if Enabled(k, r, es[|es| - 1]) then Some(Step(k, r, es[|es| - 1])) else None
  }

  lemma RunSnoc(k: Config, s: State, es: seq<Event>, e: Event)
    requires Run(k, s, es).Some? && Enabled(k, Run(k, s, es).value, e)
    ensures Run(k, s, es + [e]) == Some(Step(k, Run(k, s, es).value, e))
  {
    assert (es + [e])[..|es|] == es;
  }

  lemma RunNone(k: Config, s: State)
    ensures Run(k, s, []) == Some(s)
  {
  }

  /** A run is continued by another. */
  lemma {:induction false} RunAppend(k: Config, s: State, a: seq<Event>, b: seq<Event>)
    requires Run(k, s, a).Some?
    ensures Run(k, s, a + b) == Run(k, Run(k, s, a).value, b)
    decreases |b|
  {
    hide Step, Enabled;
    if b == [] {
      assert a + b == a;
    } else {
      var n := |b| - 1;
      assert (a + b)[..|a + b| - 1] == a + b[..n] && (a + b)[|a + b| - 1] == b[n];
      RunAppend(k, s, a, b[..n]);
    }
  }

  /** The bytes received from the host, and those read, since the last configuration. */
  function ReceivedBytes(es: seq<Event>): seq<Byte> {
    if es == [] then [] else
    var before := ReceivedBytes(es[..|es| - 1]);
    match es[|es| - 1]
    case Received(d) => before + d
    case Configure => []
    case _ => before
  }

  function ReadBytes(es: seq<Event>): seq<Byte> {
    if es == [] then [] else
    var before := ReadBytes(es[..|es| - 1]);
    match es[|es| - 1]
    case Take(b) => before + b
    case Configure => []
    case _ => before
  }

  lemma {:induction false} RunKeepsInv(k: Config, es: seq<Event>)
    requires ConfigOk(k) && Run(k, LISTENING, es).Some?
    ensures var s := Run(k, LISTENING, es).value;
            Inv(k, s) && s.delivered == ReadBytes(es) && Flat(s.received) == ReceivedBytes(es)
  {
    hide Inv, Flat;
    if es == [] {
      ListeningOk(k);
      assert Flat([]) == [] by { NothingFlat(); }
    } else {
      var r, e := es[..|es| - 1], es[|es| - 1];
      RunKeepsInv(k, r);
      var s := Run(k, LISTENING, r).value;
      StepKeepsInv(k, s, e);
      if e.Received? { FlatSnoc(s.received, e.data); }
      if e.Configure? { NothingFlat(); }
    }
  }

  lemma NothingFlat()
    ensures Flat([]) == []
  {
  }

  /**
   * Whatever the interleaving: the bytes read, followed by those of the posted
   * buffers not read yet, are exactly the bytes received, in order.
   */
  lemma StreamPreserved(k: Config, es: seq<Event>)
    requires ConfigOk(k) && Run(k, LISTENING, es).Some?
    ensures ReadBytes(es) + Rest(Run(k, LISTENING, es).value) == ReceivedBytes(es)
  {
    hide Run, Flat, Rest;
    RunKeepsInv(k, es);
  }

  predicate InterruptsOnly(es: seq<Event>) {
    forall e | e in es :: e.Received? || e.Suspend? || e.Wakeup? || e.Configure?
  }

  lemma InterruptsSnoc(es: seq<Event>, e: Event)
    requires InterruptsOnly(es) && (e.Received? || e.Suspend? || e.Wakeup? || e.Configure?)
    ensures InterruptsOnly(es + [e])
  {
  }

  lemma {:induction false} StaysActive(k: Config, s: State, es: seq<Event>)
    requires s.active && Run(k, s, es).Some? && Suspend !in es
    ensures Run(k, s, es).value.active
  {
    if es == [] {
    } else {
      var front, e := es[..|es| - 1], es[|es| - 1];
      assert es == front + [e];
      StaysActive(k, s, front);
    }
  }

  /** Of the suspensions, wakeups and configurations of a run the last one was a suspension. */
  predicate Asleep(es: seq<Event>) {
    es != [] &&
    match es[|es| - 1]
    case Suspend => true
    case Wakeup => false
    case Configure => false
    case _ => Asleep(es[..|es| - 1])
  }

  /** On every run the bus is active exactly if that is not so. */
  lemma {:induction false} ActiveExactly(k: Config, es: seq<Event>)
    requires Run(k, LISTENING, es).Some?
    ensures Run(k, LISTENING, es).value.active <==> !Asleep(es)
  {
    if es == [] {
    } else {
      ActiveExactly(k, es[..|es| - 1]);
    }
  }

  /** No suspension since the last configuration. */
  predicate Undisturbed(es: seq<Event>) {
    es == [] || es[|es| - 1].Configure? || (!es[|es| - 1].Suspend? && Undisturbed(es[..|es| - 1]))
  }

  /**
   * Unless the bus has been suspended since the last configuration, the endpoint
   * receives exactly while a buffer is empty.
   */
  lemma {:induction false} ReceivesUnlessSuspended(k: Config, es: seq<Event>)
    requires ConfigOk(k) && Run(k, LISTENING, es).Some? && Undisturbed(es)
    ensures var s := Run(k, LISTENING, es).value; s.active && (s.receiving <==> |s.full| < k.n)
  {
    if es == [] {
    } else {
      var front, e := es[..|es| - 1], es[|es| - 1];
      if !e.Configure? { ReceivesUnlessSuspended(k, front); }
      RunKeepsInv(k, front);
      ReceptionStep(k, Run(k, LISTENING, front).value, e);
    }
  }

  lemma ReceptionStep(k: Config, s: State, e: Event)
    requires ConfigOk(k) && Inv(k, s) && Enabled(k, s, e) && !e.Suspend?
    requires e.Configure? || (s.active && (s.receiving <==> |s.full| < k.n))
    ensures var t := Step(k, s, e); t.active && (t.receiving <==> |t.full| < k.n)
  {
    hide Flat, Rest;
  }

  /** The bytes taken in the course of a run, resets or not. */
  function Taken(es: seq<Event>): seq<Byte> {
    if es == [] then [] else
    Taken(es[..|es| - 1]) + (if es[|es| - 1].Take? then es[|es| - 1].bytes else [])
  }

  lemma TakenSnoc(es: seq<Event>, e: Event)
    ensures Taken(es + [e]) == Taken(es) + (if e.Take? then e.bytes else [])
  {
    assert (es + [e])[..|es|] == es;
  }

  lemma {:induction false} TakenAppend(a: seq<Event>, b: seq<Event>)
    ensures Taken(a + b) == Taken(a) + Taken(b)
    decreases |b|
  {
    if b == [] {
      assert a + b == a;
    } else {
      var n := |b| - 1;
      assert (a + b)[..|a + b| - 1] == a + b[..n] && (a + b)[|a + b| - 1] == b[n];
      TakenAppend(a, b[..n]);
    }
  }

  lemma {:induction false} InterruptsTakeNothing(es: seq<Event>)
    requires InterruptsOnly(es)
    ensures Taken(es) == []
  {
    if es == [] {
    } else {
      assert es[|es| - 1] in es;
      InterruptsTakeNothing(es[..|es| - 1]);
    }
  }

  /** While the reader waits for a buffer it holds none. */
  lemma {:induction false} InterruptsOpenNothing(k: Config, s: State, es: seq<Event>)
    requires s.cur.None? && InterruptsOnly(es) && Run(k, s, es).Some?
    ensures Run(k, s, es).value.cur.None?
  {
    if es == [] {
    } else {
      assert es[|es| - 1] in es;
      InterruptsOpenNothing(k, s, es[..|es| - 1]);
    }
  }

  // ---------------------------------------------------------------------- deafness

  /** A buffer is free, yet the endpoint is not receiving. */
  predicate Deaf(k: Config, s: State) {
    !s.receiving && |s.full| < k.n
  }

  /** The reader finishes a buffer. */
  predicate Releases(s: State, e: Event) {
    e.Take? && s.cur.Some? && s.full != [] && s.cur.value + |e.bytes| == |s.full[0]|
  }

  /**
   * One step leaves the input deaf exactly if it frees a buffer, or receives one with
   * others free, while the bus is not active, or finds it deaf and does not start it.
   */
  lemma DeafStep(k: Config, s: State, e: Event)
    requires ConfigOk(k) && Inv(k, s) && Enabled(k, s, e)
    ensures Deaf(k, Step(k, s, e)) <==>
            if Releases(s, e) then !s.receiving && !s.active
            else if e.Received? then !s.active && |s.full| + 1 < k.n
            else Deaf(k, s) && e != Configure
  {
  }

  /** The state before event i of a run. */
  function Before(k: Config, es: seq<Event>, i: nat): State
    requires i < |es|
  {
    var r := Run(k, LISTENING, es[..i]);
    if r.Some? then r.value else LISTENING
  }

  /** Event i, on an inactive bus, frees a buffer while the endpoint is idle, or receives one with others free. */
  predicate Deafens(k: Config, es: seq<Event>, i: nat)
    requires i < |es|
  {
    var s := Before(k, es, i);
    !s.active && if Releases(s, es[i]) then !s.receiving else es[i].Received? && |s.full| + 1 < k.n
  }

  /** Event i starts reception again: a buffer is freed on an active bus, or the device is configured anew. */
  predicate Restarts(k: Config, es: seq<Event>, i: nat)
    requires i < |es|
  {
    es[i] == Configure || (Releases(Before(k, es, i), es[i]) && Before(k, es, i).active)
  }

  predicate DeafenedAt(k: Config, es: seq<Event>, i: nat)
    requires i < |es|
  {
    Deafens(k, es, i) && forall j | i < j < |es| :: !Restarts(k, es, j)
  }

  /**
   * Exactly when a run ends with a free buffer and the endpoint idle: when that came
   * about during a suspension and nothing has restarted reception since. In
   * particular it never happens on a bus that stays active.
   */
  lemma {:induction false} DeafExactly(k: Config, es: seq<Event>)
    requires ConfigOk(k) && Run(k, LISTENING, es).Some?
    ensures Deaf(k, Run(k, LISTENING, es).value) <==> exists i :: 0 <= i < |es| && DeafenedAt(k, es, i)
  {
    if es == [] {
      RunNone(k, LISTENING);
    } else {
      var n := |es| - 1;
      DeafExactly(k, es[..n]);
      DeafLastStep(k, es);
      DeafenedExtends(k, es);
    }
  }

  lemma DeafLastStep(k: Config, es: seq<Event>)
    requires ConfigOk(k) && es != [] && Run(k, LISTENING, es).Some?
    ensures var n := |es| - 1;
            Deaf(k, Run(k, LISTENING, es).value) <==>
            Deafens(k, es, n) || (Deaf(k, Run(k, LISTENING, es[..n]).value) && !Restarts(k, es, n))
  {
    hide Inv, Step, Releases;
    var n := |es| - 1;
    RunKeepsInv(k, es[..n]);
    DeafStep(k, Run(k, LISTENING, es[..n]).value, es[n]);
    DeafReceives(k, Run(k, LISTENING, es[..n]).value, es[n]);
  }

  /** What happens to an endpoint that is, or is not, receiving. */
  lemma DeafReceives(k: Config, s: State, e: Event)
    requires Inv(k, s) && Enabled(k, s, e)
    ensures e.Received? ==> !Deaf(k, s) && !Releases(s, e) && e != Configure
    ensures Releases(s, e) ==> e != Configure && (s.receiving ==> !Deaf(k, s))
  {
  }

  lemma DeafenedExtends(k: Config, es: seq<Event>)
    requires ConfigOk(k) && es != []
    ensures var n := |es| - 1;
            (exists i :: 0 <= i < |es| && DeafenedAt(k, es, i)) <==>
            Deafens(k, es, n) || ((exists i :: 0 <= i < n && DeafenedAt(k, es[..n], i)) && !Restarts(k, es, n))
  {
    hide Deafens, Restarts;
    var n := |es| - 1;
    forall i | 0 <= i < n
      ensures DeafenedAt(k, es, i) <==> DeafenedAt(k, es[..n], i) && !Restarts(k, es, n)
    {
      PrefixAgrees(k, es, n);
    }
    assert DeafenedAt(k, es, n) <==> Deafens(k, es, n);
  }

  lemma PrefixAgrees(k: Config, es: seq<Event>, n: nat)
    requires ConfigOk(k) && n <= |es|
    ensures forall j | 0 <= j < n ::
              Deafens(k, es[..n], j) == Deafens(k, es, j) && Restarts(k, es[..n], j) == Restarts(k, es, j)
  {
    forall j | 0 <= j < n
      ensures Deafens(k, es[..n], j) == Deafens(k, es, j) && Restarts(k, es[..n], j) == Restarts(k, es, j)
    {
      assert es[..n][..j] == es[..j];
    }
  }

  lemma DeafForeverStep(k: Config, s: State, e: Event)
    requires ConfigOk(k) && Deaf(k, s) && s.full == [] && s.cur.None? && e != Configure && Enabled(k, s, e)
    ensures var t := Step(k, s, e);
            Deaf(k, t) && t.full == [] && t.cur.None? && t.delivered == s.delivered && t.received == s.received
  {
  }

  /**
   * Deaf with nothing left to read, awake or not, the driver never hears again until
   * it is configured anew.
   */
  lemma {:induction false} DeafnessIsPermanent(k: Config, s: State, es: seq<Event>)
    requires ConfigOk(k) && Deaf(k, s) && s.full == [] && s.cur.None?
    requires Configure !in es && Run(k, s, es).Some?
    ensures var t := Run(k, s, es).value;
            Deaf(k, t) && t.full == [] && t.cur.None? && t.delivered == s.delivered && t.received == s.received
    ensures !Enabled(k, Run(k, s, es).value, Open) && forall d :: !Enabled(k, Run(k, s, es).value, Received(d))
  {
    if es == [] {
    } else {
      var r := es[..|es| - 1];
      DeafnessIsPermanent(k, s, r);
      DeafForeverStep(k, Run(k, s, r).value, es[|es| - 1]);
    }
  }

  /** Nothing the reader or the interrupts do, short of a new configuration, receives anything any more. */
  ghost predicate NeverHears(k: Config, s: State) {
    forall es :: Configure !in es && Run(k, s, es).Some? ==> Run(k, s, es).value.received == s.received
  }

  /**
   * Exactly when the input is deaf for good: when it is deaf with nothing left to
   * read. From any other state some run receives.
   */
  lemma DeafnessExactly(k: Config, s: State)
    requires ConfigOk(k) && Inv(k, s)
    ensures NeverHears(k, s) <==> Deaf(k, s) && s.full == []
  {
    hide Run;
    if Deaf(k, s) && s.full == [] {
      forall es | Configure !in es && Run(k, s, es).Some?
        ensures Run(k, s, es).value.received == s.received
      {
        DeafnessIsPermanent(k, s, es);
      }
    } else {
      var es := WayOut(k, s);
      assert !(Configure !in es && Run(k, s, es).Some? ==> Run(k, s, es).value.received == s.received);
    }
  }

  /** A run that receives: the bus wakes up, and the reader reads the oldest buffer out. */
  lemma WayOut(k: Config, s: State) returns (es: seq<Event>)
    requires ConfigOk(k) && Inv(k, s) && !(Deaf(k, s) && s.full == [])
    ensures Configure !in es && Run(k, s, es).Some? && Run(k, s, es).value.received != s.received
  {
    hide Run, Flat, Rest;
    RunNone(k, s);
    es := [];
    if !s.receiving {
      es := Extend(k, s, es, Wakeup);
      if s.cur.None? { es := Extend(k, s, es, Open); }
      es := ReadOut(k, s, es);
    }
    var before := Run(k, s, es).value;
    es := Extend(k, s, es, Received([0]));
    assert Run(k, s, es).value.received == before.received + [[0]];
  }

  lemma Extend(k: Config, s: State, es: seq<Event>, e: Event) returns (es': seq<Event>)
    requires Run(k, s, es).Some? && Enabled(k, Run(k, s, es).value, e)
    ensures es' == es + [e] && Run(k, s, es') == Some(Step(k, Run(k, s, es).value, e))
  {
    es' := es + [e];
    RunSnoc(k, s, es, e);
  }

  /** The oldest buffer is read out, chunk by chunk, and reception may start. */
  lemma {:induction false} ReadOut(k: Config, s: State, es: seq<Event>) returns (es': seq<Event>)
    requires Run(k, s, es).Some?
    requires var t := Run(k, s, es).value;
             !t.receiving && t.cur.Some? && 0 < |t.full| <= k.n && t.cur.value < |t.full[0]|
    ensures Run(k, s, es').Some? && (Configure !in es ==> Configure !in es') && es <= es'
    ensures var t, u := Run(k, s, es).value, Run(k, s, es').value;
            && u.received == t.received && u.full == t.full[1..] && u.cur.None?
            && u.active == t.active && u.receiving == t.active
    decreases |Run(k, s, es).value.full[0]| - Run(k, s, es).value.cur.value
  {
    hide Run, Flat;
    var t := Run(k, s, es).value;
    var left := |t.full[0]| - t.cur.value;
    var n := if left <= CHUNK then left else CHUNK;
    var b := t.full[0][t.cur.value..t.cur.value + n];
    es' := Extend(k, s, es, Take(b));
    if n < left { es' := ReadOut(k, s, es'); }
  }

  /**
   * It comes about when a full ring, here the default two buffers, is drained during
   * a suspension.
   */
  lemma DeafnessIsReachable(a: seq<Byte>, b: seq<Byte>) returns (es: seq<Event>)
    requires 0 < |a| <= 256 && 0 < |b| <= 256
    ensures Configure !in es && [Received(a), Received(b), Suspend] <= es
    ensures var k := Config(2, 256);
            var r := Run(k, LISTENING, es);
            r.Some? && r.value.active && Deaf(k, r.value) && r.value.full == [] && r.value.cur.None?
  {
    hide Run, Flat;
    var k := Config(2, 256);
    RunNone(k, LISTENING);
    es := Extend(k, LISTENING, [], Received(a));
    es := Extend(k, LISTENING, es, Received(b));
    es := Extend(k, LISTENING, es, Suspend);
    assert es == [Received(a), Received(b), Suspend];
    assert Run(k, LISTENING, es).value.full == [a, b];
    es := Extend(k, LISTENING, es, Open);
    es := ReadOut(k, LISTENING, es);
    es := Extend(k, LISTENING, es, Open);
    es := ReadOut(k, LISTENING, es);
    es := Extend(k, LISTENING, es, Wakeup);
  }
}
