/**
 * The output half of the serial-over-USB driver as a machine over whole steps:
 * what the writer does under the lock, and what the interrupts do in between.
 */
module OutputStream {
  import opened Bits
  import opened Streams

  /** Number of buffers, bytes in each, and the packet size of the endpoint. */
  datatype Config = Config(n: nat, cap: nat, maxPacket: nat)

  predicate ConfigOk(k: Config) {
    k.n >= 1 && k.cap >= 2 && k.maxPacket >= 1
  }

  /** The writer releases the lock after at most so many bytes. */
  const CHUNK: nat := 64

  datatype Endpoint = Idle | Sending(data: seq<Byte>)

  /**
   * Posted buffers oldest first, the buffer being filled, the bulk-IN endpoint
   * and what it has transmitted; posted and accepted are the buffers and bytes
   * taken since the last configuration.
   */
  datatype State = State(active: bool, full: seq<seq<Byte>>, part: Option<seq<Byte>>, tx: Endpoint,
    wire: seq<seq<Byte>>, posted: seq<seq<Byte>>, accepted: seq<Byte>)

  datatype Event =
    | Acquire | Store(bytes: seq<Byte>) | Flush         // the writing thread
    | Sof | Complete | Suspend | Wakeup | Configure     // the interrupts

  const EMPTY: State := State(true, [], None, Idle, [], [], [])

  /** A buffer posted to the queue is transmitted at once if the endpoint is free. */
  function Notify(s: State): State {
    if s.active && s.tx.Idle? && s.full != [] then s.(tx := Sending(s.full[0])) else s
  }

  function Post(s: State): State
    requires s.part.Some?
  {
    s.(full := s.full + [s.part.value], part := None, posted := s.posted + [s.part.value])
  }

  /** A transaction the host cannot tell to be over: not empty, and all of its packets full. */
  predicate Unterminated(k: Config, d: seq<Byte>)
    requires ConfigOk(k)
  {
    d != [] && |d| % k.maxPacket == 0
  }

  /** When the step can happen at all. */
  predicate Enabled(k: Config, s: State, e: Event) {
    match e
    case Acquire => s.part.None? && |s.full| < k.n
    case Store(b) => s.part.Some? && 0 < |b| <= CHUNK && |s.part.value| + |b| <= k.cap
    case Complete => s.tx.Sending?
    case _ => true
  }

  function Step(k: Config, s: State, e: Event): State
    requires ConfigOk(k) && Enabled(k, s, e)
  {
    match e
    case Acquire => s.(part := Some([]))
    case Store(b) =>
      var t := s.(part := Some(s.part.value + b), accepted := s.accepted + b);
      if |t.part.value| == k.cap then Notify(Post(t)) else t
    case Flush => if s.part.Some? && s.part.value != [] then Notify(Post(s)) else s
    case Sof =>
      if s.active && s.tx.Idle? && s.full == [] && s.part.Some? && s.part.value != []
      then Post(s).(tx := Sending(s.part.value)) else s
    case Complete =>
      var d := s.tx.data;
      var t := s.(wire := s.wire + [d], full := if d != [] && s.full != [] then s.full[1..] else s.full);
      if t.full != [] then t.(tx := Sending(t.full[0]))
      else if Unterminated(k, d) then t.(tx := Sending([]))
      else t.(tx := Idle)
    case Suspend => s.(active := false)
    case Wakeup => s.(active := true)
    case Configure => EMPTY
  }

  function NonEmpty(b: seq<seq<Byte>>): seq<seq<Byte>> {
    if b == [] then [] else NonEmpty(b[..|b| - 1]) + (if b[|b| - 1] == [] then [] else [b[|b| - 1]])
  }

  function Partial(s: State): seq<Byte> {
    if s.part.Some? then s.part.value else []
  }

  /** The endpoint owns the oldest buffer, or sends an empty packet; a full-sized end is not an end. */
  predicate EndpointOk(k: Config, s: State)
    requires ConfigOk(k)
  {
    match s.tx
    case Sending(d) => d != [] ==> s.full != [] && s.full[0] == d
    case Idle => s.wire != [] ==> !Unterminated(k, s.wire[|s.wire| - 1])
  }

  predicate Inv(k: Config, s: State)
    requires ConfigOk(k)
  {
    && |s.full| <= k.n && (forall b | b in s.full :: 1 <= |b| <= k.cap)
    && (s.part.Some? ==> |s.full| < k.n && |s.part.value| < k.cap)
    && EndpointOk(k, s)
    && NonEmpty(s.wire) + s.full == s.posted
    && Flat(s.posted) + Partial(s) == s.accepted
  }

  lemma NonEmptySnoc(b: seq<seq<Byte>>, x: seq<Byte>)
    ensures NonEmpty(b + [x]) == if x == [] then NonEmpty(b) else NonEmpty(b) + [x]
  {
    assert (b + [x])[..|b|] == b;
  }

  /** No step loses, repeats or reorders a byte, or touches a buffer in transmission. */
  lemma StepKeepsInv(k: Config, s: State, e: Event)
    requires ConfigOk(k) && Inv(k, s) && Enabled(k, s, e)
    ensures Inv(k, Step(k, s, e))
  {
    hide Flat, NonEmpty, Unterminated;
    match e
    case Store(b) =>
      var t := s.(part := Some(s.part.value + b), accepted := s.accepted + b);
      assert Flat(s.posted) + (s.part.value + b) == Flat(s.posted) + s.part.value + b;
      if |t.part.value| == k.cap { PostKeeps(k, t); }
    case Flush =>
      if s.part.Some? && s.part.value != [] { PostKeeps(k, s); }
    case Sof =>
      if s.part.Some? && s.part.value != [] { PostKeeps(k, s); }
    case Complete =>
      CompleteKeeps(k, s);
    case Configure =>
      EmptyOk(k);
    case _ =>
  }

  lemma EmptyOk(k: Config)
    requires ConfigOk(k)
    ensures Inv(k, EMPTY)
  {
  }

  lemma PostKeeps(k: Config, s: State)
    requires ConfigOk(k) && s.part.Some? && 1 <= |s.part.value| <= k.cap && |s.full| < k.n
    requires EndpointOk(k, s) && (forall b | b in s.full :: 1 <= |b| <= k.cap)
    requires NonEmpty(s.wire) + s.full == s.posted && Flat(s.posted) + s.part.value == s.accepted
    ensures Inv(k, Post(s)) && Inv(k, Notify(Post(s)))
    ensures s.full == [] ==> Inv(k, Post(s).(tx := Sending(s.part.value)))
  {
    hide Flat, NonEmpty, Unterminated;
    var p := s.part.value;
    FlatSnoc(s.posted, p);
    assert NonEmpty(s.wire) + (s.full + [p]) == NonEmpty(s.wire) + s.full + [p];
    assert Flat(s.posted + [p]) + [] == Flat(s.posted + [p]);
  }

  lemma CompleteKeeps(k: Config, s: State)
    requires ConfigOk(k) && Inv(k, s) && s.tx.Sending?
    ensures Inv(k, Step(k, s, Complete))
  {
    hide Flat, NonEmpty, Unterminated;
    var d := s.tx.data;
    var t := Step(k, s, Complete);
    NonEmptySnoc(s.wire, d);
    NotUnterminated(k);
    assert t.wire[|t.wire| - 1] == d;
    if d != [] {
      MoveFirst(NonEmpty(s.wire), s.full);
      assert t.full == s.full[1..] && NonEmpty(t.wire) + t.full == t.posted;
    } else {
      assert t.full == s.full;
    }
    assert EndpointOk(k, t);
  }

  lemma MoveFirst<T>(a: seq<T>, f: seq<T>)
    requires f != []
    ensures a + [f[0]] + f[1..] == a + f
    ensures forall b | b in f[1..] :: b in f
  {
  }

  lemma NotUnterminated(k: Config)
    requires ConfigOk(k)
    ensures !Unterminated(k, [])
  {
  }

  // ------------------------------------------------------------------ whole runs

  /** The state a sequence of events leads to, if each of them could happen. */
  function Run(k: Config, s: State, es: seq<Event>): Option<State>
    requires ConfigOk(k)
  {
    if es == [] then Some(s) else
    match Run(k, s, es[..|es| - 1])
    case None => None
    case Some(r) => if Enabled(k, r, es[|es| - 1]) then Some(Step(k, r, es[|es| - 1])) else None
  }

  /** The bytes stored by the writer since the last configuration. */
  function StoredBytes(es: seq<Event>): seq<Byte> {
    if es == [] then [] else
    var before := StoredBytes(es[..|es| - 1]);
    match es[|es| - 1]
    case Store(b) => before + b
    case Configure => []
    case _ => before
  }

  lemma {:induction false} RunKeepsInv(k: Config, es: seq<Event>)
    requires ConfigOk(k) && Run(k, EMPTY, es).Some?
    ensures var s := Run(k, EMPTY, es).value; Inv(k, s) && s.accepted == StoredBytes(es)
  {
    hide Inv;
    if es == [] {
      EmptyOk(k);
    } else {
      RunKeepsInv(k, es[..|es| - 1]);
      StepKeepsInv(k, Run(k, EMPTY, es[..|es| - 1]).value, es[|es| - 1]);
    }
  }

  /** A run is continued by another. */
  lemma {:induction false} RunAppend(k: Config, s: State, a: seq<Event>, b: seq<Event>)
    requires ConfigOk(k) && Run(k, s, a).Some?
    ensures Run(k, s, a + b) == Run(k, Run(k, s, a).value, b)
    decreases |b|
  {
    hide Step, Enabled;
    if b == [] {
      assert a + b == a;
    } else {
      var n := |b| - 1;
      assert (a + b)[..|a + b| - 1] == a + b[..n] && (a + b)[|a + b| - 1] == b[n];
      RunAppend(k, s, a, b[..n]);
    }
  }

  lemma RunSnoc(k: Config, s: State, es: seq<Event>, e: Event)
    requires ConfigOk(k) && Run(k, s, es).Some? && Enabled(k, Run(k, s, es).value, e)
    ensures Run(k, s, es + [e]) == Some(Step(k, Run(k, s, es).value, e))
  {
    assert (es + [e])[..|es|] == es;
  }

  lemma RunNone(k: Config, s: State)
    requires ConfigOk(k)
    ensures Run(k, s, []) == Some(s)
  {
  }

  predicate InterruptsOnly(es: seq<Event>) {
    forall e | e in es :: e.Sof? || e.Complete? || e.Suspend? || e.Wakeup? || e.Configure?
  }

  lemma InterruptsSnoc(es: seq<Event>, e: Event)
    requires InterruptsOnly(es) && (e.Sof? || e.Complete? || e.Suspend? || e.Wakeup? || e.Configure?)
    ensures InterruptsOnly(es + [e])
  {
  }

  /** The bytes the writer has stored in the course of a run, resets or not. */
  function Written(es: seq<Event>): seq<Byte> {
    if es == [] then [] else
    Written(es[..|es| - 1]) + (if es[|es| - 1].Store? then es[|es| - 1].bytes else [])
  }

  lemma WrittenSnoc(es: seq<Event>, e: Event)
    ensures Written(es + [e]) == Written(es) + (if e.Store? then e.bytes else [])
  {
    assert (es + [e])[..|es|] == es;
  }

  lemma {:induction false} WrittenAppend(a: seq<Event>, b: seq<Event>)
    ensures Written(a + b) == Written(a) + Written(b)
    decreases |b|
  {
    if b == [] {
      assert a + b == a;
    } else {
      var n := |b| - 1;
      assert (a + b)[..|a + b| - 1] == a + b[..n] && (a + b)[|a + b| - 1] == b[n];
      WrittenAppend(a, b[..n]);
    }
  }

  lemma {:induction false} InterruptsWriteNothing(es: seq<Event>)
    requires InterruptsOnly(es)
    ensures Written(es) == []
  {
    if es == [] {
    } else {
      assert es[|es| - 1] in es;
      InterruptsWriteNothing(es[..|es| - 1]);
    }
  }

  /** While the writer waits for a buffer the interrupts take none. */
  lemma {:induction false} InterruptsKeepRoom(k: Config, s: State, es: seq<Event>)
    requires ConfigOk(k) && s.part.None? && InterruptsOnly(es) && Run(k, s, es).Some?
    ensures var t := Run(k, s, es).value; t.part.None? && |t.full| <= |s.full|
  {
    if es == [] {
    } else {
      var n := |es| - 1;
      assert es[n] in es;
      InterruptsKeepRoom(k, s, es[..n]);
    }
  }

  lemma {:induction false} FlatNonEmpty(b: seq<seq<Byte>>)
    ensures Flat(NonEmpty(b)) == Flat(b)
  {
    if b == [] {
    } else {
      FlatNonEmpty(b[..|b| - 1]);
      var front, x := b[..|b| - 1], b[|b| - 1];
      assert b == front + [x];
      NonEmptySnoc(front, x);
      FlatSnoc(front, x);
      FlatSnoc(NonEmpty(front), x);
      assert x == [] ==> Flat(front) + x == Flat(front);
    }
  }

  /**
   * Whatever the interleaving: the bytes the endpoint has transmitted, followed
   * by those in posted buffers and in the buffer being filled, are exactly the
   * bytes stored, in order; and each transmission is one posted buffer, released
   * once, or empty.
   */
  lemma StreamPreserved(k: Config, es: seq<Event>)
    requires ConfigOk(k) && Run(k, EMPTY, es).Some?
    ensures var s := Run(k, EMPTY, es).value;
            Flat(s.wire) + Flat(s.full) + Partial(s) == StoredBytes(es) && NonEmpty(s.wire) + s.full == s.posted
  {
    hide Run, Flat, NonEmpty, StoredBytes;
    RunKeepsInv(k, es);
    var s := Run(k, EMPTY, es).value;
    FlatNonEmpty(s.wire);
    FlatAppend(NonEmpty(s.wire), s.full);
  }

  /** The buffer in transmission is the oldest posted one; an idle endpoint has ended its last transfer. */
  lemma EndpointInvariant(k: Config, es: seq<Event>)
    requires ConfigOk(k) && Run(k, EMPTY, es).Some?
    ensures var s := Run(k, EMPTY, es).value;
            match s.tx
            case Sending(d) => d == [] || (s.full != [] && d == s.full[0])
            case Idle => s.wire == [] || s.wire[|s.wire| - 1] == [] || |s.wire[|s.wire| - 1]| % k.maxPacket != 0
  {
    RunKeepsInv(k, es);
  }

  /**
   * A flush leaves nothing behind, whatever the endpoint and the bus do: what was in
   * the buffer being filled is posted as one more buffer, and an idle endpoint on an
   * active bus is sending afterwards if there is anything to be sent.
   */
  lemma FlushPosts(k: Config, s: State)
    requires ConfigOk(k) && Inv(k, s)
    ensures var t := Step(k, s, Flush);
            && Partial(t) == []
            && t.posted == s.posted + (if Partial(s) == [] then [] else [Partial(s)])
            && Flat(t.posted) == t.accepted == s.accepted && t.wire == s.wire
            && (s.tx.Sending? ==> t.tx == s.tx)
            && (s.active && Partial(s) != [] ==> t.tx.Sending?)
  {
    hide Flat, NonEmpty;
    StepKeepsInv(k, s, Flush);
    assert s.posted + [] == s.posted;
    assert Flat(Step(k, s, Flush).posted) + [] == Flat(Step(k, s, Flush).posted);
  }

  /** Empty packets are sent only where the host could not tell otherwise that a transfer is over. */
  predicate EmptyWhenNeeded(k: Config, s: State)
    requires ConfigOk(k)
  {
    && (forall i | 0 <= i < |s.wire| && s.wire[i] == [] :: i > 0 && Unterminated(k, s.wire[i - 1]))
    && (s.tx == Sending([]) ==> s.wire != [] && Unterminated(k, s.wire[|s.wire| - 1]))
  }

  lemma EmptyStep(k: Config, s: State, e: Event)
    requires ConfigOk(k) && Inv(k, s) && Enabled(k, s, e) && EmptyWhenNeeded(k, s)
    ensures EmptyWhenNeeded(k, Step(k, s, e))
  {
    hide EmptyWhenNeeded, Flat, NonEmpty, Unterminated;
    var t := Step(k, s, e);
    if e.Complete? {
      NotUnterminated(k);
      assert t.tx == Sending([]) ==> Unterminated(k, s.tx.data);
      EmptyAfter(k, s, t);
    } else if e == Configure {
      NothingEmpty(k);
    } else {
      EmptyMeanwhile(k, s, t);
    }
  }

  lemma EmptyAfter(k: Config, s: State, t: State)
    requires ConfigOk(k) && EmptyWhenNeeded(k, s) && s.tx.Sending? && t.wire == s.wire + [s.tx.data]
    requires t.tx == Sending([]) ==> Unterminated(k, s.tx.data)
    ensures EmptyWhenNeeded(k, t)
  {
    hide Unterminated;
  }

  lemma EmptyMeanwhile(k: Config, s: State, t: State)
    requires ConfigOk(k) && EmptyWhenNeeded(k, s) && t.wire == s.wire && (t.tx == Sending([]) ==> s.tx == Sending([]))
    ensures EmptyWhenNeeded(k, t)
  {
  }

  lemma NothingEmpty(k: Config)
    requires ConfigOk(k)
    ensures EmptyWhenNeeded(k, EMPTY)
  {
  }

  /**
   * On every run an empty packet follows a transmission only if that was not empty and
   * all of its packets were full.
   */
  lemma {:induction false} EmptyOnlyWhenNeeded(k: Config, es: seq<Event>)
    requires ConfigOk(k) && Run(k, EMPTY, es).Some?
    ensures EmptyWhenNeeded(k, Run(k, EMPTY, es).value)
  {
    hide Inv, Step;
    if es == [] {
    } else {
      var before := es[..|es| - 1];
      EmptyOnlyWhenNeeded(k, before);
      RunKeepsInv(k, before);
      EmptyStep(k, Run(k, EMPTY, before).value, es[|es| - 1]);
    }
  }

  // ---------------------------------------------------------------------- stalls

  /** Full buffers are waiting and the endpoint is idle. */
  predicate Stalled(s: State) {
    s.tx.Idle? && s.full != []
  }

  /** The writer posts a buffer. */
  predicate Posts(k: Config, s: State, e: Event) {
    match e
    case Store(b) => s.part.Some? && |s.part.value| + |b| == k.cap
    case Flush => s.part.Some? && s.part.value != []
    case _ => false
  }

  /**
   * One step stalls the output exactly if it posts while the bus is not active, or finds
   * it stalled and does not start it.
   */
  lemma StallStep(k: Config, s: State, e: Event)
    requires ConfigOk(k) && Inv(k, s) && Enabled(k, s, e)
    ensures Stalled(Step(k, s, e)) <==>
            if Posts(k, s, e) then s.tx.Idle? && !s.active else Stalled(s) && e != Configure
  {
    hide Flat, NonEmpty, Unterminated;
  }

  /** The state before event i of a run. */
  function Before(k: Config, es: seq<Event>, i: nat): State
    requires ConfigOk(k) && i < |es|
  {
    var r := Run(k, EMPTY, es[..i]);
    if r.Some? then r.value else EMPTY
  }

  /** Event i posts a buffer to an idle endpoint while the bus is suspended. */
  predicate Strands(k: Config, es: seq<Event>, i: nat)
    requires ConfigOk(k) && i < |es|
  {
    var s := Before(k, es, i);
    Posts(k, s, es[i]) && s.tx.Idle? && !s.active
  }

  /** Event i starts a stalled output again: a buffer is posted on an active bus, or the device is configured anew. */
  predicate Restarts(k: Config, es: seq<Event>, i: nat)
    requires ConfigOk(k) && i < |es|
  {
    es[i] == Configure || (Posts(k, Before(k, es, i), es[i]) && Before(k, es, i).active)
  }

  predicate StrandedAt(k: Config, es: seq<Event>, i: nat)
    requires ConfigOk(k) && i < |es|
  {
    Strands(k, es, i) && forall j | i < j < |es| :: !Restarts(k, es, j)
  }

  /**
   * Exactly when a run ends with full buffers on an idle endpoint: when one was
   * posted during a suspension and nothing has restarted the output since. In
   * particular it never happens while all posting is done on an active bus.
   */
  lemma {:induction false} StallsExactly(k: Config, es: seq<Event>)
    requires ConfigOk(k) && Run(k, EMPTY, es).Some?
    ensures Stalled(Run(k, EMPTY, es).value) <==> exists i :: 0 <= i < |es| && StrandedAt(k, es, i)
  {
    if es == [] {
    } else {
      var n := |es| - 1;
      StallsExactly(k, es[..n]);
      StallLastStep(k, es);
      StrandedExtends(k, es);
    }
  }

  lemma StallLastStep(k: Config, es: seq<Event>)
    requires ConfigOk(k) && es != [] && Run(k, EMPTY, es).Some?
    ensures var n := |es| - 1;
            Stalled(Run(k, EMPTY, es).value) <==>
            Strands(k, es, n) || (Stalled(Run(k, EMPTY, es[..n]).value) && !Restarts(k, es, n))
  {
    hide Posts, Inv;
    var n := |es| - 1;
    RunKeepsInv(k, es[..n]);
    StallStep(k, Run(k, EMPTY, es[..n]).value, es[n]);
  }

  lemma StrandedExtends(k: Config, es: seq<Event>)
    requires ConfigOk(k) && es != []
    ensures var n := |es| - 1;
            (exists i :: 0 <= i < |es| && StrandedAt(k, es, i)) <==>
            Strands(k, es, n) || ((exists i :: 0 <= i < n && StrandedAt(k, es[..n], i)) && !Restarts(k, es, n))
  {
    hide Strands, Restarts;
    var n := |es| - 1;
    forall i | 0 <= i < n
      ensures StrandedAt(k, es, i) <==> StrandedAt(k, es[..n], i) && !Restarts(k, es, n)
    {
      PrefixAgrees(k, es, n);
    }
    assert StrandedAt(k, es, n) <==> Strands(k, es, n);
  }

  lemma PrefixAgrees(k: Config, es: seq<Event>, n: nat)
    requires ConfigOk(k) && n <= |es|
    ensures forall j | 0 <= j < n ::
              Strands(k, es[..n], j) == Strands(k, es, j) && Restarts(k, es[..n], j) == Restarts(k, es, j)
  {
    forall j | 0 <= j < n
      ensures Strands(k, es[..n], j) == Strands(k, es, j) && Restarts(k, es[..n], j) == Restarts(k, es, j)
    {
      assert es[..n][..j] == es[..j];
    }
  }

  lemma FullHasNoPart(k: Config, s: State)
    requires ConfigOk(k) && Inv(k, s) && |s.full| == k.n
    ensures s.part.None?
  {
  }

  lemma DeadlockStep(k: Config, s: State, e: Event)
    requires ConfigOk(k) && Inv(k, s) && Stalled(s) && |s.full| == k.n && e != Configure && Enabled(k, s, e)
    ensures var t := Step(k, s, e);
            Stalled(t) && t.full == s.full && t.wire == s.wire && t.accepted == s.accepted && t.part.None?
  {
  }

  /**
   * Once every buffer is full on an idle endpoint nothing moves any more, awake or
   * not: the writer gets no buffer and nothing is transmitted until the device is
   * configured anew.
   */
  lemma {:induction false} DeadlockIsPermanent(k: Config, s: State, es: seq<Event>)
    requires ConfigOk(k) && Inv(k, s) && Stalled(s) && |s.full| == k.n
    requires Configure !in es && Run(k, s, es).Some?
    ensures var t := Run(k, s, es).value;
            Inv(k, t) && Stalled(t) && t.full == s.full && t.wire == s.wire && t.accepted == s.accepted && t.part.None?
    ensures !Enabled(k, Run(k, s, es).value, Acquire) && forall b :: !Enabled(k, Run(k, s, es).value, Store(b))
  {
    hide Inv, Step;
    assert s.part.None? by { FullHasNoPart(k, s); }
    if es == [] {
    } else {
      var r := es[..|es| - 1];
      DeadlockIsPermanent(k, s, r);
      DeadlockStep(k, Run(k, s, r).value, es[|es| - 1]);
      StepKeepsInv(k, Run(k, s, r).value, es[|es| - 1]);
    }
  }

  /** Nothing the writer or the interrupts do, short of a new configuration, transmits anything any more. */
  ghost predicate NeverTransmits(k: Config, s: State)
    requires ConfigOk(k)
  {
    forall es :: Configure !in es && Run(k, s, es).Some? ==> Run(k, s, es).value.wire == s.wire
  }

  /**
   * Exactly when the output is stuck for good: when it is stalled with all buffers
   * full. From any other state some run transmits.
   */
  lemma DeadlockExactly(k: Config, s: State)
    requires ConfigOk(k) && Inv(k, s)
    ensures NeverTransmits(k, s) <==> Stalled(s) && |s.full| == k.n
  {
    hide Inv, Run;
    if Stalled(s) && |s.full| == k.n {
      forall es | Configure !in es && Run(k, s, es).Some?
        ensures Run(k, s, es).value.wire == s.wire
      {
        DeadlockIsPermanent(k, s, es);
      }
    } else {
      var es := WayOut(k, s);
      assert !(Configure !in es && Run(k, s, es).Some? ==> Run(k, s, es).value.wire == s.wire);
    }
  }

  /** A run that transmits: the bus wakes up, the writer stores a byte and flushes. */
  lemma WayOut(k: Config, s: State) returns (es: seq<Event>)
    requires ConfigOk(k) && Inv(k, s) && !(Stalled(s) && |s.full| == k.n)
    ensures Configure !in es && Run(k, s, es).Some? && Run(k, s, es).value.wire != s.wire
  {
    hide Run, Flat, NonEmpty, EndpointOk, Unterminated;
    RunNone(k, s);
    es := [];
    if s.tx.Idle? {
      es := Extend(k, s, es, Wakeup);
      if s.part.None? { es := Extend(k, s, es, Acquire); }
      es := FlushOneByte(k, s, es);
    }
    var before := Run(k, s, es).value;
    es := Extend(k, s, es, Complete);
    assert Run(k, s, es).value.wire == before.wire + [before.tx.data];
  }

  /** A byte stored on an active bus with a free endpoint is on its way once flushed. */
  lemma FlushOneByte(k: Config, s: State, es: seq<Event>) returns (es': seq<Event>)
    requires ConfigOk(k) && Run(k, s, es).Some?
    requires var t := Run(k, s, es).value; t.active && t.tx.Idle? && t.part.Some? && |t.part.value| < k.cap
    ensures es' == es + [Store([0])] + [Flush] && Run(k, s, es').Some?
    ensures var t, u := Run(k, s, es).value, Run(k, s, es').value; u.tx.Sending? && u.wire == t.wire
  {
    hide Run, Flat, NonEmpty;
    es' := Extend(k, s, es, Store([0]));
    es' := Extend(k, s, es', Flush);
  }

  lemma Extend(k: Config, s: State, es: seq<Event>, e: Event) returns (es': seq<Event>)
    requires ConfigOk(k) && Run(k, s, es).Some? && Enabled(k, Run(k, s, es).value, e)
    ensures es' == es + [e] && Run(k, s, es') == Some(Step(k, Run(k, s, es).value, e))
  {
    es' := es + [e];
    RunSnoc(k, s, es, e);
  }

  /** Bytes stored chunk by chunk. */
  function Chunks(a: seq<Byte>): seq<Event> {
    if |a| <= CHUNK then [Store(a)] else [Store(a[..CHUNK])] + Chunks(a[CHUNK..])
  }

  /** A buffer is filled chunk by chunk and posted, to an idle endpoint on an inactive bus. */
  lemma {:induction false} Fill(k: Config, s: State, a: seq<Byte>)
    requires ConfigOk(k) && !s.active && s.tx.Idle? && s.part.Some? && a != [] && |s.part.value| + |a| == k.cap
    ensures Run(k, s, Chunks(a)) == Some(Post(s.(part := Some(s.part.value + a), accepted := s.accepted + a)))
    decreases |a|
  {
    hide Run;
    RunNone(k, s);
    if |a| <= CHUNK {
      RunSnoc(k, s, [], Store(a));
      assert [] + [Store(a)] == [Store(a)];
    } else {
      var head, tail := a[..CHUNK], a[CHUNK..];
      RunSnoc(k, s, [], Store(head));
      assert [] + [Store(head)] == [Store(head)] && a == head + tail;
      var t := Step(k, s, Store(head));
      Fill(k, t, tail);
      RunAppend(k, s, [Store(head)], Chunks(tail));
      assert s.part.value + head + tail == s.part.value + a && s.accepted + head + tail == s.accepted + a;
    }
  }

  /** The writer acquires a buffer and fills it. */
  lemma AcquireAndFill(k: Config, s: State, es: seq<Event>, a: seq<Byte>) returns (es': seq<Event>)
    requires ConfigOk(k) && |a| == k.cap && Run(k, s, es).Some?
    requires var t := Run(k, s, es).value; !t.active && t.tx.Idle? && t.part.None? && |t.full| < k.n
    ensures es' == es + [Acquire] + Chunks(a) && Run(k, s, es').Some?
    ensures var t, u := Run(k, s, es).value, Run(k, s, es').value;
            !u.active && u.tx.Idle? && u.part.None? && u.full == t.full + [a]
  {
    hide Run;
    es' := Extend(k, s, es, Acquire);
    var u := Run(k, s, es').value;
    Fill(k, u, a);
    RunAppend(k, s, es', Chunks(a));
    es' := es' + Chunks(a);
    assert [] + a == a;
  }

  /**
   * With the default two buffers of 256 bytes, two buffers written during a
   * suspension, in chunks as the driver does, bring it about.
   */
  lemma DeadlockIsReachable(a: seq<Byte>, b: seq<Byte>)
    requires |a| == 256 && |b| == 256
    ensures var k := Config(2, 256, 64);
            var r := Run(k, EMPTY, [Suspend] + [Acquire] + Chunks(a) + [Acquire] + Chunks(b) + [Wakeup]);
            r.Some? && r.value.active && Stalled(r.value) && |r.value.full| == k.n
  {
    hide Run, Chunks;
    var k := Config(2, 256, 64);
    RunNone(k, EMPTY);
    var es := Extend(k, EMPTY, [], Suspend);
    es := AcquireAndFill(k, EMPTY, es, a);
    es := AcquireAndFill(k, EMPTY, es, b);
    es := Extend(k, EMPTY, es, Wakeup);
    assert [] + [Suspend] == [Suspend];
  }

  // ---------------------------------------------------------------------- draining

  /** The writer is silent and the bus active: start-of-frames and completions. */
  predicate BusOnly(es: seq<Event>) {
    forall e | e in es :: e.Sof? || e.Complete?
  }

  /** Active, and not stalled: the output is under way by itself. */
  predicate Flowing(s: State) {
    s.active && !Stalled(s)
  }

  /** A bound on the transmissions that are left. */
  function Pending(s: State): nat {
    2 * (|s.full| + if Partial(s) != [] then 1 else 0) + if s.tx == Sending([]) then 1 else 0
  }

  function Completions(es: seq<Event>): nat {
    if es == [] then 0 else Completions(es[..|es| - 1]) + if es[|es| - 1].Complete? then 1 else 0
  }

  lemma FlowStep(k: Config, s: State, e: Event)
    requires ConfigOk(k) && Inv(k, s) && Flowing(s) && Enabled(k, s, e) && (e.Sof? || e.Complete?)
    ensures var t := Step(k, s, e);
            Flowing(t) && t.accepted == s.accepted && Pending(t) + (if e.Complete? then 1 else 0) <= Pending(s)
  {
    hide Flat, NonEmpty;
    NotUnterminated(k);
  }

  /** Of the suspensions, wakeups and configurations of a run the last one was a suspension. */
  predicate Asleep(es: seq<Event>) {
    es != [] &&
    match es[|es| - 1]
    case Suspend => true
    case Wakeup => false
    case Configure => false
    case _ => Asleep(es[..|es| - 1])
  }

  lemma ActiveStep(k: Config, s: State, e: Event)
    requires ConfigOk(k) && Enabled(k, s, e)
    ensures Step(k, s, e).active == if e.Suspend? then false else e.Wakeup? || e.Configure? || s.active
  {
    hide Unterminated;
  }

  /** On every run the bus is active exactly if that is not so. */
  lemma {:induction false} ActiveExactly(k: Config, es: seq<Event>)
    requires ConfigOk(k) && Run(k, EMPTY, es).Some?
    ensures Run(k, EMPTY, es).value.active <==> !Asleep(es)
  {
    hide Step;
    if es == [] {
    } else {
      var before := es[..|es| - 1];
      ActiveExactly(k, before);
      ActiveStep(k, Run(k, EMPTY, before).value, es[|es| - 1]);
    }
  }

  /** No suspension since the last configuration. */
  predicate Undisturbed(es: seq<Event>) {
    es == [] || es[|es| - 1].Configure? || (!es[|es| - 1].Suspend? && Undisturbed(es[..|es| - 1]))
  }

  /** On a run in which the bus has not been suspended since the last configuration output flows. */
  lemma {:induction false} FlowsUnlessSuspended(k: Config, es: seq<Event>)
    requires ConfigOk(k) && Run(k, EMPTY, es).Some? && Undisturbed(es)
    ensures Flowing(Run(k, EMPTY, es).value)
  {
    hide Inv, Step;
    if es == [] {
    } else {
      var before, e := es[..|es| - 1], es[|es| - 1];
      if !e.Configure? { FlowsUnlessSuspended(k, before); }
      RunKeepsInv(k, before);
      StallStep(k, Run(k, EMPTY, before).value, e);
      ActiveStep(k, Run(k, EMPTY, before).value, e);
    }
  }

  lemma {:induction false} FlowRun(k: Config, s: State, es: seq<Event>)
    requires ConfigOk(k) && Inv(k, s) && Flowing(s) && BusOnly(es) && Run(k, s, es).Some?
    ensures var t := Run(k, s, es).value;
            Inv(k, t) && Flowing(t) && t.accepted == s.accepted && Pending(t) + Completions(es) <= Pending(s)
  {
    hide Inv, Step, Flowing, Pending;
    if es == [] {
    } else {
      var before, e := es[..|es| - 1], es[|es| - 1];
      assert e in es;
      FlowRun(k, s, before);
      StepKeepsInv(k, Run(k, s, before).value, e);
      FlowStep(k, Run(k, s, before).value, e);
    }
  }

  /** After a start-of-frame the endpoint is idle exactly if everything stored has been transmitted and terminated. */
  lemma QuietExactly(k: Config, s: State)
    requires ConfigOk(k) && Inv(k, s) && Flowing(s)
    ensures var t := Step(k, s, Sof); t.tx.Idle? <==> Flat(t.wire) == t.accepted && t.tx != Sending([])
  {
    hide Flat, NonEmpty, Unterminated;
    var t := Step(k, s, Sof);
    StepKeepsInv(k, s, Sof);
    FlatNonEmpty(t.wire);
    FlatAppend(NonEmpty(t.wire), t.full);
    NothingFlat();
    if t.full != [] { FlatHead(t.full); }
  }

  lemma NothingFlat()
    ensures Flat([]) == []
  {
  }

  /**
   * However start-of-frames and completions follow one another while output flows: the
   * completions are bounded, and when after a start-of-frame none is under way any
   * more, all bytes stored have been transmitted and the host knows it.
   */
  lemma Drains(k: Config, es: seq<Event>, more: seq<Event>)
    requires ConfigOk(k) && Run(k, EMPTY, es).Some? && Flowing(Run(k, EMPTY, es).value)
    requires BusOnly(more) && Run(k, EMPTY, es + more + [Sof]).Some?
    ensures var s, t := Run(k, EMPTY, es).value, Run(k, EMPTY, es + more + [Sof]).value;
            && Completions(more) <= Pending(s)
            && (t.tx.Idle? <==> Flat(t.wire) == StoredBytes(es) && t.tx != Sending([]))
  {
    hide Inv, Step, Flowing, Pending, Run;
    var s := Run(k, EMPTY, es).value;
    RunKeepsInv(k, es);
    RunPrefix(k, EMPTY, es + more, Sof);
    RunAppend(k, EMPTY, es, more);
    FlowRun(k, s, more);
    var r := Run(k, EMPTY, es + more).value;
    QuietExactly(k, r);
    FlowStep(k, r, Sof);
  }

  lemma RunPrefix(k: Config, s: State, es: seq<Event>, e: Event)
    requires ConfigOk(k) && Run(k, s, es + [e]).Some?
    ensures Run(k, s, es).Some? && Enabled(k, Run(k, s, es).value, e)
    ensures Run(k, s, es + [e]).value == Step(k, Run(k, s, es).value, e)
  {
    assert (es + [e])[..|es|] == es;
  }

  /** What is under way completes, one transmission after the other. */
  lemma {:induction false} Completed(k: Config, s: State, es: seq<Event>) returns (es': seq<Event>)
    requires ConfigOk(k) && Inv(k, s) && Flowing(s) && BusOnly(es) && Run(k, s, es).Some?
    ensures BusOnly(es') && Run(k, s, es').Some? && Run(k, s, es').value.tx.Idle?
    ensures Run(k, s, es').value.part == Run(k, s, es).value.part
    decreases Pending(Run(k, s, es).value)
  {
    hide Inv, Run, Flowing, Pending;
    var t := Run(k, s, es).value;
    if t.tx.Idle? {
      es' := es;
    } else {
      FlowRun(k, s, es);
      FlowStep(k, t, Complete);
      es' := Extend(k, s, es, Complete);
      es' := Completed(k, s, es');
    }
  }

  /** A start-of-frame on an idle endpoint leaves nothing in the partial buffer, and then does nothing more. */
  lemma SofTakesPartial(k: Config, s: State)
    requires ConfigOk(k) && Flowing(s) && s.tx.Idle?
    ensures Partial(Step(k, s, Sof)) == [] && (Partial(s) == [] ==> Step(k, s, Sof) == s)
  {
  }

  /**
   * And there is such a way: the transmissions under way complete, and after a
   * start-of-frame that of the partial buffer.
   */
  lemma DrainsSomehow(k: Config, es: seq<Event>) returns (more: seq<Event>)
    requires ConfigOk(k) && Run(k, EMPTY, es).Some? && Flowing(Run(k, EMPTY, es).value)
    ensures BusOnly(more) && Run(k, EMPTY, es + more + [Sof]).Some?
    ensures Run(k, EMPTY, es + more + [Sof]).value.tx.Idle?
    ensures Flat(Run(k, EMPTY, es + more + [Sof]).value.wire) == StoredBytes(es)
  {
    hide Inv, Step, Flowing, Pending, Run, Flat;
    var s := Run(k, EMPTY, es).value;
    RunKeepsInv(k, es);
    RunNone(k, s);
    more := Completed(k, s, []);
    FlowRun(k, s, more);
    SofTakesPartial(k, Run(k, s, more).value);
    more := Extend(k, s, more, Sof);
    more := Completed(k, s, more);
    FlowRun(k, s, more);
    SofTakesPartial(k, Run(k, s, more).value);
    RunAppend(k, EMPTY, es, more);
    RunSnoc(k, EMPTY, es + more, Sof);
    Drains(k, es, more);
  }
}
