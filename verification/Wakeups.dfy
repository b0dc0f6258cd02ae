/**
 * A reader asleep on an empty queue: what the interrupts make of it until it runs
 * again, and the waits it asks for if it then finds the queue empty after all.
 */
module Wakeups {
  import opened Deadlines
  import opened Streams

  /**
   * What the thread waits for is put there, something to read or a place to write; the
   * queue is cleared by a reset; it is suspended, and resumed.
   */
  datatype Interrupt = Put | Clear | Halt | Resume

  /** The first interrupt that resumes the sleeping thread settles what its wait returns. */
  function Settle(before: Option<Msg>, e: Interrupt): Option<Msg> {
    if before.Some? || e.Resume? then before else if e.Put? then Some(Ok) else Some(Reset)
  }

  function Message(es: seq<Interrupt>): (msg: Option<Msg>)
    ensures msg != Some(Timeout)
  {
    if es == [] then None else Settle(Message(es[..|es| - 1]), es[|es| - 1])
  }

  /** Whether something is in the queue afterwards. */
  predicate Filled(had: bool, es: seq<Interrupt>) {
    if es == [] then had else
    match es[|es| - 1]
    case Put => true
    case Clear => false
    case _ => Filled(had, es[..|es| - 1])
  }

  /** Whether the queue is suspended afterwards. */
  predicate Halted(was: bool, es: seq<Interrupt>) {
    if es == [] then was else
    match es[|es| - 1]
    case Put => Halted(was, es[..|es| - 1])
    case Halt => true
    case _ => false
  }

  lemma Snoc(was: bool, es: seq<Interrupt>, i: Interrupt)
    ensures Filled(was, es + [i]) == if i.Put? then true else if i.Clear? then false else Filled(was, es)
    ensures Halted(was, es + [i]) == if i.Put? then Halted(was, es) else i.Halt?
    ensures Message(es + [i]) == Settle(Message(es), i)
  {
    assert (es + [i])[..|es|] == es;
  }

  /** A timeout may come first once it has passed. */
  method Expired(clock: Clock, start: nat, timeout: nat) returns (late: bool)
    ensures late ==> timeout != TIME_INFINITE && clock.now >= start + timeout
  {
    var first: bool := *;
    late := first && timeout != TIME_INFINITE && clock.now >= start + timeout;
  }

  /** What settles nothing changes nothing. */
  lemma {:induction false} Unsettled(had: bool, es: seq<Interrupt>)
    requires Message(es) == None
    ensures Filled(had, es) == had && Clears(es) == 0
  {
    if es == [] {
    } else {
      Unsettled(had, es[..|es| - 1]);
    }
  }

  /** A reset message comes from a reset or a suspension. */
  lemma {:induction false} ResetHeard(es: seq<Interrupt>)
    requires Message(es) == Some(Reset)
    ensures Clears(es) > 0 || Halt in es
  {
    var front, e := es[..|es| - 1], es[|es| - 1];
    assert e in es && forall x | x in front :: x in es;
    if Message(front).Some? {
      ResetHeard(front);
    } else {
      assert e.Clear? || e.Halt?;
    }
  }

  // ---------------------------------------------------------------- overtaken by a reset

  /** One sleep: the interrupts until the thread runs, the tick it runs at, and what its wait returned. */
  datatype Sleep = Sleep(es: seq<Interrupt>, now: nat, msg: Msg)

  /** Woken because something was put in, the thread finds nothing. */
  predicate Overtaken(z: Sleep) {
    z.msg == Ok && !Filled(false, z.es)
  }

  /** Put i readies the thread, and everything is cleared at j, for good, before it runs. */
  predicate Races(es: seq<Interrupt>, i: nat, j: nat)
    requires i < j < |es|
  {
    && es[i].Put? && (forall k | 0 <= k < i :: es[k].Resume?)
    && es[j].Clear? && (forall k | j < k < |es| :: !es[k].Put?)
  }

  lemma {:induction false} FirstSettles(es: seq<Interrupt>, i: nat)
    requires i < |es| && !es[i].Resume? && forall k | 0 <= k < i :: es[k].Resume?
    ensures Message(es) == if es[i].Put? then Some(Ok) else Some(Reset)
    decreases |es|
  {
    var n := |es| - 1;
    if i == n {
      NothingSettled(es[..n]);
    } else {
      FirstSettles(es[..n], i);
    }
  }

  lemma {:induction false} NothingSettled(es: seq<Interrupt>)
    requires forall k | 0 <= k < |es| :: es[k].Resume?
    ensures Message(es) == None
  {
    if es == [] {
    } else {
      NothingSettled(es[..|es| - 1]);
    }
  }

  lemma {:induction false} SettledByFirst(es: seq<Interrupt>) returns (i: nat)
    requires Message(es).Some?
    ensures i < |es| && !es[i].Resume? && forall k | 0 <= k < i :: es[k].Resume?
  {
    i := 0;
    while i < |es| && es[i].Resume?
      invariant i <= |es| && forall k | 0 <= k < i :: es[k].Resume?
    {
      i := i + 1;
    }
    if i == |es| { NothingSettled(es); }
  }

  lemma {:induction false} ClearedForGood(es: seq<Interrupt>, j: nat)
    requires j < |es| && es[j].Clear? && forall k | j < k < |es| :: !es[k].Put?
    ensures !Filled(false, es)
    decreases |es|
  {
    if j == |es| - 1 {
    } else {
      ClearedForGood(es[..|es| - 1], j);
    }
  }

  lemma {:induction false} EmptyAfterPut(es: seq<Interrupt>, i: nat) returns (j: nat)
    requires i < |es| && es[i].Put? && !Filled(false, es)
    ensures i < j < |es| && es[j].Clear? && forall k | j < k < |es| :: !es[k].Put?
    decreases |es|
  {
    var n := |es| - 1;
    if es[n].Clear? {
      j := n;
    } else {
      j := EmptyAfterPut(es[..n], i);
      assert forall k | j < k < n :: es[k] == es[..n][k];
    }
  }

  /**
   * Exactly when a thread that was woken because something was put in finds nothing:
   * when that came before any reset, and a reset after it was the last word.
   */
  lemma OvertakenExactly(es: seq<Interrupt>)
    ensures Message(es) == Some(Ok) && !Filled(false, es) <==> exists i, j | 0 <= i < j < |es| :: Races(es, i, j)
  {
    if Message(es) == Some(Ok) && !Filled(false, es) {
      var i := SettledByFirst(es);
      FirstSettles(es, i);
      var j := EmptyAfterPut(es, i);
      assert Races(es, i, j);
    }
    if i, j :| 0 <= i < j < |es| && Races(es, i, j) {
      FirstSettles(es, i);
      ClearedForGood(es, j);
    }
  }

  /** Without a reset nobody is overtaken. */
  lemma NotOvertaken(z: Sleep)
    requires Clear !in z.es && (z.msg == Ok ==> Message(z.es) == Some(Ok))
    ensures !Overtaken(z)
  {
    OvertakenExactly(z.es);
  }

  // ---------------------------------------------------------------- the waits of a loop

  /** A wait with a deadline. */
  predicate Limited(timeout: nat) {
    timeout != TIME_INFINITE && timeout != TIME_IMMEDIATE
  }

  /**
   * A loop that waits while the queue is empty, each time for as long as was computed
   * at the start, when something was found in the queue, or it was suspended.
   */
  datatype Turn = Turn(computed: nat, ticks: nat, found: bool, halted: bool, sleeps: seq<Sleep>)

  /** The loop goes on waiting. */
  predicate GoesOn(z: Sleep) {
    Overtaken(z) && !Halted(false, z.es)
  }

  /** The tick at which sleep i begins. */
  function Begun(t: Turn, i: nat): nat
    requires i <= |t.sleeps|
  {
    if i == 0 then t.computed else t.sleeps[i - 1].now
  }

  /**
   * How a sleep that began at a tick may end: by what the interrupts have settled, or
   * by timeout once it has passed; with no time at all there is no sleep.
   */
  predicate Slept(z: Sleep, at: nat, ticks: nat) {
    && at <= z.now && (ticks == TIME_IMMEDIATE ==> z == Sleep([], at, Timeout))
    && (z.msg != Timeout ==> Message(z.es) == Some(z.msg))
    && (z.msg == Timeout ==> ticks != TIME_INFINITE && z.now >= at + ticks)
  }

  /** The sleeps follow one another as the loop makes them. */
  predicate Looped(t: Turn) {
    && (forall i | 0 <= i < |t.sleeps| :: Slept(t.sleeps[i], Begun(t, i), t.ticks))
    && (forall i | 0 <= i < |t.sleeps| - 1 :: GoesOn(t.sleeps[i]))
  }

  /** It has slept exactly if nothing was found in a queue not suspended, and does not go on. */
  predicate Over(t: Turn) {
    && (t.sleeps == [] <==> t.found || t.halted)
    && (t.sleeps != [] ==> !GoesOn(t.sleeps[|t.sleeps| - 1]))
  }

  /** What the loop returns. */
  function Returned(t: Turn): Msg {
    if t.sleeps == [] then if t.found then Ok else Reset
    else
      var last := t.sleeps[|t.sleeps| - 1];
      if Overtaken(last) then Reset else last.msg
  }

  function Asked(t: Turn): seq<Wait> {
    seq(|t.sleeps|, i requires 0 <= i < |t.sleeps| => Wait(Begun(t, i), t.ticks))
  }

  lemma OneMoreSleep(t: Turn, z: Sleep)
    requires Looped(t) && (t.sleeps != [] ==> GoesOn(t.sleeps[|t.sleeps| - 1]))
    requires Slept(z, Begun(t, |t.sleeps|), t.ticks)
    ensures Looped(t.(sleeps := t.sleeps + [z])) && Begun(t.(sleeps := t.sleeps + [z]), |t.sleeps| + 1) == z.now
  {
    hide Slept, GoesOn;
    var u := t.(sleeps := t.sleeps + [z]);
    assert forall i | 0 <= i <= |t.sleeps| :: Begun(u, i) == Begun(t, i);
  }

  lemma {:induction false} LaterAndLater(t: Turn, i: nat)
    requires Looped(t) && i <= |t.sleeps|
    ensures Begun(t, i) >= t.computed
    decreases i
  {
    if i == 0 {
    } else {
      LaterAndLater(t, i - 1);
      assert Slept(t.sleeps[i - 1], Begun(t, i - 1), t.ticks);
    }
  }

  /** The loop waits again exactly after the sleeps that go on. */
  lemma Again(t: Turn, i: nat)
    requires Looped(t) && Over(t) && i < |t.sleeps|
    ensures GoesOn(t.sleeps[i]) <==> i + 1 < |t.sleeps|
  {
    hide GoesOn, Slept;
  }

  predicate EndAt(waits: seq<Wait>, deadline: nat) {
    forall w | w in waits :: w.at + w.ticks == deadline
  }

  /**
   * Exactly when all waits of a loop end at its deadline: when no overtaken thread,
   * that waits again, runs later than the tick at which the time was computed.
   */
  lemma LateExactly(t: Turn)
    requires Looped(t) && Over(t)
    ensures EndAt(Asked(t), t.computed + t.ticks) <==> forall z | z in t.sleeps :: GoesOn(z) ==> z.now == t.computed
  {
    hide GoesOn, Looped, Over;
    var waits := Asked(t);
    if EndAt(waits, t.computed + t.ticks) {
      forall z | z in t.sleeps && GoesOn(z)
        ensures z.now == t.computed
      {
        var i :| 0 <= i < |t.sleeps| && t.sleeps[i] == z;
        Again(t, i);
        assert waits[i + 1] == Wait(z.now, t.ticks) && waits[i + 1] in waits;
      }
    } else {
      var w :| w in waits && w.at + w.ticks != t.computed + t.ticks;
      var i :| 0 <= i < |waits| && waits[i] == w;
      Again(t, i - 1);
      assert t.sleeps[i - 1] in t.sleeps;
    }
  }

  /** The turns of a read, whose lengths are counted down to its deadline, or without one are the time given. */
  predicate Counted(turns: seq<Turn>, start: nat, timeout: nat) {
    forall t | t in turns ::
      && Looped(t) && Over(t) && start <= t.computed
      && (Limited(timeout) && t.computed < start + TICKS ==> t.computed + t.ticks == start + timeout)
      && (!Limited(timeout) ==> t.ticks == timeout)
  }

  lemma OneMoreTurn(turns: seq<Turn>, t: Turn, start: nat, timeout: nat)
    requires Counted(turns, start, timeout) && timeout < TICKS && Looped(t) && Over(t) && start <= t.computed
    requires t.ticks <= timeout && (!Limited(timeout) ==> t.ticks == timeout)
    requires Limited(timeout) ==> t.ticks == Minus(Plus(SystemTime(start), timeout), SystemTime(t.computed))
    ensures Counted(turns + [t], start, timeout)
  {
    hide Looped, Over;
    if Limited(timeout) && t.computed < start + TICKS { RemainingIsExact(start, t.computed, timeout); }
  }

  predicate OnTime(turns: seq<Turn>, start: nat, timeout: nat) {
    forall t | t in turns :: EndAtDeadline(Asked(t), start, timeout)
  }

  /** No overtaken thread that waits again runs late, within one turn of the counter. */
  predicate NeverLate(turns: seq<Turn>, start: nat) {
    forall t | t in turns :: forall z | z in t.sleeps :: GoesOn(z) && z.now < start + TICKS ==> z.now == t.computed
  }

  predicate NeverAgain(turns: seq<Turn>) {
    forall t | t in turns :: forall z | z in t.sleeps :: !GoesOn(z)
  }

  lemma NoTurns(start: nat, timeout: nat)
    ensures Counted([], start, timeout) && NeverAgain([])
  {
  }

  /**
   * The same over a whole read: all its waits end at its deadline exactly if no
   * overtaken thread, that waits again, runs late.
   */
  lemma ReadLateExactly(turns: seq<Turn>, start: nat, timeout: nat)
    requires Counted(turns, start, timeout) && Limited(timeout)
    ensures OnTime(turns, start, timeout) <==> NeverLate(turns, start)
    ensures NeverAgain(turns) ==> OnTime(turns, start, timeout)
  {
    hide GoesOn, Looped, Over;
    forall t | t in turns
      ensures EndAtDeadline(Asked(t), start, timeout) <==>
              forall z | z in t.sleeps :: GoesOn(z) && z.now < start + TICKS ==> z.now == t.computed
    {
      TurnLateExactly(t, start, timeout);
    }
  }

  lemma TurnLateExactly(t: Turn, start: nat, timeout: nat)
    requires Counted([t], start, timeout) && Limited(timeout)
    ensures EndAtDeadline(Asked(t), start, timeout) <==>
            forall z | z in t.sleeps :: GoesOn(z) && z.now < start + TICKS ==> z.now == t.computed
  {
    hide GoesOn, Looped, Over;
    assert t in [t];
    var waits := Asked(t);
    if EndAtDeadline(waits, start, timeout) {
      forall z | z in t.sleeps && GoesOn(z) && z.now < start + TICKS
        ensures z.now == t.computed
      {
        var i :| 0 <= i < |t.sleeps| && t.sleeps[i] == z;
        LaterAndLater(t, i + 1);
        Again(t, i);
        assert waits[i + 1] == Wait(z.now, t.ticks) && waits[i + 1] in waits;
      }
    } else {
      var w :| w in waits && !(start <= w.at && (w.at < start + TICKS ==> w.at + w.ticks == start + timeout));
      var i :| 0 <= i < |waits| && waits[i] == w;
      LaterAndLater(t, i);
      if i > 0 { Again(t, i - 1); }
    }
  }

  /** All the interrupts heard, in order. */
  function Heard(zs: seq<Sleep>): seq<Interrupt> {
    if zs == [] then [] else Heard(zs[..|zs| - 1]) + zs[|zs| - 1].es
  }

  /** How many resets there are. */
  function Clears(es: seq<Interrupt>): nat {
    if es == [] then 0 else Clears(es[..|es| - 1]) + if es[|es| - 1].Clear? then 1 else 0
  }

  lemma ClearsSnoc(es: seq<Interrupt>, e: Interrupt)
    ensures Clears(es + [e]) == Clears(es) + if e.Clear? then 1 else 0
  {
    assert (es + [e])[..|es|] == es;
  }

  lemma {:induction false} ClearsAppend(a: seq<Interrupt>, b: seq<Interrupt>)
    ensures Clears(a + b) == Clears(a) + Clears(b)
    decreases |b|
  {
    if b == [] {
      assert a + b == a;
    } else {
      var front := b[..|b| - 1];
      ClearsAppend(a, front);
      assert a + b == a + front + [b[|b| - 1]];
      ClearsSnoc(a + front, b[|b| - 1]);
    }
  }

  lemma HeardSnoc(zs: seq<Sleep>, z: Sleep)
    ensures Heard(zs + [z]) == Heard(zs) + z.es && Clears(Heard(zs + [z])) == Clears(Heard(zs)) + Clears(z.es)
  {
    assert (zs + [z])[..|zs|] == zs;
    ClearsAppend(Heard(zs), z.es);
  }

  lemma {:induction false} NoClears(es: seq<Interrupt>)
    requires Clears(es) == 0
    ensures Clear !in es
  {
    if es == [] {
    } else {
      NoClears(es[..|es| - 1]);
    }
  }

  lemma NoSleeps(t: Turn)
    requires t.sleeps == []
    ensures Looped(t) && Begun(t, 0) == t.computed && Clears(Heard([])) == 0
    ensures t.found || t.halted ==> Over(t)
  {
  }

  // ---------------------------------------------------------------- it happens, and as late as one likes

  /** Something is put in, a reset follows, and only then the thread runs, a whole wait after it went to sleep. */
  function Overtakings(start: nat, ticks: nat, n: nat): (zs: seq<Sleep>)
    ensures |zs| == n
  {
    if n == 0 then [] else Overtakings(start, ticks, n - 1) + [Sleep([Put, Clear], start + n * ticks, Ok)]
  }

  lemma PutAndClear()
    ensures Message([Put, Clear]) == Some(Ok) && !Filled(false, [Put, Clear]) && !Halted(false, [Put, Clear])
  {
    assert [Put, Clear][..1] == [Put] && [Put][..0] == [];
  }

  /** For every number of resets there is a loop that ends that many times its wait after the deadline. */
  lemma {:induction false} LateWithoutBound(start: nat, ticks: nat, n: nat)
    requires ticks != TIME_IMMEDIATE
    ensures var t := Turn(start, ticks, false, false, Overtakings(start, ticks, n));
            Looped(t) && (n > 0 ==> GoesOn(t.sleeps[n - 1])) && Begun(t, n) == start + n * ticks
    ensures var zs := Overtakings(start, ticks, n) + [Sleep([], start + (n + 1) * ticks, Timeout)];
            var u := Turn(start, ticks, false, false, zs);
            ticks != TIME_INFINITE ==> Looped(u) && Over(u) && Asked(u)[n] == Wait(start + n * ticks, ticks)
  {
    var t := Turn(start, ticks, false, false, Overtakings(start, ticks, n));
    assert n > 0 ==> (n - 1) * ticks + ticks == n * ticks;
    assert (n + 1) * ticks == n * ticks + ticks;
    if n == 0 {
    } else {
      LateWithoutBound(start, ticks, n - 1);
      PutAndClear();
      OneMoreSleep(t.(sleeps := Overtakings(start, ticks, n - 1)), Sleep([Put, Clear], start + n * ticks, Ok));
    }
    if ticks != TIME_INFINITE {
      OneMoreSleep(t, Sleep([], start + (n + 1) * ticks, Timeout));
    }
  }

  // ---------------------------------------------------------------- reads and writes, sleep by sleep

  /** A sleep: when it began, for how long, how much there was to read or to write into, and how it ended. */
  datatype Nap = Nap(at: nat, ticks: nat, had: nat, z: Sleep)

  /** All sleeps began with nothing there, and for the time that was left, or without a deadline for the time given. */
  predicate Napped(naps: seq<Nap>, start: nat, timeout: nat) {
    forall nap | nap in naps ::
      && nap.had == 0 && start <= nap.at && Slept(nap.z, nap.at, nap.ticks)
      && (Limited(timeout) && nap.at < start + TICKS ==> nap.at + nap.ticks == start + timeout)
      && (!Limited(timeout) ==> nap.ticks == timeout)
  }

  function Waits(naps: seq<Nap>): seq<Wait> {
    seq(|naps|, i requires 0 <= i < |naps| => Wait(naps[i].at, naps[i].ticks))
  }

  lemma NapsEnd(naps: seq<Nap>, start: nat, timeout: nat)
    requires Napped(naps, start, timeout) && Limited(timeout)
    ensures EndAtDeadline(Waits(naps), start, timeout)
  {
    var waits := Waits(naps);
    forall w | w in waits
      ensures start <= w.at && (w.at < start + TICKS ==> w.at + w.ticks == start + timeout)
    {
      var i :| 0 <= i < |waits| && waits[i] == w;
      assert naps[i] in naps;
    }
  }

  lemma NoNaps(start: nat, timeout: nat)
    ensures Napped([], start, timeout)
  {
  }

  lemma OneMoreNap(naps: seq<Nap>, nap: Nap, start: nat, timeout: nat)
    requires Napped(naps, start, timeout) && timeout < TICKS && start <= nap.at && nap.had == 0
    requires Slept(nap.z, nap.at, nap.ticks)
    requires nap.ticks <= timeout && (!Limited(timeout) ==> nap.ticks == timeout)
    requires Limited(timeout) ==> nap.ticks == Minus(Plus(SystemTime(start), timeout), SystemTime(nap.at))
    ensures Napped(naps + [nap], start, timeout)
  {
    hide Slept;
    if Limited(timeout) && nap.at < start + TICKS { RemainingIsExact(start, nap.at, timeout); }
  }

  /** On the counter, the deadline has passed. */
  predicate Passed(start: nat, now: nat, timeout: nat) {
    Limited(timeout) && Minus(Plus(SystemTime(start), timeout), SystemTime(now)) > timeout
  }

  /** A read ends short with what its last turn returned, or because the deadline has passed. */
  predicate Accounts(turns: seq<Turn>, last: Msg, start: nat, now: nat, timeout: nat) {
    && last != Ok
    && ((turns != [] && Returned(turns[|turns| - 1]) == last) || (last == Timeout && Passed(start, now, timeout)))
  }

  /** A transfer ends short with what its last sleep returned, or because the deadline has passed. */
  predicate Explains(naps: seq<Nap>, last: Msg, start: nat, now: nat, timeout: nat) {
    && last != Ok
    && ((naps != [] && naps[|naps| - 1].z.msg == last) || (last == Timeout && Passed(start, now, timeout)))
  }

  /** Without a time limit only a reset message ends it short. */
  lemma OnlyResetsEnd(naps: seq<Nap>, last: Msg, start: nat, now: nat)
    requires Napped(naps, start, TIME_INFINITE) && Explains(naps, last, start, now, TIME_INFINITE)
    ensures last == Reset && naps != [] && Message(naps[|naps| - 1].z.es) == Some(Reset)
  {
    assert naps[|naps| - 1] in naps;
  }

  /**
   * One sleep settles it: there is one exactly if there was no room and the queue not
   * suspended, and it gives the result; without room a suspended queue gives a reset.
   */
  predicate Once(naps: seq<Nap>, start: nat, timeout: nat, room: bool, halted: bool, msg: Msg) {
    && (naps == [] <==> room || halted) && |naps| <= 1 && (naps == [] ==> msg == if room then Ok else Reset)
    && (naps != [] ==>
          var nap := naps[0];
          nap.at == start && nap.ticks == timeout && nap.had == 0 && Slept(nap.z, start, timeout) && nap.z.msg == msg)
  }

  lemma {:induction false} ClearHeard(es: seq<Interrupt>)
    ensures Clears(es) > 0 <==> Clear in es
  {
    if es == [] {
    } else {
      var front, e := es[..|es| - 1], es[|es| - 1];
      assert es == front + [e];
      ClearHeard(front);
    }
  }

  lemma {:induction false} OkHeard(es: seq<Interrupt>)
    requires Message(es) == Some(Ok)
    ensures Put in es
  {
    var front, e := es[..|es| - 1], es[|es| - 1];
    assert e in es && forall x | x in front :: x in es;
    if Message(front).Some? { OkHeard(front); }
  }
}
