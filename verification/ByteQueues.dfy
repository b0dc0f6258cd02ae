/**
 * The input and output byte queues: rings in a block of memory with two pointers
 * and a counter, each a first-in first-out sequence of at most the ring's size.
 */
module ByteQueues {
  import opened Bits
  import opened BufferMemory
  import opened Deadlines
  import opened Streams
  import opened Wakeups

  /** From position r on, wrapping at the top, the ring holds these bytes. */
  predicate RingHolds(m: seq<Byte>, r: nat, bytes: seq<Byte>) {
    r < |m| && |bytes| <= |m| && forall i | 0 <= i < |bytes| :: m[Slot(r, i, |m|)] == bytes[i]
  }

  /** A byte stored at the write position joins at the end and disturbs nothing. */
  lemma RingPut(m: seq<Byte>, r: nat, bytes: seq<Byte>, b: Byte)
    requires RingHolds(m, r, bytes) && |bytes| < |m|
    ensures RingHolds(m[Slot(r, |bytes|, |m|) := b], r, bytes + [b])
  {
  }

  lemma RingGet(m: seq<Byte>, r: nat, bytes: seq<Byte>)
    requires RingHolds(m, r, bytes) && bytes != []
    ensures r < |m| && |bytes| <= |m| && m[r] == bytes[0] && RingHolds(m, Slot(r, 1, |m|), bytes[1..])
    ensures Slot(r, 1, |m|) == if r + 1 == |m| then 0 else r + 1
    ensures Slot(Slot(r, 1, |m|), |bytes| - 1, |m|) == Slot(r, |bytes|, |m|)
  {
    assert Slot(r, 0, |m|) == r;
    assert forall i | 0 <= i < |bytes| - 1 :: Slot(Slot(r, 1, |m|), i, |m|) == Slot(r, i + 1, |m|);
    assert forall i | 0 <= i < |bytes| - 1 :: bytes[1..][i] == bytes[i + 1];
  }

  /** In a byte queue, which is never suspended, a reset message comes from a reset. */
  lemma ByteReset(es: seq<Interrupt>)
    requires Message(es) == Some(Reset) && Halt !in es
    ensures Clears(es) > 0
  {
    ResetHeard(es);
  }

  /** Interrupts put bytes in, a thread takes them out. */
  class InputQueue {
    const mem: array<Byte>
    const clock: Clock
    var counter: nat    // bytes in the queue
    var rdptr: nat
    var wrptr: nat

    /** What is in the queue; all bytes put in and taken out since the last reset, and the number of resets. */
    ghost var contents: seq<Byte>
    ghost var accepted: seq<Byte>
    ghost var taken: seq<Byte>
    ghost var epoch: nat

    ghost predicate Valid()
      reads this, mem
    {
      && RingHolds(mem[..], rdptr, contents) && counter == |contents| && wrptr == Slot(rdptr, counter, mem.Length)
      && taken + contents == accepted
    }

    constructor (size: nat)
      requires size >= 1
      ensures Valid() && fresh(mem) && mem.Length == size && contents == [] && fresh(clock)
    {
      mem := new Byte[size];
      clock := new Clock();
      counter, rdptr, wrptr, contents, accepted, taken, epoch := 0, 0, 0, [], [], [], 0;
    }

    method ResetI()
      requires Valid()
      modifies this
      ensures Valid() && contents == [] && taken == [] && epoch == old(epoch) + 1
    {
      rdptr, wrptr, counter := 0, 0, 0;
      contents, accepted, taken, epoch := [], [], [], epoch + 1;
    }

    method IsEmptyI() returns (b: bool)
      requires Valid()
      ensures b <==> contents == []
    {
      b := counter == 0;
    }

    /** The pointers meet in an empty and in a full ring; the counter tells which. */
    method IsFullI() returns (b: bool)
      requires Valid()
      ensures b <==> |contents| == mem.Length
    {
      b := wrptr == rdptr && counter != 0;
    }

    /** A byte is put in, or refused exactly if the ring is full. */
    method PutI(b: Byte) returns (msg: Msg)
      requires Valid()
      modifies this, mem
      ensures Valid() && epoch == old(epoch) && taken == old(taken)
      ensures msg == if |old(contents)| == mem.Length then Timeout else Ok
      ensures contents == if msg == Ok then old(contents) + [b] else old(contents)
      ensures accepted == if msg == Ok then old(accepted) + [b] else old(accepted)
    {
      var full := IsFullI();
      if full { return Timeout; }
      RingPut(mem[..], rdptr, contents, b);
      SlotNext(rdptr, counter, mem.Length);
      counter := counter + 1;
      mem[wrptr] := b;
      wrptr := wrptr + 1;
      if wrptr >= mem.Length { wrptr := 0; }
      contents, accepted := contents + [b], accepted + [b];
      msg := Ok;
    }

    method Take() returns (b: Byte)
      requires Valid() && contents != []
      modifies this`counter, this`rdptr, this`contents, this`taken
      ensures Valid() && [b] + contents == old(contents) && taken == old(taken) + [b]
    {
      hide RingHolds, Slot;
      RingGet(mem[..], rdptr, contents);
      counter := counter - 1;
      b := mem[rdptr];
      rdptr := rdptr + 1;
      if rdptr >= mem.Length { rdptr := 0; }
      taken, contents := taken + [b], contents[1..];
    }

    /** One interrupt, which does nothing if it finds no place for its byte. */
    method OneInterrupt(resets: bool) returns (e: Option<Interrupt>)
      requires Valid()
      modifies this, mem, clock
      ensures Valid() && clock.now >= old(clock.now) && e in {None, Some(Put), Some(Clear)}
      ensures e == Some(Clear) ==> resets && contents == [] && epoch == old(epoch) + 1
      ensures e != Some(Clear) ==> epoch == old(epoch) && taken == old(taken) && old(contents) <= contents
      ensures e == Some(Put) ==> contents != []
      ensures e == None ==> contents == old(contents)
    {
      var reset: bool, b: Byte := *, *;
      clock.Pass();
      if reset && resets {
        ResetI();
        e := Some(Clear);
      } else {
        var msg := PutI(b);
        e := if msg == Ok then Some(Put) else None;
      }
    }

    /** Time passes; interrupts put bytes in or, if resets are to come, reset the queue. */
    method Interrupts(resets: bool) returns (settled: Option<Msg>, ghost es: seq<Interrupt>)
      requires Valid()
      modifies this, mem, clock
      ensures Valid() && clock.now >= old(clock.now)
      ensures epoch == old(epoch) + Clears(es) && (!resets ==> epoch == old(epoch))
      ensures epoch == old(epoch) ==> taken == old(taken) && old(contents) <= contents
      ensures Filled(old(contents) != [], es) == (contents != []) && settled == Message(es)
      ensures Halt !in es && !Halted(false, es)
    {
      var steps: int := *;
      settled, es := None, [];
      while steps > 0
        invariant Valid() && clock.now >= old(clock.now) && settled == Message(es)
        invariant epoch == old(epoch) + Clears(es) && (!resets ==> epoch == old(epoch))
        invariant epoch == old(epoch) ==> taken == old(taken) && old(contents) <= contents
        invariant Filled(old(contents) != [], es) == (contents != [])
        invariant Halt !in es && !Halted(false, es)
        decreases steps
      {
        var e := OneInterrupt(resets);
        if e.Some? {
          settled := Settle(settled, e.value);
          ClearsSnoc(es, e.value);
          Snoc(old(contents) != [], es, e.value);
          Snoc(false, es, e.value);
          es := es + [e.value];
        }
        steps := steps - 1;
      }
    }

    /**
     * Sleeps on the queue. Woken with Ok when a byte is put in, the only reader finds
     * one, unless a reset has come in between.
     */
    method Sleep(timeout: nat, resets: bool) returns (msg: Msg, ghost z: Wakeups.Sleep)
      requires Valid() && contents == []
      modifies this, mem, clock
      ensures Valid() && clock.now >= old(clock.now) && epoch == old(epoch) + Clears(z.es)
      ensures epoch == old(epoch) ==> taken == old(taken)
      ensures z.now == clock.now && z.msg == msg && Slept(z, old(clock.now), timeout)
      ensures Filled(false, z.es) == (contents != []) && !Halted(false, z.es)
      ensures msg == Ok && !resets ==> contents != []
      ensures msg == Reset ==> epoch > old(epoch)
      ensures msg == Timeout ==> timeout != TIME_INFINITE && clock.now >= old(clock.now) + timeout
    {
      var start := clock.now;
      if timeout == TIME_IMMEDIATE { return Timeout, Wakeups.Sleep([], start, Timeout); }
      var settled;
      ghost var es;
      settled, es := Interrupts(resets);
      var late := Expired(clock, start, timeout);
      if late {
        msg := Timeout;
      } else {
        if settled.None? {
          Unsettled(false, es);
          es := Wake(es);
          settled := Some(Ok);
        }
        msg := settled.value;
      }
      z := Wakeups.Sleep(es, clock.now, msg);
      if msg == Ok && !resets {
        NoClears(es);
        NotOvertaken(z);
      }
      if msg == Reset { ByteReset(es); }
    }

    /** As long as nothing settles it and it is not late the thread sleeps: the next byte wakes it. */
    method Wake(ghost es: seq<Interrupt>) returns (ghost es': seq<Interrupt>)
      requires Valid() && contents == [] && Message(es) == None && !Halted(false, es)
      modifies this, mem, clock
      ensures Valid() && clock.now >= old(clock.now) && contents != []
      ensures epoch == old(epoch) && taken == old(taken) && Clears(es') == Clears(es)
      ensures Message(es') == Some(Ok) && Filled(false, es') && !Halted(false, es') && (Halt !in es ==> Halt !in es')
    {
      clock.Pass();
      var b: Byte := *;
      var msg := PutI(b);
      Snoc(false, es, Put);
      ClearsSnoc(es, Put);
      es' := es + [Put];
    }

    /** One more sleep of a turn. */
    method SleepOnce(timeout: nat, resets: bool, ghost turn: Turn)
        returns (msg: Msg, ghost turn': Turn, ghost z: Wakeups.Sleep)
      requires Valid() && contents == []
      requires Looped(turn) && turn.ticks == timeout && Begun(turn, |turn.sleeps|) == clock.now
      requires (turn.sleeps != [] ==> GoesOn(turn.sleeps[|turn.sleeps| - 1])) && !turn.found && !turn.halted
      modifies this, mem, clock
      ensures Valid() && clock.now >= old(clock.now)
      ensures epoch == old(epoch) + Clears(Heard(turn'.sleeps)) - Clears(Heard(turn.sleeps)) >= old(epoch)
      ensures epoch == old(epoch) ==> taken == old(taken)
      ensures Looped(turn') && Begun(turn', |turn'.sleeps|) == clock.now
      ensures turn' == turn.(sleeps := turn.sleeps + [z])
      ensures (GoesOn(z) <==> msg == Ok && contents == []) && (GoesOn(z) ==> resets)
      ensures z.msg == msg && (Overtaken(z) <==> GoesOn(z)) && (msg == Reset ==> epoch > old(epoch))
      ensures msg == Timeout ==> timeout != TIME_INFINITE && clock.now >= old(clock.now) + timeout
    {
      hide Looped, Slept, Filled, Halted, Clears, Heard, RingHolds;
      msg, z := Sleep(timeout, resets);
      OneMoreSleep(turn, z);
      HeardSnoc(turn.sleeps, z);
      turn' := turn.(sleeps := turn.sleeps + [z]);
    }

    /**
     * A reset may overtake the thread any number of times; it then waits again, for as
     * long as the first time. All its waits end where the first does exactly if no
     * overtaken thread runs later than it was called.
     */
    method GetTimeout(timeout: nat) returns (msg: Msg, b: Byte, ghost turn: Turn)
      requires Valid()
      modifies this, mem, clock
      ensures Valid() && epoch >= old(epoch)
      ensures epoch == old(epoch) ==> taken == old(taken) + (if msg == Ok then [b] else [])
      ensures old(contents) != [] ==> msg == Ok && turn.sleeps == []
      ensures msg == Timeout ==> timeout != TIME_INFINITE && clock.now >= old(clock.now) + timeout
      ensures turn.computed == old(clock.now) && turn.ticks == timeout && Looped(turn) && Over(turn)
      ensures turn.found == (old(contents) != []) && !turn.halted && msg == Returned(turn)
      ensures msg == Reset ==> epoch > old(epoch)
      ensures EndAt(Asked(turn), old(clock.now) + timeout) <==>
              forall z | z in turn.sleeps :: GoesOn(z) ==> z.now == old(clock.now)
      ensures epoch == old(epoch) + Clears(Heard(turn.sleeps))
    {
      hide Looped, GoesOn, Overtaken, Clears, Heard, EndAt, Asked, RingHolds;
      var empty := IsEmptyI();
      b, turn := 0, Turn(clock.now, timeout, !empty, false, []);
      NoSleeps(turn);
      var resets: nat :| true;
      while empty
        invariant Valid() && epoch >= old(epoch) && (epoch == old(epoch) ==> taken == old(taken))
        invariant empty == (contents == []) && (old(contents) != [] ==> !empty && turn.sleeps == [])
        invariant clock.now >= old(clock.now) && epoch == old(epoch) + Clears(Heard(turn.sleeps))
        invariant turn.computed == old(clock.now) && turn.ticks == timeout && Looped(turn)
        invariant turn.found == (old(contents) != []) && !turn.halted && (turn.sleeps == [] ==> turn.found == !empty)
        invariant turn.sleeps != [] ==> !turn.found && (!empty ==> Returned(turn) == Ok)
        invariant Begun(turn, |turn.sleeps|) == clock.now
        invariant turn.sleeps != [] ==> (GoesOn(turn.sleeps[|turn.sleeps| - 1]) <==> empty)
        decreases if empty then 1 + resets else 0
      {
        ghost var z;
        msg, turn, z := SleepOnce(timeout, resets > 0, turn);
        assert turn.sleeps[|turn.sleeps| - 1] == z;
        if msg != Ok {
          LateExactly(turn);
          return;
        }
        empty := IsEmptyI();
        if resets > 0 { resets := resets - 1; }
      }
      LateExactly(turn);
      b := Take();
      msg := Ok;
    }

    /**
     * Reads up to n bytes, interrupts coming in between any two. In an epoch the bytes
     * returned are exactly the next ones put in, one at least if one is there; a read
     * without a reset gives up no earlier than its timeout, and waits no longer. It
     * only ends short after a sleep that ended so, on an empty queue, or because its
     * deadline has passed; without a time limit and without a reset it never does.
     */
    method ReadTimeout(n: nat, timeout: nat) returns (buf: seq<Byte>, ghost last: Msg, ghost naps: seq<Nap>)
      requires Valid() && n > 0 && timeout < TICKS
      modifies this, mem, clock
      ensures Valid() && epoch >= old(epoch) && |buf| <= n
      ensures epoch == old(epoch) ==> taken == old(taken) + buf
      ensures last == Ok <==> |buf| == n
      ensures old(contents) != [] ==> buf != []
      ensures last == Timeout ==> timeout != TIME_INFINITE && clock.now >= old(clock.now) + timeout
      ensures Napped(naps, old(clock.now), timeout)
      ensures Limited(timeout) ==> EndAtDeadline(Waits(naps), old(clock.now), timeout)
      ensures |buf| < n ==> Explains(naps, last, old(clock.now), clock.now, timeout)
      ensures last == Reset ==> epoch > old(epoch)
      ensures timeout == TIME_INFINITE && epoch == old(epoch) ==> |buf| == n
    {
      hide RingHolds, Valid, Napped, Slept, EndAtDeadline, Plus, Minus, SystemTime, Filled, Halted, Waits;
      buf, naps := [], [];
      NoNaps(clock.now, timeout);
      var deadline := Plus(SystemTime(clock.now), timeout);
      ghost var start := clock.now;
      if Limited(timeout) { NapsEnd(naps, start, timeout); }
      var resets: nat :| true;
      while true
        invariant Valid() && epoch >= old(epoch) && clock.now >= start && |buf| < n
        invariant epoch == old(epoch) ==> taken == old(taken) + buf
        invariant Napped(naps, start, timeout) && (Limited(timeout) ==> EndAtDeadline(Waits(naps), start, timeout))
        invariant buf == [] ==> contents == old(contents)
        decreases n - |buf|
      {
        var empty := IsEmptyI();
        while empty
          invariant Valid() && epoch >= old(epoch) && clock.now >= start && empty == (contents == [])
          invariant epoch == old(epoch) ==> taken == old(taken) + buf
          invariant Napped(naps, start, timeout) && (Limited(timeout) ==> EndAtDeadline(Waits(naps), start, timeout))
          invariant buf == [] && old(contents) != [] ==> !empty
          decreases if empty then 1 + resets else 0
        {
          var nextTimeout := timeout;
          if timeout != TIME_INFINITE && timeout != TIME_IMMEDIATE {
            nextTimeout := Minus(deadline, SystemTime(clock.now));
            Remaining(start, clock.now, timeout);
            if nextTimeout > timeout { return buf, Timeout, naps; }
          }
          var msg;
          ghost var at, had := clock.now, |contents|;
          ghost var z;
          msg, z := Sleep(nextTimeout, resets > 0);
          ghost var nap := Nap(at, nextTimeout, had, z);
          OneMoreNap(naps, nap, start, timeout);
          naps := naps + [nap];
          if Limited(timeout) { NapsEnd(naps, start, timeout); }
          if msg != Ok { return buf, msg, naps; }
          empty := IsEmptyI();
          if resets > 0 { resets := resets - 1; }
        }
        var b := Take();
        buf := buf + [b];
        if |buf| == n { return buf, Ok, naps; }
        var settled;
        ghost var es;
        settled, es := Interrupts(true);
      }
    }
  }

  /** A thread puts bytes in, interrupts take them out; the counter counts the free places. */
  class OutputQueue {
    const mem: array<Byte>
    const clock: Clock
    var counter: nat
    var rdptr: nat
    var wrptr: nat

    ghost var contents: seq<Byte>
    ghost var accepted: seq<Byte>
    ghost var taken: seq<Byte>
    ghost var epoch: nat

    ghost predicate Valid()
      reads this, mem
    {
      && RingHolds(mem[..], rdptr, contents) && counter == mem.Length - |contents|
      && wrptr == Slot(rdptr, |contents|, mem.Length) && taken + contents == accepted
    }

    constructor (size: nat)
      requires size >= 1
      ensures Valid() && fresh(mem) && mem.Length == size && contents == [] && fresh(clock)
    {
      mem := new Byte[size];
      clock := new Clock();
      counter, rdptr, wrptr, contents, accepted, taken, epoch := size, 0, 0, [], [], [], 0;
    }

    method ResetI()
      requires Valid()
      modifies this
      ensures Valid() && contents == [] && accepted == [] && epoch == old(epoch) + 1
    {
      rdptr, wrptr, counter := 0, 0, mem.Length;
      contents, accepted, taken, epoch := [], [], [], epoch + 1;
    }

    method IsFullI() returns (b: bool)
      requires Valid()
      ensures |contents| <= mem.Length && (b <==> |contents| == mem.Length)
    {
      b := counter == 0;
    }

    /** The pointers meet in an empty and in a full ring; the counter tells which. */
    method IsEmptyI() returns (b: bool)
      requires Valid()
      ensures b <==> contents == []
    {
      b := wrptr == rdptr && counter != 0;
    }

    method Store(b: Byte)
      requires Valid() && |contents| < mem.Length
      modifies this`counter, this`wrptr, this`contents, this`accepted, mem
      ensures Valid() && contents == old(contents) + [b] && accepted == old(accepted) + [b]
    {
      RingPut(mem[..], rdptr, contents, b);
      SlotNext(rdptr, |contents|, mem.Length);
      counter := counter - 1;
      mem[wrptr] := b;
      wrptr := wrptr + 1;
      if wrptr >= mem.Length { wrptr := 0; }
      contents, accepted := contents + [b], accepted + [b];
    }

    /** The oldest byte is taken out, or the queue found empty. */
    method GetI() returns (msg: Msg, b: Byte)
      requires Valid()
      modifies this`counter, this`rdptr, this`contents, this`taken
      ensures Valid() && msg == if old(contents) == [] then Timeout else Ok
      ensures msg == Ok ==> [b] + contents == old(contents) && taken == old(taken) + [b]
      ensures msg != Ok ==> contents == old(contents) && taken == old(taken)
    {
      var empty := IsEmptyI();
      if empty { return Timeout, 0; }
      b := Take();
      msg := Ok;
    }

    method Take() returns (b: Byte)
      requires Valid() && contents != []
      modifies this`counter, this`rdptr, this`contents, this`taken
      ensures Valid() && [b] + contents == old(contents) && taken == old(taken) + [b]
    {
      hide RingHolds, Slot;
      RingGet(mem[..], rdptr, contents);
      counter := counter + 1;
      b := mem[rdptr];
      rdptr := rdptr + 1;
      if rdptr >= mem.Length { rdptr := 0; }
      taken, contents := taken + [b], contents[1..];
    }

    /** Time passes; interrupts take bytes out or reset the queue. */
    method Interrupts() returns (settled: Option<Msg>, ghost es: seq<Interrupt>)
      requires Valid()
      modifies this, clock
      ensures Valid() && clock.now >= old(clock.now) && epoch == old(epoch) + Clears(es)
      ensures epoch == old(epoch) ==> accepted == old(accepted) && old(taken) <= taken
      ensures settled == Message(es) && Halt !in es && (es == [] <==> settled == None)
      ensures es == [] ==> contents == old(contents)
      ensures es != [] ==> |contents| < mem.Length
    {
      var steps: int := *;
      settled, es := None, [];
      while steps > 0
        invariant Valid() && clock.now >= old(clock.now) && epoch == old(epoch) + Clears(es)
        invariant epoch == old(epoch) ==> accepted == old(accepted) && old(taken) <= taken
        invariant settled == Message(es) && Halt !in es && (es == [] <==> settled == None)
        invariant es == [] ==> contents == old(contents)
        invariant es != [] ==> |contents| < mem.Length
        decreases steps
      {
        var e := OneInterrupt();
        if e.Some? {
          settled := Settle(settled, e.value);
          ClearsSnoc(es, e.value);
          Snoc(false, es, e.value);
          es := es + [e.value];
        }
        steps := steps - 1;
      }
    }

    /** One interrupt, which does nothing if it finds no byte. */
    method OneInterrupt() returns (e: Option<Interrupt>)
      requires Valid()
      modifies this, clock
      ensures Valid() && clock.now >= old(clock.now) && e in {None, Some(Put), Some(Clear)}
      ensures e == Some(Clear) ==> contents == [] && epoch == old(epoch) + 1
      ensures e != Some(Clear) ==> epoch == old(epoch) && accepted == old(accepted) && old(taken) <= taken
      ensures e == Some(Put) ==> |contents| + 1 == |old(contents)|
      ensures e == None ==> contents == old(contents) == []
    {
      var reset: bool := *;
      clock.Pass();
      if reset {
        ResetI();
        e := Some(Clear);
      } else {
        var msg, _ := GetI();
        e := if msg == Ok then Some(Put) else None;
      }
    }

    /** Sleeps on the queue; woken with Ok when a byte is taken out, the only writer finds room. */
    method Sleep(timeout: nat) returns (msg: Msg, ghost z: Wakeups.Sleep)
      requires Valid() && |contents| == mem.Length
      modifies this, clock
      ensures Valid() && clock.now >= old(clock.now) && epoch >= old(epoch)
      ensures epoch == old(epoch) ==> accepted == old(accepted)
      ensures z.now == clock.now && z.msg == msg && Slept(z, old(clock.now), timeout)
      ensures msg == Ok ==> |contents| < mem.Length
      ensures msg == Reset ==> epoch > old(epoch)
      ensures msg == Timeout ==> timeout != TIME_INFINITE && clock.now >= old(clock.now) + timeout
    {
      var start := clock.now;
      if timeout == TIME_IMMEDIATE { return Timeout, Wakeups.Sleep([], start, Timeout); }
      var settled;
      ghost var es;
      settled, es := Interrupts();
      var late := Expired(clock, start, timeout);
      if late {
        msg := Timeout;
      } else {
        if settled.None? {
          es := Wake();
          settled := Some(Ok);
        }
        msg := settled.value;
      }
      z := Wakeups.Sleep(es, clock.now, msg);
      if msg == Reset { ByteReset(es); }
    }

    /** As long as nothing settles it and it is not late the thread sleeps: the next byte taken out wakes it. */
    method Wake() returns (ghost es: seq<Interrupt>)
      requires Valid() && contents != []
      modifies this, clock
      ensures Valid() && clock.now >= old(clock.now) && |contents| < mem.Length
      ensures epoch == old(epoch) && accepted == old(accepted) && es == [Put] && Message(es) == Some(Ok)
    {
      clock.Pass();
      var msg, _ := GetI();
      Snoc(false, [], Put);
      es := [] + [Put];
    }

    /** A byte is put in; only on a full queue the thread sleeps, and gives up with what its sleep returned. */
    method PutTimeout(b: Byte, timeout: nat) returns (msg: Msg, ghost naps: seq<Nap>)
      requires Valid() && timeout < TICKS
      modifies this, mem, clock
      ensures Valid() && epoch >= old(epoch)
      ensures epoch == old(epoch) ==> accepted == old(accepted) + (if msg == Ok then [b] else [])
      ensures |old(contents)| < mem.Length ==> msg == Ok
      ensures msg == Timeout ==> timeout != TIME_INFINITE && clock.now >= old(clock.now) + timeout
      ensures Once(naps, old(clock.now), timeout, |old(contents)| < mem.Length, false, msg)
      ensures msg == Reset ==> epoch > old(epoch)
    {
      hide Slept;
      var full := IsFullI();
      naps := [];
      while full
        invariant Valid() && epoch >= old(epoch) && (epoch == old(epoch) ==> accepted == old(accepted))
        invariant clock.now >= old(clock.now) && full == (|contents| == mem.Length) && |contents| <= mem.Length
        invariant |old(contents)| < mem.Length ==> !full
        invariant full ==> clock.now == old(clock.now) && naps == []
        invariant !full ==> Once(naps, old(clock.now), timeout, |old(contents)| < mem.Length, false, Ok)
        decreases if full then 1 else 0
      {
        ghost var at, had := clock.now, mem.Length - |contents|;
        ghost var z;
        msg, z := Sleep(timeout);
        naps := [Nap(at, timeout, had, z)];
        if msg != Ok { return; }
        full := IsFullI();
      }
      Store(b);
      msg := Ok;
    }

    /**
     * Writes bp, interrupts coming in between any two bytes. In an epoch the bytes put
     * in are exactly the first w of bp, one at least if there is room; a write without
     * a reset gives up no earlier than its timeout, and waits no longer. It only ends
     * short after a sleep that ended so, on a full queue, or because its deadline has
     * passed; without a time limit and without a reset it never does.
     */
    method WriteTimeout(bp: seq<Byte>, timeout: nat) returns (w: nat, ghost last: Msg, ghost naps: seq<Nap>)
      requires Valid() && bp != [] && timeout < TICKS
      modifies this, mem, clock
      ensures Valid() && epoch >= old(epoch) && w <= |bp|
      ensures epoch == old(epoch) ==> accepted == old(accepted) + bp[..w]
      ensures last == Ok <==> w == |bp|
      ensures |old(contents)| < mem.Length ==> w > 0
      ensures last == Timeout ==> timeout != TIME_INFINITE && clock.now >= old(clock.now) + timeout
      ensures Napped(naps, old(clock.now), timeout)
      ensures Limited(timeout) ==> EndAtDeadline(Waits(naps), old(clock.now), timeout)
      ensures w < |bp| ==> Explains(naps, last, old(clock.now), clock.now, timeout)
      ensures last == Reset ==> epoch > old(epoch)
      ensures timeout == TIME_INFINITE && epoch == old(epoch) ==> w == |bp|
    {
      hide RingHolds, Valid, Napped, Slept, EndAtDeadline, Plus, Minus, SystemTime, Waits;
      w, naps := 0, [];
      NoNaps(clock.now, timeout);
      var deadline := Plus(SystemTime(clock.now), timeout);
      ghost var start := clock.now;
      if Limited(timeout) { NapsEnd(naps, start, timeout); }
      while true
        invariant Valid() && epoch >= old(epoch) && clock.now >= start && w < |bp|
        invariant epoch == old(epoch) ==> accepted == old(accepted) + bp[..w]
        invariant Napped(naps, start, timeout) && (Limited(timeout) ==> EndAtDeadline(Waits(naps), start, timeout))
        invariant w == 0 ==> contents == old(contents)
        decreases |bp| - w
      {
        var full := IsFullI();
        while full
          invariant Valid() && epoch >= old(epoch) && clock.now >= start
          invariant full == (|contents| == mem.Length) && |contents| <= mem.Length
          invariant epoch == old(epoch) ==> accepted == old(accepted) + bp[..w]
          invariant Napped(naps, start, timeout) && (Limited(timeout) ==> EndAtDeadline(Waits(naps), start, timeout))
          invariant w == 0 && |old(contents)| < mem.Length ==> !full
          decreases if full then 1 else 0
        {
          var nextTimeout := timeout;
          if timeout != TIME_INFINITE && timeout != TIME_IMMEDIATE {
            nextTimeout := Minus(deadline, SystemTime(clock.now));
            Remaining(start, clock.now, timeout);
            if nextTimeout > timeout { return w, Timeout, naps; }
          }
          var msg;
          ghost var at, had := clock.now, mem.Length - |contents|;
          ghost var z;
          msg, z := Sleep(nextTimeout);
          ghost var nap := Nap(at, nextTimeout, had, z);
          OneMoreNap(naps, nap, start, timeout);
          naps := naps + [nap];
          if Limited(timeout) { NapsEnd(naps, start, timeout); }
          if msg != Ok { return w, msg, naps; }
          full := IsFullI();
        }
        Store(bp[w]);
        assert bp[..w + 1] == bp[..w] + [bp[w]];
        w := w + 1;
        if w == |bp| { return w, Ok, naps; }
        var settled;
        ghost var es;
        settled, es := Interrupts();
      }
    }
  }
}
