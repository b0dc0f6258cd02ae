/**
 * The time window of the blocking reads and writes: a deadline on a 16-bit tick
 * counter that wraps, recomputed into a remaining time after each wakeup.
 */
module Deadlines {

  const TICKS: nat := 0x1_0000
  const TIME_IMMEDIATE: nat := 0
  const TIME_INFINITE: nat := 0xFFFF

  datatype Msg = Ok | Timeout | Reset

  /** The system time counter after now ticks. */
  function SystemTime(now: nat): (t: nat)
    ensures t < TICKS
  {
    now % TICKS
  }

  /** Unsigned 16-bit sum and difference. */
  function Plus(a: nat, b: nat): nat {
    (a + b) % TICKS
  }

  function Minus(a: nat, b: nat): nat {
    (a - b) % TICKS
  }

  lemma WrapIsUnique(x: int, q: int, r: int)
    requires x == q * TICKS + r && 0 <= r < TICKS
    ensures x % TICKS == r
  {
  }

  /**
   * The remaining time computed from the wrapped counter, whatever the start tick
   * and however long has passed: expiry is found exactly when the elapsed ticks,
   * less whole turns of the counter, exceed the timeout.
   */
  lemma Remaining(start: nat, now: nat, timeout: nat)
    requires start <= now && timeout < TICKS
    ensures var left := Minus(Plus(SystemTime(start), timeout), SystemTime(now));
            var elapsed := (now - start) % TICKS;
            && (left > timeout <==> elapsed > timeout)
            && (left <= timeout ==> left == timeout - elapsed)
  {
    var d: int, s, e := Plus(SystemTime(start), timeout), SystemTime(now), (now - start) % TICKS;
    var q := (SystemTime(start) + timeout) / TICKS;
    var a, b, c := start / TICKS, now / TICKS, (now - start) / TICKS;
    assert d - s == timeout - e + (b - a - c - q) * TICKS;
    if timeout >= e {
      WrapIsUnique(d - s, b - a - c - q, timeout - e);
    } else {
      WrapIsUnique(d - s, b - a - c - q - 1, timeout - e + TICKS);
    }
  }

  /**
   * Within one turn of the counter: exact remaining time, exact expiry, and the wait
   * asked for ends at the deadline.
   */
  lemma RemainingIsExact(start: nat, now: nat, timeout: nat)
    requires start <= now < start + TICKS && timeout < TICKS
    ensures var left := Minus(Plus(SystemTime(start), timeout), SystemTime(now));
            && (left > timeout <==> now - start > timeout)
            && (left <= timeout ==> now + left == start + timeout)
  {
    Remaining(start, now, timeout);
  }

  /** Exactly when an expired deadline goes unnoticed: the counter has gone round and stands within the window again. */
  lemma ExpiryMissed(start: nat, now: nat, timeout: nat)
    requires start <= now && timeout < TICKS
    ensures var left := Minus(Plus(SystemTime(start), timeout), SystemTime(now));
            now - start > timeout && left <= timeout <==> now - start >= TICKS && (now - start) % TICKS <= timeout
  {
    Remaining(start, now, timeout);
  }

  /** A wait asked for: when the thread went to sleep, and for how long. */
  datatype Wait = Wait(at: nat, ticks: nat)

  /**
   * All waits asked for within one turn of the counter end at the original deadline,
   * whatever has woken the thread before.
   */
  predicate EndAtDeadline(waits: seq<Wait>, start: nat, timeout: nat) {
    forall w | w in waits :: start <= w.at && (w.at < start + TICKS ==> w.at + w.ticks == start + timeout)
  }

  /** Time as it passes, of which a thread only sees the wrapped counter. */
  class Clock {
    var now: nat

    constructor ()
      ensures now == 0
    {
      now := 0;
    }

    method Pass()
      modifies this
      ensures now >= old(now)
    {
      var ticks: int :| ticks >= 0;
      now := now + ticks;
    }
  }
}
