/** Division with remainder by a divisor that is not a constant, and the bits of unbounded numbers. */
module Arithmetic {

  /** Quotient and remainder are unique. */
  lemma RemainderOf(x: nat, m: nat, q: nat, r: nat)
    requires m > 0 && r < m && x == q * m + r
    ensures x % m == r
  {
    var q', r' := x / m, x % m;
    assert x == q' * m + r';
    assert (q - q') * m == r' - r;
    if q > q' { Multiple(q - q', m); }
    if q < q' { Multiple(q' - q, m); }
  }

  lemma Multiple(k: nat, m: nat)
    requires k >= 1
    ensures k * m >= m
  {
  }

  /** A quotient of naturals is natural. */
  lemma QuotientNatural(x: nat, m: nat)
    requires m > 0
    ensures x / m >= 0
  {
  }

  /** Taking the divisor off once leaves the remainder. */
  lemma RemainderLess(x: nat, m: nat)
    requires m > 0 && x >= m
    ensures x % m == (x - m) % m
  {
    var q, r := (x - m) / m, (x - m) % m;
    assert x - m == q * m + r;
    assert (q + 1) * m == q * m + m;
    RemainderOf(x, m, q + 1, r);
  }

  // ---------------------------------------------------------------- bits of numbers

  predicate IsPowerOfTwo(n: nat) {
    n == 1 || (n > 1 && n % 2 == 0 && IsPowerOfTwo(n / 2))
  }

  /** The bitwise conjunction of two numbers. */
  function BitAnd(a: nat, b: nat): nat {
    if a == 0 || b == 0 then 0 else (a % 2) * (b % 2) + 2 * BitAnd(a / 2, b / 2)
  }

  lemma BitAndStep(a: nat, b: nat)
    requires a > 0 && b > 0
    ensures BitAnd(a, b) == (a % 2) * (b % 2) + 2 * BitAnd(a / 2, b / 2)
  {
  }

  /** The mask test for a multiple of the packet size is right for powers of two. */
  lemma {:induction false} MaskIsRemainder(a: nat, p: nat)
    requires IsPowerOfTwo(p)
    ensures BitAnd(a, p - 1) == a % p
  {
    if p == 1 {
      assert BitAnd(a, 0) == 0 && a % 1 == 0;
    } else if a == 0 {
      RemainderOf(0, p, 0, 0);
    } else {
      var h := p / 2;
      MaskIsRemainder(a / 2, h);
      assert p == 2 * h && (p - 1) / 2 == h - 1 && (p - 1) % 2 == 1;
      BitAndStep(a, p - 1);
      Halves(a, h);
    }
  }

  lemma Halves(a: nat, h: nat)
    requires h > 0
    ensures a % (2 * h) == a % 2 + 2 * (a / 2 % h)
  {
    var q, r := a / 2 / h, a / 2 % h;
    assert a == 2 * (q * h + r) + a % 2;
    RemainderOf(a, 2 * h, q, 2 * r + a % 2);
  }

  /** The bitwise disjunction of two numbers. */
  function BitOr(a: nat, b: nat): nat
    decreases a + b
  {
    if a == 0 then b else if b == 0 then a else (if a % 2 == 1 || b % 2 == 1 then 1 else 0) + 2 * BitOr(a / 2, b / 2)
  }

  function Pow2(n: nat): (p: nat)
    ensures p > 0
  {
    if n == 0 then 1 else 2 * Pow2(n - 1)
  }

  lemma {:induction false} Pow2IsPower(n: nat)
    ensures IsPowerOfTwo(Pow2(n))
  {
    if n > 0 { Pow2IsPower(n - 1); }
  }

  lemma {:induction false} Pow2Add(a: nat, b: nat)
    ensures Pow2(a + b) == Pow2(a) * Pow2(b)
  {
    if a > 0 { Pow2Add(a - 1, b); }
  }

  /** Pieces that do not overlap are put together by disjunction as by addition. */
  lemma {:induction false} OrIsSum(low: nat, high: nat, k: nat)
    requires low < Pow2(k)
    ensures BitOr(low, high * Pow2(k)) == low + high * Pow2(k)
    decreases k
  {
    if low == 0 || high == 0 {
    } else {
      var p := Pow2(k - 1);
      assert high * Pow2(k) == 2 * (high * p);
      Multiple(high, p);
      OrIsSum(low / 2, high, k - 1);
      if low / 2 == 0 { assert BitOr(0, high * p) == high * p; }
    }
  }

  /** Masking with ones below bit n is the remainder. */
  lemma MaskPow2(a: nat, n: nat)
    ensures BitAnd(a, Pow2(n) - 1) == a % Pow2(n)
  {
    Pow2IsPower(n);
    MaskIsRemainder(a, Pow2(n));
  }
}
