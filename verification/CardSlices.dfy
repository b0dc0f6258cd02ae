/** Bit fields of a card's registers, which are arrays of 32-bit words, least significant word first. */
module CardSlices {
  import opened Arithmetic
  import opened Streams

  const WORD: nat := 0x1_0000_0000

  predicate Words(data: seq<nat>) {
    forall i | 0 <= i < |data| :: data[i] < WORD
  }

  /** The register as one number. */
  function Whole(data: seq<nat>): nat {
    if data == [] then 0 else data[0] + WORD * Whole(data[1..])
  }

  function Quotient(x: nat, m: nat): nat
    requires m > 0
  {
    QuotientNatural(x, m);
    x / m
  }

  /** Shifts of 32-bit words. */
  function ShiftRight(x: nat, n: nat): nat {
    Quotient(x, Pow2(n))
  }

  function ShiftLeft(x: nat, n: nat): nat {
    x * Pow2(n) % WORD
  }

  /** The ones below bit n; all of them if n is 32. */
  function Ones(n: nat): nat
    requires n <= 32
  {
    Pow2(n) - 1
  }

  /** The field from bit start to bit end, put together from one word or two. */
  function GetSlice(data: seq<nat>, end: nat, start: nat): nat
    requires start <= end < start + 32 && end / 32 < |data|
  {
    var startidx, startoff, endidx, endmask := start / 32, start % 32, end / 32, Ones(end % 32 + 1);
    if startidx < endidx then
      BitOr(ShiftRight(data[startidx], startoff), ShiftLeft(BitAnd(data[endidx], endmask), 32 - startoff))
    else
      ShiftRight(BitAnd(data[startidx], endmask), startoff)
  }

  // ---------------------------------------------------------------- what it means

  lemma QuotientOf(x: nat, m: nat, q: nat, r: nat)
    requires m > 0 && r < m && x == q * m + r
    ensures x / m == q && x % m == r
  {
    RemainderOf(x, m, q, r);
    assert (x / m - q) * m == 0;
  }

  lemma Monotone(x: nat, y: nat, a: nat)
    requires x <= y
    ensures x * a <= y * a
  {
    assert y * a == x * a + (y - x) * a;
  }

  /** A number of two digits, the upper one below k. */
  lemma Digits(s: nat, a: nat, r: nat, k: nat)
    requires r < a && s < k
    ensures s * a + r < k * a
  {
    Monotone(s + 1, k, a);
    assert (s + 1) * a == s * a + a;
  }

  lemma Associate(w: nat, m: nat, l: nat, r: nat)
    requires w == m * l
    ensures w * r == m * (l * r)
  {
  }

  lemma Distribute(u: nat, q: nat, b: nat, r: nat, a: nat)
    requires u == q * b + r
    ensures u * a == q * (b * a) + r * a
  {
    Associate(q * b, q, b, a);
    assert u * a == (q * b) * a + r * a;
  }

  /** Taking off low places in two steps. */
  lemma DivideTwice(x: nat, a: nat, b: nat)
    requires a > 0 && b > 0
    ensures a * b > 0 && x / (a * b) == x / a / b
  {
    Multiple(a, b);
    var u, v := Quotient(x, a), x % a;
    var q, r := Quotient(u, b), u % b;
    assert x == u * a + v && u == q * b + r;
    Distribute(u, q, b, r, a);
    Digits(r, a, v, b);
    TwoDigits(x, a * b, q, r * a + v);
  }

  lemma TwoDigits(x: nat, m: nat, q: nat, r: nat)
    requires m > 0 && r < m && x == q * m + r
    ensures x / m == q
  {
    QuotientOf(x, m, q, r);
  }

  lemma WordIsPow2()
    ensures Pow2(32) == WORD
  {
    assert Pow2(8) == 256;
    Pow2Add(8, 8);
    Pow2Add(16, 16);
  }

  // Products and quotients with abstract factors.

  lemma FieldOfQuotient(x: nat, a: nat, k: nat)
    requires a > 0 && k > 0
    ensures k * a > 0 && x / a % k == x % (k * a) / a
  {
    Multiple(k, a);
    var p, s, r := x / a / k, x / a % k, x % a;
    assert x == (x / a) * a + r;
    Distribute(x / a, p, k, s, a);
    Digits(s, a, r, k);
    QuotientOf(x, k * a, p, s * a + r);
    QuotientOf(s * a + r, a, s, r);
  }

  lemma AddMultiple(x: nat, m: nat, y: nat)
    requires m > 0
    ensures (x + m * y) % m == x % m
  {
    var q, r := x / m, x % m;
    assert x + m * y == (q + y) * m + r;
    QuotientOf(x + m * y, m, q + y, r);
  }

  lemma QuotientOfSum(d: nat, a: nat, b: nat, y: nat)
    requires a > 0
    ensures (d + a * b * y) / a == d / a + b * y
  {
    var q, r := d / a, d % a;
    assert a * b * y == (b * y) * a;
    assert d + a * b * y == (q + b * y) * a + r by {
      assert (q + b * y) * a == q * a + (b * y) * a;
    }
    QuotientOf(d + a * b * y, a, q + b * y, r);
  }

  lemma FieldOfSum(u: nat, b: nat, y: nat, c: nat)
    requires u < b && c > 0
    ensures b * c > 0 && (u + b * y) % (b * c) == u + b * (y % c)
  {
    Multiple(b, c);
    var q, r := y / c, y % c;
    Distribute(y, q, c, r, b);
    Digits(r, b, u, c);
    QuotientOf(u + b * y, c * b, q, r * b + u);
  }

  // The words.

  lemma {:induction false} WholeFrom(data: seq<nat>, i: nat)
    requires Words(data) && i <= |data|
    ensures Whole(data) / Pow2(32 * i) == Whole(data[i..])
  {
    if i == 0 {
      assert data[0..] == data;
    } else {
      WholeFrom(data[1..], i - 1);
      assert data[1..][i - 1..] == data[i..];
      WordIsPow2();
      Pow2Add(32, 32 * (i - 1));
      DivideTwice(Whole(data), WORD, Pow2(32 * (i - 1)));
      QuotientOf(Whole(data), WORD, Whole(data[1..]), data[0]);
    }
  }

  lemma LowPart(d: nat, w: nat, rest: nat, m: nat, l: nat)
    requires w == m * l && m > 0
    ensures (d + w * rest) % m == d % m
  {
    Associate(w, m, l, rest);
    AddMultiple(d, m, l * rest);
  }

  lemma OneWord(d: nat, rest: nat, e: nat, off: nat)
    requires d < WORD && off <= e < 32
    ensures (d + WORD * rest) / Pow2(off) % Pow2(e - off + 1) == ShiftRight(BitAnd(d, Ones(e + 1)), off)
  {
    hide BitAnd, Pow2;
    Pow2Add(e - off + 1, off);
    Pow2Add(e + 1, 31 - e);
    WordIsPow2();
    MaskPow2(d, e + 1);
    FieldOfQuotient(d + WORD * rest, Pow2(off), Pow2(e - off + 1));
    LowPart(d, WORD, rest, Pow2(e + 1), Pow2(31 - e));
  }

  lemma TwoPieces(d0: nat, d1: nat, rest: nat, a: nat, b: nat, c: nat, l: nat)
    requires a > 0 && c > 0 && d0 < WORD == a * b && WORD == c * l
    ensures d0 / a < b && b * c > 0
    ensures (d0 + WORD * (d1 + WORD * rest)) / a % (b * c) == d0 / a + b * (d1 % c)
  {
    var y := d1 + WORD * rest;
    SmallQuotient(d0, a, b);
    QuotientOfSum(d0, a, b, y);
    FieldOfSum(d0 / a, b, y, c);
    LowPart(d1, WORD, rest, c, l);
  }

  lemma ShiftedFits(v: nat, a: nat, b: nat, c: nat, l: nat)
    requires v < c && a == c * l && a * b == WORD && b > 0 && l > 0
    ensures v * b % WORD == b * v
  {
    Multiple(l, c);
    Digits(v, b, 0, a);
  }

  lemma TwoWords(d0: nat, d1: nat, rest: nat, e: nat, off: nat)
    requires d0 < WORD && d1 < WORD && e < off < 32
    ensures (d0 + WORD * (d1 + WORD * rest)) / Pow2(off) % Pow2(32 - off + e + 1) ==
            BitOr(ShiftRight(d0, off), ShiftLeft(BitAnd(d1, Ones(e + 1)), 32 - off))
  {
    hide BitAnd, BitOr, Pow2;
    var a, b, c := Pow2(off), Pow2(32 - off), Pow2(e + 1);
    WordIsPow2();
    Pow2Add(off, 32 - off);
    Pow2Add(32 - off, e + 1);
    Pow2Add(e + 1, 31 - e);
    Pow2Add(e + 1, off - e - 1);
    MaskPow2(d1, e + 1);
    TwoPieces(d0, d1, rest, a, b, c, Pow2(31 - e));
    ShiftedFits(d1 % c, a, b, c, Pow2(off - e - 1));
    OrIsSum(d0 / a, d1 % c, 32 - off);
  }

  lemma SmallQuotient(d: nat, a: nat, b: nat)
    requires a > 0 && d < a * b
    ensures d / a < b
  {
    if d / a >= b { Monotone(b, d / a, a); }
  }

  /** For every register, start and length up to 32 bits, the slice is that field of the whole number. */
  lemma SliceIsField(data: seq<nat>, end: nat, start: nat)
    requires Words(data) && start <= end < start + 32 && end / 32 < |data|
    ensures GetSlice(data, end, start) == Whole(data) / Pow2(start) % Pow2(end - start + 1)
  {
    hide BitAnd, BitOr, Pow2, Whole, Ones;
    var s, off, e := start / 32, start % 32, end % 32;
    Pow2Add(32 * s, off);
    DivideTwice(Whole(data), Pow2(32 * s), Pow2(off));
    WholeFrom(data, s);
    WholeSplits(data, s);
    if s < end / 32 {
      WholeSplits(data, s + 1);
      TwoWords(data[s], data[s + 1], Whole(data[s + 2..]), e, off);
    } else {
      OneWord(data[s], Whole(data[s + 1..]), e, off);
    }
  }

  lemma WholeSplits(data: seq<nat>, i: nat)
    requires i < |data|
    ensures Whole(data[i..]) == data[i] + WORD * Whole(data[i + 1..])
  {
    assert data[i..][1..] == data[i + 1..];
  }

  // ---------------------------------------------------------------- capacity

  /** A register of the card: 128 bits. */
  predicate Register(csd: seq<nat>) {
    |csd| == 4 && Words(csd)
  }

  /** The field from bit end down to bit start, as the card's specification counts them. */
  function Field(csd: seq<nat>, end: nat, start: nat): nat
    requires start <= end
  {
    Whole(csd) / Pow2(start) % Pow2(end - start + 1)
  }

  /**
   * The capacity in blocks of 512 bytes, in 32-bit arithmetic. There is no result
   * where c - 9 wraps around: C leaves a shift by that many places undefined.
   */
  function GetCapacity(csd: seq<nat>): Option<nat>
    requires Register(csd)
  {
    match GetSlice(csd, 127, 126)
    case 0 =>
      var a, b, c := GetSlice(csd, 73, 62), GetSlice(csd, 49, 47), GetSlice(csd, 83, 80);
      if c < 9 then None else Some(ShiftLeft(ShiftLeft((a + 1) % WORD, b + 2), c - 9))
    case 1 => Some(1024 * (GetSlice(csd, 69, 48) + 1) % WORD)
    case _ => Some(0)
  }

  lemma {:induction false} Pow2Monotone(a: nat, b: nat)
    requires a <= b
    ensures Pow2(a) <= Pow2(b)
  {
    Pow2Add(a, b - a);
    Multiple(Pow2(b - a), Pow2(a));
  }

  lemma FieldBelow(csd: seq<nat>, end: nat, start: nat)
    requires start <= end
    ensures Field(csd, end, start) < Pow2(end - start + 1)
  {
  }

  /**
   * Version 1.0: the block length times the number of blocks, in blocks of 512 bytes,
   * and no shift overflows. The code has no result exactly if the block length is
   * below 512 bytes.
   */
  lemma CapacityOfVersion1(csd: seq<nat>)
    requires Register(csd) && Field(csd, 127, 126) == 0
    ensures GetCapacity(csd).Some? <==> Field(csd, 83, 80) >= 9
    ensures var blocks := (Field(csd, 73, 62) + 1) * Pow2(Field(csd, 49, 47) + 2);
            GetCapacity(csd).Some? ==> GetCapacity(csd).value * 512 == blocks * Pow2(Field(csd, 83, 80))
  {
    hide Whole, GetSlice, Pow2;
    SliceIsField(csd, 127, 126);
    SliceIsField(csd, 73, 62);
    SliceIsField(csd, 49, 47);
    SliceIsField(csd, 83, 80);
    var a, b, c := Field(csd, 73, 62), Field(csd, 49, 47), Field(csd, 83, 80);
    SmallPowers();
    FieldBelow(csd, 73, 62);
    FieldBelow(csd, 49, 47);
    FieldBelow(csd, 83, 80);
    if c >= 9 { CapacityArithmetic(a, b, c); }
  }

  lemma CapacityArithmetic(a: nat, b: nat, c: nat)
    requires a < 4096 && b < 8 && 9 <= c < 16
    ensures ShiftLeft(ShiftLeft((a + 1) % WORD, b + 2), c - 9) * 512 == (a + 1) * Pow2(b + 2) * Pow2(c)
  {
    hide Pow2;
    SmallPowers();
    Pow2Monotone(b + 2, 9);
    Pow2Monotone(c - 9, 6);
    Pow2Add(c - 9, 9);
    TwoShifts(a + 1, Pow2(b + 2), Pow2(c - 9), Pow2(c));
  }

  lemma Fits(x: nat)
    requires x < WORD
    ensures x % WORD == x
  {
  }

  lemma TwoShifts(size: nat, p: nat, q: nat, length: nat)
    requires size <= 4096 && p <= 512 && q <= 64 && length == q * 512
    ensures size % WORD * p % WORD * q % WORD * 512 == size * p * length
  {
    Bounded(size, p, 4096, 512);
    var blocks := size * p;
    Fits(size);
    Fits(blocks);
    LastShift(blocks, q, length);
  }

  lemma LastShift(blocks: nat, q: nat, length: nat)
    requires blocks <= 4096 * 512 && q <= 64 && length == q * 512
    ensures blocks * q % WORD * 512 == blocks * length
  {
    Bounded(blocks, q, 4096 * 512, 64);
  }

  lemma SmallPowers()
    ensures Pow2(2) == 4 && Pow2(3) == 8 && Pow2(4) == 16 && Pow2(6) == 64 && Pow2(9) == 512 && Pow2(12) == 4096
    ensures Pow2(22) == 0x40_0000
  {
    assert Pow2(6) == 64;
    Pow2Add(6, 3);
    Pow2Add(6, 6);
    Pow2Add(12, 10);
    Pow2Add(6, 4);
  }

  lemma Bounded(x: nat, y: nat, mx: nat, my: nat)
    requires x <= mx && y <= my
    ensures x * y <= mx * my
  {
    Monotone(x, mx, y);
    Monotone(y, my, mx);
  }

  /** Version 2.0: units of 512 kilobytes; the largest size code, and only that, overflows to zero. */
  lemma CapacityOfVersion2(csd: seq<nat>)
    requires Register(csd) && Field(csd, 127, 126) == 1
    ensures GetCapacity(csd).Some?
    ensures GetCapacity(csd).value * 512 == (Field(csd, 69, 48) + 1) * 512 * 1024 <==> Field(csd, 69, 48) != 0x3F_FFFF
    ensures Field(csd, 69, 48) == 0x3F_FFFF ==> GetCapacity(csd) == Some(0)
  {
    hide Whole, GetSlice, Pow2;
    SliceIsField(csd, 127, 126);
    SliceIsField(csd, 69, 48);
    SmallPowers();
    FieldBelow(csd, 69, 48);
  }

  /** A reserved structure version is answered with zero. */
  lemma CapacityOfReserved(csd: seq<nat>)
    requires Register(csd) && Field(csd, 127, 126) >= 2
    ensures GetCapacity(csd) == Some(0)
  {
    hide Whole, GetSlice, Pow2;
    SliceIsField(csd, 127, 126);
  }
}
