/**
 * The memory of a buffers queue: n slots in a row, each a four-byte size field
 * followed by the data.
 */
module BufferMemory {
  import opened Bits

  const HEADER: nat := 4

  /** The pointer to no buffer. */
  const NULL: int := -1

  /** The offset of slot k. */
  function Off(k: nat, bsize: nat): nat {
    k * bsize
  }

  lemma OffNext(k: nat, bsize: nat)
    ensures Off(k + 1, bsize) == Off(k, bsize) + bsize
  {
  }

  /** Slots do not overlap. */
  lemma {:induction false} OffLess(j: nat, k: nat, bsize: nat)
    requires j < k
    ensures Off(j, bsize) + bsize <= Off(k, bsize)
    decreases k
  {
    OffNext(k - 1, bsize);
    if j < k - 1 { OffLess(j, k - 1, bsize); }
  }

  lemma SlotsApart(j: nat, k: nat, n: nat, bsize: nat)
    requires j < n && k < n && j != k
    ensures Off(j, bsize) + bsize <= Off(k, bsize) || Off(k, bsize) + bsize <= Off(j, bsize)
    ensures Off(j, bsize) + bsize <= Off(n, bsize) && Off(k, bsize) + bsize <= Off(n, bsize)
  {
    if j < k { OffLess(j, k, bsize); } else { OffLess(k, j, bsize); }
    OffLess(j, n, bsize);
    OffLess(k, n, bsize);
  }

  /** Slot i places after slot r in a ring of n. */
  function Slot(r: nat, i: nat, n: nat): (s: nat)
    requires r < n && i <= n
    ensures s < n
  {
    if r + i < n then r + i else r + i - n
  }

  lemma SlotNext(r: nat, i: nat, n: nat)
    requires r < n && i < n
    ensures Slot(r, i + 1, n) == if Slot(r, i, n) + 1 == n then 0 else Slot(r, i, n) + 1
  {
  }

  /** A size field, least significant byte first. */
  function SizeField(size: nat): (h: seq<Byte>)
    requires size < 0x1_0000_0000
    ensures |h| == HEADER
  {
    [ToByte(size % 256), ToByte(size / 256 % 256), ToByte(size / 0x10000 % 256), ToByte(size / 0x1000000)]
  }

  function SizeOf(h: seq<Byte>): nat
    requires |h| == HEADER
  {
    h[0] as int + 256 * h[1] as int + 0x10000 * h[2] as int + 0x1000000 * h[3] as int
  }

  lemma SizeRoundTrip(size: nat)
    requires size < 0x1_0000_0000
    ensures SizeOf(SizeField(size)) == size
  {
    hide ToByte;
    var a, b, c := size / 256, size / 0x10000, size / 0x1000000;
    assert size == 256 * a + size % 256 && a == 256 * b + a % 256 && b == 256 * c + b % 256;
  }

  /** From offset off on, memory m holds the buffer b with its size field. */
  predicate Holds(m: seq<Byte>, off: nat, b: seq<Byte>) {
    |b| < 0x1_0000_0000 && off + HEADER + |b| <= |m| &&
    m[off..off + HEADER] == SizeField(|b|) && m[off + HEADER..off + HEADER + |b|] == b
  }

  lemma SliceOfSlice<T>(m: seq<T>, a: nat, c: nat, p: nat, q: nat)
    requires p <= q && a + q <= c <= |m|
    ensures m[a..c][p..q] == m[a + p..a + q]
  {
    var x, y := m[a..c][p..q], m[a + p..a + q];
    assert |x| == |y|;
    forall i | 0 <= i < |x|
      ensures x[i] == y[i]
    {
      assert x[i] == m[a..c][p + i] == m[a + (p + i)];
    }
  }

  lemma HeldSlice(m: seq<Byte>, off: nat, b: seq<Byte>, p: nat, size: nat)
    requires Holds(m, off, b) && p + size <= |b|
    ensures off + HEADER + p + size <= |m| && m[off + HEADER + p..off + HEADER + p + size] == b[p..p + size]
  {
    SliceOfSlice(m, off + HEADER, off + HEADER + |b|, p, p + size);
  }

  /** Two memories differ at most from lo up to hi. */
  predicate SameOutside(m: seq<Byte>, m': seq<Byte>, lo: nat, hi: nat) {
    |m| == |m'| && forall i | 0 <= i < |m| && !(lo <= i < hi) :: m'[i] == m[i]
  }

  /** A buffer apart from the region written is still held. */
  lemma HoldsFrame(m: seq<Byte>, m': seq<Byte>, lo: nat, hi: nat, off: nat, b: seq<Byte>)
    requires Holds(m, off, b) && SameOutside(m, m', lo, hi)
    requires off + HEADER + |b| <= lo || hi <= off
    ensures Holds(m', off, b)
  {
    assert m'[off..off + HEADER] == m[off..off + HEADER];
    assert m'[off + HEADER..off + HEADER + |b|] == m[off + HEADER..off + HEADER + |b|];
  }

  /** A region grows by bytes written right after it. */
  lemma RegionExtended(m: seq<Byte>, m': seq<Byte>, lo: nat, at: nat, p: seq<Byte>, b: seq<Byte>)
    requires lo <= at && at + |b| <= |m| && m[lo..at] == p
    requires SameOutside(m, m', at, at + |b|) && m'[at..at + |b|] == b
    ensures m'[lo..at + |b|] == p + b
  {
    assert m'[lo..at] == m[lo..at];
    assert m'[lo..at + |b|] == m'[lo..at] + m'[at..at + |b|];
  }

  /** Writing the size field before a filled region completes the buffer. */
  lemma HeaderCompletes(m: seq<Byte>, m': seq<Byte>, off: nat, p: seq<Byte>)
    requires |p| < 0x1_0000_0000 && off + HEADER + |p| <= |m|
    requires m[off + HEADER..off + HEADER + |p|] == p
    requires SameOutside(m, m', off, off + HEADER) && m'[off..off + HEADER] == SizeField(|p|)
    ensures Holds(m', off, p)
  {
    hide SizeField;
    assert m'[off + HEADER..off + HEADER + |p|] == m[off + HEADER..off + HEADER + |p|];
  }

  /** The slots from r on hold the buffers of full, in order. */
  predicate AllHeld(m: seq<Byte>, r: nat, n: nat, bsize: nat, full: seq<seq<Byte>>)
    requires r < n && |full| <= n
  {
    forall i | 0 <= i < |full| ::
      1 <= |full[i]| && HEADER + |full[i]| <= bsize && Holds(m, Off(Slot(r, i, n), bsize), full[i])
  }

  /** Writing in the slot after them leaves all of them alone. */
  lemma AllHeldFrame(m: seq<Byte>, m': seq<Byte>, r: nat, n: nat, bsize: nat, full: seq<seq<Byte>>, lo: nat, hi: nat)
    requires r < n && |full| < n && AllHeld(m, r, n, bsize, full) && SameOutside(m, m', lo, hi)
    requires var w := Off(Slot(r, |full|, n), bsize); w <= lo <= hi <= w + bsize
    ensures AllHeld(m', r, n, bsize, full)
  {
    hide Off, Holds, SameOutside;
    forall i | 0 <= i < |full|
      ensures Holds(m', Off(Slot(r, i, n), bsize), full[i])
    {
      SlotsApart(Slot(r, i, n), Slot(r, |full|, n), n, bsize);
      HoldsFrame(m, m', lo, hi, Off(Slot(r, i, n), bsize), full[i]);
    }
  }

  lemma AllHeldSnoc(m: seq<Byte>, r: nat, n: nat, bsize: nat, full: seq<seq<Byte>>, b: seq<Byte>)
    requires r < n && |full| < n && AllHeld(m, r, n, bsize, full)
    requires 1 <= |b| && HEADER + |b| <= bsize && Holds(m, Off(Slot(r, |full|, n), bsize), b)
    ensures AllHeld(m, r, n, bsize, full + [b])
  {
    hide Off, Holds;
  }

  lemma AllHeldTail(m: seq<Byte>, r: nat, n: nat, bsize: nat, full: seq<seq<Byte>>)
    requires r < n && 0 < |full| <= n && AllHeld(m, r, n, bsize, full)
    ensures AllHeld(m, Slot(r, 1, n), n, bsize, full[1..])
    ensures Slot(Slot(r, 1, n), |full| - 1, n) == Slot(r, |full|, n)
  {
    hide Off, Holds;
    assert forall i | 0 <= i < |full| - 1 :: Slot(Slot(r, 1, n), i, n) == Slot(r, i + 1, n);
    assert forall i | 0 <= i < |full| - 1 :: full[1..][i] == full[i + 1];
  }

  /** The write pointer meets the read pointer exactly when the ring is empty or full. */
  lemma PointersMeet(r: nat, i: nat, n: nat, bsize: nat)
    requires r < n && i <= n && bsize > 0
    ensures Off(Slot(r, i, n), bsize) == Off(r, bsize) <==> i == 0 || i == n
  {
    if Slot(r, i, n) != r { SlotsApart(Slot(r, i, n), r, n, bsize); }
  }

  /** Advancing a pointer by one slot, wrapping at the top. */
  lemma PointerNext(s: nat, n: nat, bsize: nat)
    requires s < n && bsize > 0
    ensures Off(s, bsize) + bsize >= Off(n, bsize) <==> s + 1 == n
    ensures s + 1 < n ==> Off(s, bsize) + bsize == Off(s + 1, bsize)
    ensures Off(0, bsize) == 0
  {
    OffNext(s, bsize);
    if s + 1 < n { OffLess(s + 1, n, bsize); }
  }

  /** Bytes are copied into a region of the memory, nothing else changes. */
  method CopyTo(a: array<Byte>, at: nat, b: seq<Byte>)
    requires at + |b| <= a.Length
    modifies a
    ensures SameOutside(old(a[..]), a[..], at, at + |b|) && a[..][at..at + |b|] == b
  {
    for i := 0 to |b|
      invariant forall j | 0 <= j < a.Length && !(at <= j < at + i) :: a[j] == old(a[j])
      invariant forall j | 0 <= j < i :: a[at + j] == b[j]
    {
      a[at + i] := b[i];
    }
  }
}
