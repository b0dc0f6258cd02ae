/** The output buffers queue: a ring of length-prefixed buffers in one block of memory. */
module OutputBuffers {
  import opened Bits
  import opened BufferMemory
  import opened Streams

  class OutputBuffersQueue {
    const mem: array<Byte>
    const bn: nat
    const bsize: nat
    const btop: nat
    var suspended: bool
    var bcounter: nat
    var bwrptr: nat
    var brdptr: nat
    var ptr: int
    var top: int

    /** The posted buffers oldest first, the slot of the oldest, and the buffer being filled. */
    ghost var full: seq<seq<Byte>>
    ghost var rd: nat
    ghost var part: Option<seq<Byte>>

    ghost predicate Shape() {
      bn >= 1 && HEADER + 2 <= bsize < 0x1_0000_0000 && btop == Off(bn, bsize) == mem.Length
    }

    ghost predicate Valid()
      reads this, mem
    {
      && Shape() && rd < bn && |full| <= bn && bcounter == bn - |full|
      && brdptr == Off(rd, bsize) && bwrptr == Off(Slot(rd, |full|, bn), bsize)
      && AllHeld(mem[..], rd, bn, bsize, full)
      && match part
         case None => ptr == NULL
         case Some(p) =>
           && bcounter > 0 && |p| <= bsize - HEADER && bwrptr + bsize <= mem.Length
           && ptr == bwrptr + HEADER + |p| && top == bwrptr + bsize && mem[..][bwrptr + HEADER..ptr] == p
    }

    constructor (size: nat, n: nat)
      requires 2 <= size < 0xFFFF_FFFC && n >= 1
      ensures Valid() && full == [] && part == None && suspended && fresh(mem)
      ensures bn == n && bsize == size + HEADER
    {
      var total := Off(n, size + HEADER);
      bn, bsize, btop := n, size + HEADER, total;
      mem := new Byte[total];
      suspended, bcounter, bwrptr, brdptr, ptr, top := true, n, 0, 0, NULL, NULL;
      full, rd, part := [], 0, None;
    }

    method ResetI()
      requires Valid()
      modifies this
      ensures Valid() && full == [] && part == None && suspended == old(suspended)
    {
      bcounter, bwrptr, brdptr, ptr, top := bn, 0, 0, NULL, NULL;
      full, rd, part := [], 0, None;
    }

    method Suspend()
      requires Valid()
      modifies this`suspended
      ensures Valid() && suspended
    {
      suspended := true;
    }

    method Resume()
      requires Valid()
      modifies this`suspended
      ensures Valid() && !suspended
    {
      suspended := false;
    }

    method IsEmptyI() returns (b: bool)
      requires Valid()
      ensures b <==> full == []
    {
      PointersMeet(rd, |full|, bn, bsize);
      b := bwrptr == brdptr && bcounter != 0;
    }

    method IsFullI() returns (b: bool)
      requires Valid()
      ensures |full| <= bn && (b <==> |full| == bn)
    {
      b := bcounter == 0;
    }

    /** The oldest posted buffer and its size, read from its size field. */
    method GetFullBufferI() returns (buf: int, size: nat)
      requires Valid()
      ensures full == [] ==> buf == NULL
      ensures full != [] ==> buf == brdptr + HEADER && size == |full[0]| && buf + size <= mem.Length
      ensures full != [] ==> mem[buf..buf + size] == full[0]
    {
      var empty := IsEmptyI();
      if empty { return NULL, 0; }
      assert Slot(rd, 0, bn) == rd;
      size := SizeOf(mem[brdptr..brdptr + HEADER]);
      SizeRoundTrip(|full[0]|);
      assert mem[..][brdptr..brdptr + HEADER] == mem[brdptr..brdptr + HEADER];
      buf := brdptr + HEADER;
      assert mem[..][buf..buf + size] == mem[buf..buf + size];
    }

    method ReleaseEmptyBufferI()
      requires Valid() && full != []
      modifies this`bcounter, this`brdptr, this`full, this`rd
      ensures Valid() && full == old(full)[1..]
    {
      hide Off, Holds;
      PointerNext(rd, bn, bsize);
      AllHeldTail(mem[..], rd, bn, bsize, full);
      bcounter := bcounter + 1;
      brdptr := brdptr + bsize;
      if brdptr >= btop { brdptr := 0; }
      full, rd := full[1..], Slot(rd, 1, bn);
    }

    /** The last part of acquiring an empty buffer, once there is one. */
    method TakeEmptyBuffer()
      requires Valid() && part.None? && |full| < bn
      modifies this`ptr, this`top, this`part
      ensures Valid() && part == Some([])
    {
      OffLess(Slot(rd, |full|, bn), bn, bsize);
      ptr := bwrptr + HEADER;
      top := bwrptr + bsize;
      part := Some([]);
    }

    /** The thread-side view of the current buffer: whether there is one, and the space left in it. */
    method HasCurrent() returns (b: bool)
      requires Valid()
      ensures b <==> part.Some?
    {
      b := ptr != NULL;
    }

    method Space() returns (n: nat)
      requires Valid() && part.Some?
      ensures n == bsize - HEADER - |part.value|
    {
      n := top - ptr;
    }

    method CurrentSize() returns (n: nat)
      requires Valid() && part.Some?
      ensures n == |part.value|
    {
      n := ptr - bwrptr - HEADER;
    }

    /** Bytes are copied to the buffer being filled. */
    method CopyIn(b: seq<Byte>)
      requires Valid() && part.Some? && |part.value| + |b| <= bsize - HEADER
      modifies mem, this`ptr, this`part
      ensures Valid() && part == Some(old(part).value + b)
    {
      hide Off, Holds, AllHeld, SameOutside;
      ghost var m, p := mem[..], part.value;
      CopyTo(mem, ptr, b);
      AllHeldFrame(m, mem[..], rd, bn, bsize, full, ptr, ptr + |b|);
      RegionExtended(m, mem[..], bwrptr + HEADER, ptr, p, b);
      ptr := ptr + |b|;
      part := Some(p + b);
    }

    /** The buffer being filled gets its size field and joins the posted ones. */
    method PostCurrent(size: nat)
      requires Valid() && part.Some? && size == |part.value| > 0
      modifies mem, this`bcounter, this`bwrptr, this`ptr, this`full, this`part
      ensures Valid() && part == None && full == old(full) + [old(part).value]
    {
      hide Off, Holds, AllHeld, SameOutside;
      ghost var m, p, w := mem[..], part.value, Slot(rd, |full|, bn);
      CopyTo(mem, bwrptr, SizeField(size));
      AllHeldFrame(m, mem[..], rd, bn, bsize, full, bwrptr, bwrptr + HEADER);
      HeaderCompletes(m, mem[..], bwrptr, p);
      AllHeldSnoc(mem[..], rd, bn, bsize, full, p);
      PointerNext(w, bn, bsize);
      SlotNext(rd, |full|, bn);
      bcounter := bcounter - 1;
      bwrptr := bwrptr + bsize;
      if bwrptr >= btop { bwrptr := 0; }
      ptr := NULL;
      full, part := full + [p], None;
    }

    /** The start of frame posts the buffer being filled if nothing else waits and it is not empty. */
    method TryFlushI() returns (posted: bool)
      requires Valid()
      modifies mem, this`bcounter, this`bwrptr, this`ptr, this`full, this`part
      ensures Valid() && posted == (old(full) == [] && old(part).Some? && old(part).value != [])
      ensures posted ==> part == None && full == [old(part).value]
      ensures !posted ==> full == old(full) && part == old(part)
    {
      hide Off, AllHeld;
      var empty := IsEmptyI();
      if empty && ptr != NULL {
        var size := ptr - (bwrptr + HEADER);
        if size > 0 {
          PostCurrent(size);
          return true;
        }
      }
      return false;
    }
  }
}
