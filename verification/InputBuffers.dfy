/** The input buffers queue: the interrupt side posts filled buffers, the thread side empties the oldest. */
module InputBuffers {
  import opened Bits
  import opened BufferMemory
  import opened Streams

  class InputBuffersQueue {
    const mem: array<Byte>
    const bn: nat
    const bsize: nat
    const btop: nat
    var suspended: bool
    var bcounter: nat
    var bwrptr: nat
    var brdptr: nat
    var ptr: int
    var top: int

    /** The posted buffers oldest first, the slot of the oldest, and how much of it has been read. */
    ghost var full: seq<seq<Byte>>
    ghost var rd: nat
    ghost var cur: Option<nat>

    ghost predicate Shape() {
      bn >= 1 && HEADER + 2 <= bsize < 0x1_0000_0000 && btop == Off(bn, bsize) == mem.Length
    }

    ghost predicate Valid()
      reads this, mem
    {
      && Shape() && rd < bn && |full| <= bn && bcounter == |full|
      && brdptr == Off(rd, bsize) && bwrptr == Off(Slot(rd, |full|, bn), bsize)
      && AllHeld(mem[..], rd, bn, bsize, full)
      && match cur
         case None => ptr == NULL
         case Some(p) =>
           && full != [] && p <= |full[0]|
           && ptr == brdptr + HEADER + p && top == brdptr + HEADER + |full[0]|
    }

    constructor (size: nat, n: nat)
      requires 2 <= size < 0xFFFF_FFFC && n >= 1
      ensures Valid() && full == [] && cur == None && suspended && fresh(mem)
      ensures bn == n && bsize == size + HEADER
    {
      var total := Off(n, size + HEADER);
      bn, bsize, btop := n, size + HEADER, total;
      mem := new Byte[total];
      suspended, bcounter, bwrptr, brdptr, ptr, top := true, 0, 0, 0, NULL, NULL;
      full, rd, cur := [], 0, None;
    }

    method ResetI()
      requires Valid()
      modifies this
      ensures Valid() && full == [] && cur == None && suspended == old(suspended)
    {
      hide Holds, SizeField;
      bcounter, bwrptr, brdptr, ptr, top := 0, 0, 0, NULL, NULL;
      full, rd, cur := [], 0, None;
    }

    method Suspend()
      requires Valid()
      modifies this`suspended
      ensures Valid() && suspended
    {
      suspended := true;
    }

    method Resume()
      requires Valid()
      modifies this`suspended
      ensures Valid() && !suspended
    {
      suspended := false;
    }

    method IsEmptyI() returns (b: bool)
      requires Valid()
      ensures b <==> full == []
    {
      b := bcounter == 0;
    }

    method IsFullI() returns (b: bool)
      requires Valid()
      ensures |full| <= bn && (b <==> |full| == bn)
    {
      PointersMeet(rd, |full|, bn, bsize);
      b := bwrptr == brdptr && bcounter != 0;
    }

    method GetEmptyBufferI() returns (buf: int)
      requires Valid()
      ensures |full| <= bn && (|full| == bn ==> buf == NULL)
      ensures |full| < bn ==> buf == bwrptr + HEADER && bwrptr + bsize <= mem.Length
    {
      var f := IsFullI();
      if f { return NULL; }
      OffLess(Slot(rd, |full|, bn), bn, bsize);
      buf := bwrptr + HEADER;
    }

    /** The controller writes into the empty buffer: no posted buffer is touched. */
    method FillEmptyBuffer(at: nat, b: seq<Byte>)
      requires Valid() && |full| < bn && bwrptr + HEADER <= at && at + |b| <= bwrptr + bsize <= mem.Length
      modifies mem
      ensures Valid() && mem[..][at..at + |b|] == b
    {
      hide Off, Holds, AllHeld, SameOutside;
      ghost var m := mem[..];
      CopyTo(mem, at, b);
      AllHeldFrame(m, mem[..], rd, bn, bsize, full, at, at + |b|);
    }

    /** The filled buffer gets its size field and joins the posted ones. */
    method PostFullBufferI(size: nat)
      requires Valid() && |full| < bn && 0 < size <= bsize - HEADER && bwrptr + bsize <= mem.Length
      modifies mem, this`bcounter, this`bwrptr, this`full
      ensures Valid() && full == old(full + [mem[..][bwrptr + HEADER..bwrptr + HEADER + size]])
    {
      hide Off, Holds, AllHeld, SameOutside;
      ghost var m, w := mem[..], Slot(rd, |full|, bn);
      ghost var d := m[bwrptr + HEADER..bwrptr + HEADER + size];
      CopyTo(mem, bwrptr, SizeField(size));
      AllHeldFrame(m, mem[..], rd, bn, bsize, full, bwrptr, bwrptr + HEADER);
      HeaderCompletes(m, mem[..], bwrptr, d);
      AllHeldSnoc(mem[..], rd, bn, bsize, full, d);
      PointerNext(w, bn, bsize);
      SlotNext(rd, |full|, bn);
      bcounter := bcounter + 1;
      bwrptr := bwrptr + bsize;
      if bwrptr >= btop { bwrptr := 0; }
      full := full + [d];
    }

    /** The last part of acquiring a full buffer, once there is one. */
    method TakeFullBuffer()
      requires Valid() && cur.None? && full != []
      modifies this`ptr, this`top, this`cur
      ensures Valid() && cur == Some(0)
    {
      assert Slot(rd, 0, bn) == rd;
      var size := SizeOf(mem[brdptr..brdptr + HEADER]);
      SizeRoundTrip(|full[0]|);
      assert mem[..][brdptr..brdptr + HEADER] == mem[brdptr..brdptr + HEADER];
      ptr := brdptr + HEADER;
      top := ptr + size;
      cur := Some(0);
    }

    method HasCurrent() returns (b: bool)
      requires Valid()
      ensures b <==> cur.Some?
    {
      b := ptr != NULL;
    }

    /** The bytes left in the current buffer. */
    method Left() returns (n: nat)
      requires Valid() && cur.Some?
      ensures n == |full[0]| - cur.value
    {
      n := top - ptr;
    }

    method CopyOut(size: nat) returns (b: seq<Byte>)
      requires Valid() && cur.Some? && cur.value + size <= |full[0]|
      modifies this`ptr, this`cur
      ensures Valid() && cur == Some(old(cur).value + size)
      ensures b == full[0][old(cur).value..old(cur).value + size]
    {
      hide SizeField, Holds, Off;
      ghost var p := cur.value;
      assert Slot(rd, 0, bn) == rd && Holds(mem[..], brdptr, full[0]);
      HeldSlice(mem[..], brdptr, full[0], p, size);
      b := mem[..][ptr..ptr + size];
      ptr := ptr + size;
      cur := Some(p + size);
    }

    method ReleaseEmptyBuffer()
      requires Valid() && full != []
      modifies this`bcounter, this`brdptr, this`ptr, this`full, this`rd, this`cur
      ensures Valid() && full == old(full)[1..] && cur == None
    {
      hide Off, Holds;
      PointerNext(rd, bn, bsize);
      AllHeldTail(mem[..], rd, bn, bsize, full);
      bcounter := bcounter - 1;
      brdptr := brdptr + bsize;
      if brdptr >= btop { brdptr := 0; }
      ptr := NULL;
      full, rd, cur := full[1..], Slot(rd, 1, bn), None;
    }
  }
}
