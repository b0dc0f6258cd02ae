/**
 * The flash target as seen from its two programming pins: a shift register that
 * samples SDATA on every rising edge of SCLK, cuts what it sees into frames of
 * 22 bits, and executes the queued frames on the first idle clock after them.
 */
module IsspTarget {
  import opened Bits

  const BLOCKS: nat := 128
  const BLOCK_SIZE: nat := 64
  const FRAME: nat := 22

  /** Block buffer, flash, selected block and the two result registers. */
  datatype Mem = Mem(ram: seq<Byte>, flash: seq<seq<Byte>>, block: Byte, lo: Byte, hi: Byte)

  predicate WellFormed(m: Mem) {
    |m.ram| == BLOCK_SIZE && |m.flash| == BLOCKS && forall k | 0 <= k < BLOCKS :: |m.flash[k]| == BLOCK_SIZE
  }

  type Memory = m: Mem | WellFormed(m)
    witness Mem(seq(64, i => 0), seq(128, i => seq(64, j => 0)), 0, 0, 0)

  type BlockData = b: seq<Byte> | |b| == 64 witness seq(64, i => 0)

  /**
   * What the source leaves open about the target: whether the n-th execution
   * takes effect, the level of SDATA at each poll after it, what a flash block
   * really holds once a buffer is programmed into it, and the meaning of a reset
   * and of the long vectors that neither program, read back nor sum the flash.
   */
  datatype World = World(acts: nat -> bool, level: (nat, nat) -> bool, burn: (nat, seq<Byte>) -> BlockData,
    other: (seq<bool>, Memory) -> Memory, reset: Memory -> Memory)

  /** mem, the opaque frames queued for execution, the frame being shifted in, executions so far. */
  datatype Chip = Chip(mem: Memory, queue: seq<bool>, shift: seq<bool>, execs: nat)

  /** At a frame boundary with nothing queued. */
  predicate Aligned(c: Chip) {
    c.shift == [] && c.queue == []
  }

  // Mnemonics and vectors, as the programmer holds them.
  const WRITE_BYTE_START: Byte := 0x90
  const WRITE_BYTE_END: Byte := 0xE0
  const SET_BLOCK_NUMBER: seq<Byte> := [0x9F, 0x40, 0xE0]
  const SET_BLOCK_NUMBER_END: Byte := 0xE0
  const READ_BYTE: seq<Byte> := [0xB0, 0x80]
  const READ_CHECKSUM: seq<Byte> := [0xBF, 0x20, 0xDF, 0x80, 0x80]
  const READ_ID: seq<Byte> := [0xBF, 0x00, 0xDF, 0x90, 0x00]
  const WAIT_AND_POLL_END: seq<Byte> := [0, 0, 0, 0, 0]
  const PROGRAM_BLOCK: seq<Byte> :=
    [0x9F, 0x8A, 0x9E, 0x7F, 0x2B, 0x7D, 0xEE, 0x01] +
    [0xF7, 0xB0, 0x07, 0x9F, 0x07, 0x5E, 0x7C, 0x81] +
    [0xFD, 0xEA, 0x01, 0xF7, 0xA0, 0x1F, 0x9F, 0x70] +
    [0x1F, 0x7C, 0x98, 0x7D, 0xF4, 0x81, 0xF7, 0x80] +
    [0x17, 0xDF, 0x00, 0x1F, 0x7F, 0x89, 0x70]
  const VERIFY_SETUP: seq<Byte> :=
    [0xDE, 0xE0, 0x1F, 0x7B, 0x00, 0x79, 0xF0, 0x75] +
    [0xE7, 0xC8, 0x1F, 0xDE, 0xA0, 0x1F, 0x7A, 0x01] +
    [0xF9, 0xF7, 0x01, 0xF7, 0xC9, 0x87, 0xDF, 0x48] +
    [0x1F, 0x78, 0x00, 0xFD, 0xF0, 0x01, 0xF7, 0xF8] +
    [0x97]
  const CHECKSUM: seq<Byte> :=
    [0xDE, 0xE0, 0x1F, 0x7B, 0x00, 0x79, 0xF0, 0x75] +
    [0xE7, 0xC8, 0x1F, 0xDE, 0xA0, 0x1F, 0x7A, 0x01] +
    [0xF9, 0xF7, 0x01, 0xF7, 0xC9, 0x87, 0xDF, 0x48] +
    [0x1E, 0x7D, 0x00, 0x7D, 0xE0, 0x0F, 0xF7, 0xC0] +
    [0x07, 0xDF, 0xE2, 0x5C]

  function ProgramBits(): seq<bool> { VectorBits(PROGRAM_BLOCK, 308) }
  function VerifyBits(): seq<bool> { VectorBits(VERIFY_SETUP, 264) }
  function ChecksumBits(): seq<bool> { VectorBits(CHECKSUM, 286) }

  /** The checksum vector without its tenth frame, which is a block select. */
  function ChecksumTag(): seq<bool> { ChecksumBits()[..198] + ChecksumBits()[220..] }

  // Frame formats, read off the mnemonics the programmer sends.
  predicate IsWriteByte(f: seq<bool>)
    requires |f| == FRAME
  {
    f[..5] == ByteBits(WRITE_BYTE_START, 5) && f[19..] == ByteBits(WRITE_BYTE_END, 3)
  }

  predicate IsSetBlock(f: seq<bool>)
    requires |f| == FRAME
  {
    f[..11] == VectorBits(SET_BLOCK_NUMBER, 11) && f[19..] == ByteBits(SET_BLOCK_NUMBER_END, 3)
  }

  predicate IsRead(f: seq<bool>)
    requires |f| >= 3
  {
    f[..3] == [true, false, true]
  }

  /** The six address bits of a data frame. */
  function Address(f: seq<bool>): (a: nat)
    requires |f| >= 11
    ensures a < BLOCK_SIZE
  {
    (Value(f[5..11]) & 0x3F) as int
  }

  function Decode(c: Chip, f: seq<bool>): Chip
    requires |f| == FRAME
  {
    if IsWriteByte(f) then
      c.(mem := c.mem.(ram := c.mem.ram[Address(f) := Value(f[11..19])]))
    else if IsSetBlock(f) then
      c.(mem := c.mem.(block := Value(f[11..19])))
    else if IsRead(f) then c
    else c.(queue := c.queue + f)
  }

  function Sum(s: seq<Byte>): nat {
    if s == [] then 0 else Sum(s[..|s| - 1]) + s[|s| - 1] as int
  }

  function SumAll(blocks: seq<seq<Byte>>): nat {
    if blocks == [] then 0 else SumAll(blocks[..|blocks| - 1]) + Sum(blocks[|blocks| - 1])
  }

  /** A 16-bit register. */
  type Word = n: int | 0 <= n < 0x10000

  /** The queued frames run, if the world lets this execution take effect. */
  function Execute(w: World, c: Chip): (r: Chip)
    ensures Aligned(c.(queue := [])) ==> Aligned(r)
  {
    var m := c.mem;
    var m' :=
      if !w.acts(c.execs) then m
      else if c.queue == ProgramBits() then
        if m.block < 128 then m.(flash := m.flash[m.block as int := w.burn(c.execs, m.ram)]) else m
      else if c.queue == VerifyBits() then
        if m.block < 128 then m.(ram := m.flash[m.block as int]) else m
      else if c.queue == ChecksumTag() then
        var s := SumAll(m.flash) % 0x10000;
        m.(hi := (s / 256) as Byte, lo := (s % 256) as Byte)
      else w.other(c.queue, m);
    Chip(m', [], c.shift, c.execs + 1)
  }

  /** One rising edge of SCLK with the line sampled as b; a floating line reads low. */
  function Pulse(w: World, c: Chip, b: bool): Chip {
    if c.shift == [] && !b then (if c.queue == [] then c else Execute(w, c))
    else if |c.shift| != FRAME - 1 then c.(shift := c.shift + [b])
    else Decode(c.(shift := []), c.shift + [b])
  }

  function Feed(w: World, c: Chip, bits: seq<bool>): Chip {
    if bits == [] then c else Pulse(w, Feed(w, c, bits[..|bits| - 1]), bits[|bits| - 1])
  }

  /** The target comes out of reset with its shift register and its queue empty. */
  function Reset(w: World, c: Chip): Chip {
    Chip(w.reset(c.mem), [], [], c.execs)
  }

  /** The byte a read frame asks for, known once its eleven address bits are in. */
  function ReadValue(c: Chip): Byte
    requires |c.shift| >= 11
  {
    if c.shift[..5] == VectorBits(READ_BYTE, 5) then c.mem.ram[Address(c.shift)]
    else if c.shift[..11] == VectorBits(READ_CHECKSUM, 11) then c.mem.hi
    else if c.shift[..11] == VectorBits(READ_ID, 11) then c.mem.lo
    else 0
  }

  /**
   * The level the target puts on a released SDATA: a data bit in the middle of
   * a read frame, otherwise the handshake of the last execution, which stays
   * low for ever when that execution did not take effect.
   */
  predicate Pin(w: World, c: Chip, poll: nat) {
    if 14 <= |c.shift| <= 21 && IsRead(c.shift) then BitOf(ReadValue(c), |c.shift| - 14)
    else c.execs > 0 && w.acts(c.execs - 1) && w.level(c.execs - 1, poll)
  }

  // ---------------------------------------------------------------- frames

  lemma {:induction false} FeedAppend(w: World, c: Chip, a: seq<bool>, b: seq<bool>)
    ensures Feed(w, c, a + b) == Feed(w, Feed(w, c, a), b)
    decreases |b|
  {
    if b == [] {
      assert a + b == a;
    } else {
      assert (a + b)[..|a + b| - 1] == a + b[..|b| - 1];
      FeedAppend(w, c, a, b[..|b| - 1]);
    }
  }

  /** A frame that starts at a boundary with a one is only collected until its last bit. */
  lemma {:induction false} FeedPartialFrame(w: World, c: Chip, f: seq<bool>)
    requires c.shift == [] && 1 <= |f| < FRAME && f[0]
    ensures Feed(w, c, f) == c.(shift := f)
  {
    var front := f[..|f| - 1];
    if |f| <= 1 {
    } else {
      FeedPartialFrame(w, c, front);
    }
    assert f == front + [f[|f| - 1]];
    assert Feed(w, c, []) == c;
  }

  /** Twenty-two bits after a boundary, the first a one, are decoded as one frame. */
  lemma FeedFrame(w: World, c: Chip, f: seq<bool>)
    requires c.shift == [] && |f| == FRAME && f[0]
    ensures Feed(w, c, f) == Decode(c, f)
  {
    FeedPartialFrame(w, c, f[..21]);
    assert f == f[..21] + [f[21]];
    assert c.(shift := f[..21]).(shift := []) == c;
  }

  function Zeros(n: nat): (z: seq<bool>)
    ensures |z| == n && forall i | 0 <= i < n :: !z[i]
  {
    seq(n, i => false)
  }

  lemma {:induction false} FeedIdle(w: World, c: Chip, n: nat)
    requires Aligned(c)
    ensures Feed(w, c, Zeros(n)) == c
  {
    if n == 0 {
    } else {
      FeedIdle(w, c, n - 1);
      assert Zeros(n)[..n - 1] == Zeros(n - 1);
    }
  }

  /** Zeros close a started frame, and the next one executes whatever was queued. */
  lemma {:induction false} FeedZerosAligns(w: World, c: Chip, n: nat)
    requires |c.shift| < FRAME
    requires n >= if c.shift == [] then 1 else FRAME + 1 - |c.shift|
    ensures Aligned(Feed(w, c, Zeros(n)))
    decreases n
  {
    if c.shift == [] {
      var c1 := Pulse(w, c, false);
      assert Aligned(c1);
      assert Feed(w, c, [false]) == c1 by { assert [false][..0] == []; }
      FeedAppend(w, c, [false], Zeros(n - 1));
      assert Zeros(n) == [false] + Zeros(n - 1);
      FeedIdle(w, c1, n - 1);
    } else {
      var c1 := Pulse(w, c, false);
      assert Feed(w, c, [false]) == c1 by { assert [false][..0] == []; }
      FeedAppend(w, c, [false], Zeros(n - 1));
      assert Zeros(n) == [false] + Zeros(n - 1);
      FeedZerosAligns(w, c1, n - 1);
    }
  }

  /** The shift register never holds a whole frame between clocks. */
  lemma {:induction false} FeedKeepsShiftShort(w: World, c: Chip, bits: seq<bool>)
    requires |c.shift| < FRAME
    ensures |Feed(w, c, bits).shift| < FRAME
  {
    if bits == [] {
    } else {
      FeedKeepsShiftShort(w, c, bits[..|bits| - 1]);
    }
  }
}
