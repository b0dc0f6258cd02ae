/**
 * Bytes and their bits, most significant first: the order in which the
 * programmer clocks every vector, address and datum out on SDATA.
 */
module Bits {
  type Byte = bv8

  /** Bit i of a byte, counted from the most significant one. */
  predicate BitOf(b: Byte, i: nat)
    requires i < 8
  {
    match i
    case 0 => b & 0x80 != 0
    case 1 => b & 0x40 != 0
    case 2 => b & 0x20 != 0
    case 3 => b & 0x10 != 0
    case 4 => b & 0x08 != 0
    case 5 => b & 0x04 != 0
    case 6 => b & 0x02 != 0
    case _ => b & 0x01 != 0
  }

  /** The first n bits of a byte. */
  function ByteBits(b: Byte, n: nat): (bits: seq<bool>)
    requires n <= 8
    ensures |bits| == n
  {
    seq(n, i requires 0 <= i < n => BitOf(b, i))
  }

  /** The first n bits of a byte vector. */
  function VectorBits(v: seq<Byte>, n: nat): (bits: seq<bool>)
    requires n <= 8 * |v|
    ensures |bits| == n
  {
    seq(n, i requires 0 <= i < n => BitOf(v[i / 8], i % 8))
  }

  /** The low byte of the number written by a bit string, most significant bit first. */
  function Value(bits: seq<bool>): Byte {
    if bits == [] then 0 else (Value(bits[..|bits| - 1]) << 1) | (if bits[|bits| - 1] then 1 else 0)
  }

  lemma ShiftedBit(b: Byte, i: nat)
    requires i < 7
    ensures BitOf(b << 1, i) == BitOf(b, i + 1)
  {
  }

  /** The top bit of a byte is its first; shifting left by one drops it. */
  lemma ShiftByteBits(b: Byte, n: nat)
    requires n < 8
    ensures ByteBits(b, n + 1) == [b & 0x80 != 0] + ByteBits(b << 1, n)
  {
    var t, u := ByteBits(b, n + 1), ByteBits(b << 1, n);
    forall i | 0 <= i < n
      ensures u[i] == t[i + 1]
    {
      ShiftedBit(b, i);
    }
  }

  /** Appending a bit doubles the number and adds the bit. */
  lemma ValueSnoc(bits: seq<bool>, b: bool)
    ensures Value(bits + [b]) == (Value(bits) << 1) + (if b then 1 else 0)
  {
    var v := Value(bits);
    assert (bits + [b])[..|bits|] == bits;
    assert (v << 1) | 1 == (v << 1) + 1 && (v << 1) | 0 == v << 1;
  }

  /** The number formed by the n high bits of a byte. */
  function HighBits(b: Byte, n: nat): Byte
    requires n <= 8
  {
    match n
    case 0 => 0 case 1 => b >> 7 case 2 => b >> 6 case 3 => b >> 5 case 4 => b >> 4
    case 5 => b >> 3 case 6 => b >> 2 case 7 => b >> 1 case _ => b
  }

  lemma HighBitsStep(b: Byte, n: nat)
    requires n < 8
    ensures HighBits(b, n + 1) == (HighBits(b, n) << 1) | (if BitOf(b, n) then 1 else 0)
  {
  }

  /** Reading the first n bits of a byte as a number yields its n high bits. */
  lemma {:induction false} ValueOfByteBits(b: Byte, n: nat)
    requires n <= 8
    ensures Value(ByteBits(b, n)) == HighBits(b, n)
  {
    if n == 0 {
    } else {
      ValueOfByteBits(b, n - 1);
      assert ByteBits(b, n)[..n - 1] == ByteBits(b, n - 1);
      HighBitsStep(b, n - 1);
    }
  }

  /** A whole byte is recovered from its eight bits. */
  lemma ByteRoundTrip(b: Byte)
    ensures Value(ByteBits(b, 8)) == b
  {
    ValueOfByteBits(b, 8);
  }

  // Bytes as numbers.

  lemma ByteAddOne(b: Byte)
    requires b < 255
    ensures (b + 1) as int == b as int + 1
  {
  }

  /** The byte of a number. */
  function ToByte(n: nat): (b: Byte)
    requires n < 256
    ensures b as int == n
  {
    if n == 0 then 0 else
    ByteAddOne(ToByte(n - 1));
    ToByte(n - 1) + 1
  }

  lemma ByteAndBack(b: Byte)
    ensures (b as int) as Byte == b
  {
  }

  lemma ByteOfInt(n: nat)
    requires n < 256
    ensures (n as Byte) as int == n
  {
    hide ToByte;
    ByteAndBack(ToByte(n));
  }

  lemma ByteInjective(a: Byte, b: Byte)
    requires a as int == b as int
    ensures a == b
  {
  }

  lemma ByteSuccessor(n: nat)
    requires n < 255
    ensures (n + 1) as Byte == n as Byte + 1
  {
    ByteOfInt(n);
    ByteOfInt(n + 1);
    ByteAddOne(n as Byte);
    ByteInjective((n + 1) as Byte, n as Byte + 1);
  }
}
