/** The CRC-7 of card commands: a table loop, and the polynomial division it stands for. */
module Crc7 {
  import opened Bits

  const ROW_00: seq<Byte> := [0x00, 0x09, 0x12, 0x1b, 0x24, 0x2d, 0x36, 0x3f]
  const ROW_08: seq<Byte> := [0x48, 0x41, 0x5a, 0x53, 0x6c, 0x65, 0x7e, 0x77]
  const ROW_10: seq<Byte> := [0x19, 0x10, 0x0b, 0x02, 0x3d, 0x34, 0x2f, 0x26]
  const ROW_18: seq<Byte> := [0x51, 0x58, 0x43, 0x4a, 0x75, 0x7c, 0x67, 0x6e]
  const ROW_20: seq<Byte> := [0x32, 0x3b, 0x20, 0x29, 0x16, 0x1f, 0x04, 0x0d]
  const ROW_28: seq<Byte> := [0x7a, 0x73, 0x68, 0x61, 0x5e, 0x57, 0x4c, 0x45]
  const ROW_30: seq<Byte> := [0x2b, 0x22, 0x39, 0x30, 0x0f, 0x06, 0x1d, 0x14]
  const ROW_38: seq<Byte> := [0x63, 0x6a, 0x71, 0x78, 0x47, 0x4e, 0x55, 0x5c]
  const ROW_40: seq<Byte> := [0x64, 0x6d, 0x76, 0x7f, 0x40, 0x49, 0x52, 0x5b]
  const ROW_48: seq<Byte> := [0x2c, 0x25, 0x3e, 0x37, 0x08, 0x01, 0x1a, 0x13]
  const ROW_50: seq<Byte> := [0x7d, 0x74, 0x6f, 0x66, 0x59, 0x50, 0x4b, 0x42]
  const ROW_58: seq<Byte> := [0x35, 0x3c, 0x27, 0x2e, 0x11, 0x18, 0x03, 0x0a]
  const ROW_60: seq<Byte> := [0x56, 0x5f, 0x44, 0x4d, 0x72, 0x7b, 0x60, 0x69]
  const ROW_68: seq<Byte> := [0x1e, 0x17, 0x0c, 0x05, 0x3a, 0x33, 0x28, 0x21]
  const ROW_70: seq<Byte> := [0x4f, 0x46, 0x5d, 0x54, 0x6b, 0x62, 0x79, 0x70]
  const ROW_78: seq<Byte> := [0x07, 0x0e, 0x15, 0x1c, 0x23, 0x2a, 0x31, 0x38]
  const ROW_80: seq<Byte> := [0x41, 0x48, 0x53, 0x5a, 0x65, 0x6c, 0x77, 0x7e]
  const ROW_88: seq<Byte> := [0x09, 0x00, 0x1b, 0x12, 0x2d, 0x24, 0x3f, 0x36]
  const ROW_90: seq<Byte> := [0x58, 0x51, 0x4a, 0x43, 0x7c, 0x75, 0x6e, 0x67]
  const ROW_98: seq<Byte> := [0x10, 0x19, 0x02, 0x0b, 0x34, 0x3d, 0x26, 0x2f]
  const ROW_A0: seq<Byte> := [0x73, 0x7a, 0x61, 0x68, 0x57, 0x5e, 0x45, 0x4c]
  const ROW_A8: seq<Byte> := [0x3b, 0x32, 0x29, 0x20, 0x1f, 0x16, 0x0d, 0x04]
  const ROW_B0: seq<Byte> := [0x6a, 0x63, 0x78, 0x71, 0x4e, 0x47, 0x5c, 0x55]
  const ROW_B8: seq<Byte> := [0x22, 0x2b, 0x30, 0x39, 0x06, 0x0f, 0x14, 0x1d]
  const ROW_C0: seq<Byte> := [0x25, 0x2c, 0x37, 0x3e, 0x01, 0x08, 0x13, 0x1a]
  const ROW_C8: seq<Byte> := [0x6d, 0x64, 0x7f, 0x76, 0x49, 0x40, 0x5b, 0x52]
  const ROW_D0: seq<Byte> := [0x3c, 0x35, 0x2e, 0x27, 0x18, 0x11, 0x0a, 0x03]
  const ROW_D8: seq<Byte> := [0x74, 0x7d, 0x66, 0x6f, 0x50, 0x59, 0x42, 0x4b]
  const ROW_E0: seq<Byte> := [0x17, 0x1e, 0x05, 0x0c, 0x33, 0x3a, 0x21, 0x28]
  const ROW_E8: seq<Byte> := [0x5f, 0x56, 0x4d, 0x44, 0x7b, 0x72, 0x69, 0x60]
  const ROW_F0: seq<Byte> := [0x0e, 0x07, 0x1c, 0x15, 0x2a, 0x23, 0x38, 0x31]
  const ROW_F8: seq<Byte> := [0x46, 0x4f, 0x54, 0x5d, 0x62, 0x6b, 0x70, 0x79]

  /** The lookup table, eight entries a row. */
  function Row(k: Byte): (row: seq<Byte>)
    requires k < 32
    ensures |row| == 8
  {
    if k < 8 then
      (match k
       case 0 => ROW_00 case 1 => ROW_08 case 2 => ROW_10 case 3 => ROW_18
       case 4 => ROW_20 case 5 => ROW_28 case 6 => ROW_30 case _ => ROW_38)
    else if k < 16 then
      (match k
       case 8 => ROW_40 case 9 => ROW_48 case 10 => ROW_50 case 11 => ROW_58
       case 12 => ROW_60 case 13 => ROW_68 case 14 => ROW_70 case _ => ROW_78)
    else if k < 24 then
      (match k
       case 16 => ROW_80 case 17 => ROW_88 case 18 => ROW_90 case 19 => ROW_98
       case 20 => ROW_A0 case 21 => ROW_A8 case 22 => ROW_B0 case _ => ROW_B8)
    else
      (match k
       case 24 => ROW_C0 case 25 => ROW_C8 case 26 => ROW_D0 case 27 => ROW_D8
       case 28 => ROW_E0 case 29 => ROW_E8 case 30 => ROW_F0 case _ => ROW_F8)
  }

  function Table(i: Byte): Byte {
    Row(i >> 3)[(i & 7) as nat]
  }

  /**
   * One step of the division: a message bit comes in, and the polynomial x^7 + x^3 + 1
   * is taken off if a bit leaves at the top.
   */
  function BitStep(crc: Byte, bit: bool): Byte {
    ((crc << 1) & 0x7F) ^ (if (crc & 0x40 != 0) != bit then 0x09 else 0)
  }

  /** The same with the bit as a number. */
  function FeedBit(crc: Byte, bit: Byte): Byte {
    var f := ((crc >> 6) ^ bit) & 1;
    ((crc << 1) & 0x7F) ^ f ^ (f << 3)
  }

  lemma FeedIsBitStep(crc: Byte, bit: bool)
    ensures FeedBit(crc, if bit then 1 else 0) == BitStep(crc, bit)
  {
  }

  /** The eight bits of a byte come in, the most significant first. */
  function ByteStep(crc: Byte, b: Byte): Byte {
    var high := FeedBit(FeedBit(FeedBit(FeedBit(crc, (b >> 7) & 1), (b >> 6) & 1), (b >> 5) & 1), (b >> 4) & 1);
    FeedBit(FeedBit(FeedBit(FeedBit(high, (b >> 3) & 1), (b >> 2) & 1), (b >> 1) & 1), b & 1)
  }

  /** The byte times x^7, with x^7 replaced by x^3 + 1 where it overflows. */
  function Combined(b: Byte): Byte {
    var h := (b >> 4) ^ (b >> 7);
    (((b << 3) ^ b) & 0x7F) ^ h ^ (h << 3)
  }

  /** The sum of two polynomials over the two-element field. */
  function Add(x: Byte, y: Byte): Byte {
    x ^ y
  }

  /** Where the table is looked up. */
  function Index(crc: Byte, b: Byte): Byte {
    (crc << 1) ^ b
  }

  // The bits are reasoned about on plain values only; these predicates carry the results over.

  predicate IsFeed(c: Byte, t: Byte, r: Byte) {
    r == ((c << 1) & 0x7F) ^ (((c >> 6) ^ t) & 1) ^ ((((c >> 6) ^ t) & 1) << 3)
  }

  predicate IsCombined(x: Byte, r: Byte) {
    var h := (x >> 4) ^ (x >> 7);
    r == (((x << 3) ^ x) & 0x7F) ^ h ^ (h << 3)
  }

  lemma FeedBits(c: Byte, t: Byte)
    ensures IsFeed(c, t, FeedBit(c, t))
  {
  }

  lemma CombinedBits(x: Byte)
    ensures IsCombined(x, Combined(x))
  {
  }

  /** Four feeds at once: the feedback of one does not reach the others. */
  lemma FourFeedBits(c0: Byte, b1: Byte, b2: Byte, b3: Byte, b4: Byte, c1: Byte, c2: Byte, c3: Byte, c4: Byte)
    requires c0 < 128 && b1 < 2 && b2 < 2 && b3 < 2 && b4 < 2
    requires c1 == ((c0 << 1) & 0x7F) ^ (((c0 >> 6) ^ b1) & 1) ^ ((((c0 >> 6) ^ b1) & 1) << 3)
    requires c2 == ((c1 << 1) & 0x7F) ^ (((c1 >> 6) ^ b2) & 1) ^ ((((c1 >> 6) ^ b2) & 1) << 3)
    requires c3 == ((c2 << 1) & 0x7F) ^ (((c2 >> 6) ^ b3) & 1) ^ ((((c2 >> 6) ^ b3) & 1) << 3)
    requires c4 == ((c3 << 1) & 0x7F) ^ (((c3 >> 6) ^ b4) & 1) ^ ((((c3 >> 6) ^ b4) & 1) << 3)
    ensures var f := (c0 >> 3) ^ (b1 << 3) ^ (b2 << 2) ^ (b3 << 1) ^ b4;
            c4 == ((c0 << 4) & 0x7F) ^ f ^ (f << 3) < 128
  {
  }

  predicate IsFour(c0: Byte, b1: Byte, b2: Byte, b3: Byte, b4: Byte, c4: Byte) {
    var f := (c0 >> 3) ^ (b1 << 3) ^ (b2 << 2) ^ (b3 << 1) ^ b4;
    c4 == ((c0 << 4) & 0x7F) ^ f ^ (f << 3)
  }

  lemma FourFeeds(c0: Byte, b1: Byte, b2: Byte, b3: Byte, b4: Byte, c1: Byte, c2: Byte, c3: Byte, c4: Byte)
    requires c0 < 128 && b1 < 2 && b2 < 2 && b3 < 2 && b4 < 2
    requires IsFeed(c0, b1, c1) && IsFeed(c1, b2, c2) && IsFeed(c2, b3, c3) && IsFeed(c3, b4, c4)
    ensures IsFour(c0, b1, b2, b3, b4, c4) && c4 < 128
  {
    FourFeedBits(c0, b1, b2, b3, b4, c1, c2, c3, c4);
  }

  lemma SingleBits(b: Byte)
    ensures (b >> 7) & 1 < 2 && (b >> 6) & 1 < 2 && (b >> 5) & 1 < 2 && (b >> 4) & 1 < 2
    ensures (b >> 3) & 1 < 2 && (b >> 2) & 1 < 2 && (b >> 1) & 1 < 2 && b & 1 < 2
  {
  }

  lemma TwoFours(c0: Byte, b: Byte, c4: Byte, c8: Byte, r: Byte)
    requires c0 < 128
    requires var f := (c0 >> 3) ^ (((b >> 7) & 1) << 3) ^ (((b >> 6) & 1) << 2) ^ (((b >> 5) & 1) << 1) ^
                      ((b >> 4) & 1);
             c4 == ((c0 << 4) & 0x7F) ^ f ^ (f << 3)
    requires var f := (c4 >> 3) ^ (((b >> 3) & 1) << 3) ^ (((b >> 2) & 1) << 2) ^ (((b >> 1) & 1) << 1) ^ (b & 1);
             c8 == ((c4 << 4) & 0x7F) ^ f ^ (f << 3)
    requires var x := (c0 << 1) ^ b; var h := (x >> 4) ^ (x >> 7); r == (((x << 3) ^ x) & 0x7F) ^ h ^ (h << 3)
    ensures c8 == r < 128
  {
  }

  lemma FoursCombine(c0: Byte, b: Byte, c4: Byte, c8: Byte, r: Byte)
    requires c0 < 128 && IsCombined((c0 << 1) ^ b, r)
    requires IsFour(c0, (b >> 7) & 1, (b >> 6) & 1, (b >> 5) & 1, (b >> 4) & 1, c4)
    requires IsFour(c4, (b >> 3) & 1, (b >> 2) & 1, (b >> 1) & 1, b & 1, c8)
    ensures c8 == r < 128
  {
    TwoFours(c0, b, c4, c8, r);
  }

  lemma EightFeeds(c0: Byte, b: Byte, c1: Byte, c2: Byte, c3: Byte, c4: Byte, c5: Byte, c6: Byte, c7: Byte, c8: Byte,
      r: Byte)
    requires c0 < 128
    requires IsFeed(c0, (b >> 7) & 1, c1) && IsFeed(c1, (b >> 6) & 1, c2) && IsFeed(c2, (b >> 5) & 1, c3) &&
             IsFeed(c3, (b >> 4) & 1, c4)
    requires IsFeed(c4, (b >> 3) & 1, c5) && IsFeed(c5, (b >> 2) & 1, c6) && IsFeed(c6, (b >> 1) & 1, c7) &&
             IsFeed(c7, b & 1, c8)
    requires IsCombined((c0 << 1) ^ b, r)
    ensures c8 == r < 128
  {
    hide IsFeed, IsFour, IsCombined;
    SingleBits(b);
    FourFeeds(c0, (b >> 7) & 1, (b >> 6) & 1, (b >> 5) & 1, (b >> 4) & 1, c1, c2, c3, c4);
    FourFeeds(c4, (b >> 3) & 1, (b >> 2) & 1, (b >> 1) & 1, b & 1, c5, c6, c7, c8);
    FoursCombine(c0, b, c4, c8, r);
  }

  lemma CombinedIndex(crc: Byte, b: Byte)
    ensures IsCombined((crc << 1) ^ b, Combined(Index(crc, b)))
  {
    hide IsCombined, Combined;
    CombinedBits(Index(crc, b));
  }

  /** The table's index absorbs the running value: one look-up is eight steps. */
  lemma Absorbed(crc: Byte, b: Byte)
    requires crc < 128
    ensures ByteStep(crc, b) == Combined(Index(crc, b)) < 128
  {
    hide FeedBit, Combined, IsFeed, IsCombined, Index;
    var c1 := FeedBit(crc, (b >> 7) & 1);
    var c2 := FeedBit(c1, (b >> 6) & 1);
    var c3 := FeedBit(c2, (b >> 5) & 1);
    var c4 := FeedBit(c3, (b >> 4) & 1);
    var c5 := FeedBit(c4, (b >> 3) & 1);
    var c6 := FeedBit(c5, (b >> 2) & 1);
    var c7 := FeedBit(c6, (b >> 1) & 1);
    FeedBits(crc, (b >> 7) & 1);
    FeedBits(c1, (b >> 6) & 1);
    FeedBits(c2, (b >> 5) & 1);
    FeedBits(c3, (b >> 4) & 1);
    FeedBits(c4, (b >> 3) & 1);
    FeedBits(c5, (b >> 2) & 1);
    FeedBits(c6, (b >> 1) & 1);
    FeedBits(c7, b & 1);
    CombinedIndex(crc, b);
    EightFeeds(crc, b, c1, c2, c3, c4, c5, c6, c7, FeedBit(c7, b & 1), Combined(Index(crc, b)));
  }

  lemma LinearBits(x: Byte, y: Byte, cx: Byte, cy: Byte, cz: Byte)
    requires var h := (x >> 4) ^ (x >> 7); cx == (((x << 3) ^ x) & 0x7F) ^ h ^ (h << 3)
    requires var k := (y >> 4) ^ (y >> 7); cy == (((y << 3) ^ y) & 0x7F) ^ k ^ (k << 3)
    requires var z := x ^ y; var l := (z >> 4) ^ (z >> 7); cz == (((z << 3) ^ z) & 0x7F) ^ l ^ (l << 3)
    ensures cz == cx ^ cy
  {
  }

  lemma Linear(x: Byte, y: Byte, cx: Byte, cy: Byte, cz: Byte)
    requires IsCombined(x, cx) && IsCombined(y, cy) && IsCombined(x ^ y, cz)
    ensures cz == cx ^ cy
  {
    LinearBits(x, y, cx, cy, cz);
  }

  lemma LinearSum(x: Byte, y: Byte, cx: Byte, cy: Byte, cz: Byte)
    requires IsCombined(x, cx) && IsCombined(y, cy) && IsCombined(Add(x, y), cz)
    ensures cz == Add(cx, cy)
  {
    hide IsCombined;
    Linear(x, y, cx, cy, cz);
  }

  lemma ZeroBits(d: Byte)
    ensures var h := (d >> 4) ^ (d >> 7); (((d << 3) ^ d) & 0x7F) ^ h ^ (h << 3) == 0 <==> d == 0 || d == 0x89
  {
  }

  lemma SameIsZero(x: Byte, y: Byte)
    ensures x == y <==> Add(x, y) == 0
  {
  }

  /** Remainders add up, and two are the same exactly if the bytes differ by zero or the polynomial itself. */
  lemma CombinedIsLinear(x: Byte, y: Byte)
    ensures Combined(Add(x, y)) == Add(Combined(x), Combined(y))
    ensures Combined(x) == Combined(y) <==> Add(x, y) == 0 || Add(x, y) == 0x89
  {
    hide Combined, IsCombined, Add;
    CombinedBits(x);
    CombinedBits(y);
    CombinedBits(Add(x, y));
    LinearSum(x, y, Combined(x), Combined(y), Combined(Add(x, y)));
    SameIsZero(Combined(x), Combined(y));
    ZeroRemainder(Add(x, y));
  }

  /** The remainder is zero for the polynomial itself only. */
  lemma ZeroRemainder(d: Byte)
    ensures Combined(d) == 0 <==> d == 0 || d == 0x89
  {
    ZeroBits(d);
  }

  /** The entries of a row are those of the bytes from b on. */
  predicate RowOk(row: seq<Byte>, b: Byte)
    requires |row| == 8
  {
    && row[0] == Combined(b) && row[1] == Combined(b | 1) && row[2] == Combined(b | 2) && row[3] == Combined(b | 3)
    && row[4] == Combined(b | 4) && row[5] == Combined(b | 5) && row[6] == Combined(b | 6) && row[7] == Combined(b | 7)
  }

  lemma RowsFrom00(k: Byte)
    requires 0 <= k < 8
    ensures RowOk(Row(k), k << 3)
  {
    match k
    case 0 => assert RowOk(ROW_00, 0x00);
    case 1 => assert RowOk(ROW_08, 0x08);
    case 2 => assert RowOk(ROW_10, 0x10);
    case 3 => assert RowOk(ROW_18, 0x18);
    case 4 => assert RowOk(ROW_20, 0x20);
    case 5 => assert RowOk(ROW_28, 0x28);
    case 6 => assert RowOk(ROW_30, 0x30);
    case _ => assert RowOk(ROW_38, 0x38);
  }

  lemma RowsFrom40(k: Byte)
    requires 8 <= k < 16
    ensures RowOk(Row(k), k << 3)
  {
    match k
    case 8 => assert RowOk(ROW_40, 0x40);
    case 9 => assert RowOk(ROW_48, 0x48);
    case 10 => assert RowOk(ROW_50, 0x50);
    case 11 => assert RowOk(ROW_58, 0x58);
    case 12 => assert RowOk(ROW_60, 0x60);
    case 13 => assert RowOk(ROW_68, 0x68);
    case 14 => assert RowOk(ROW_70, 0x70);
    case _ => assert RowOk(ROW_78, 0x78);
  }

  lemma RowsFrom80(k: Byte)
    requires 16 <= k < 24
    ensures RowOk(Row(k), k << 3)
  {
    match k
    case 16 => assert RowOk(ROW_80, 0x80);
    case 17 => assert RowOk(ROW_88, 0x88);
    case 18 => assert RowOk(ROW_90, 0x90);
    case 19 => assert RowOk(ROW_98, 0x98);
    case 20 => assert RowOk(ROW_A0, 0xa0);
    case 21 => assert RowOk(ROW_A8, 0xa8);
    case 22 => assert RowOk(ROW_B0, 0xb0);
    case _ => assert RowOk(ROW_B8, 0xb8);
  }

  lemma RowsFromC0(k: Byte)
    requires 24 <= k < 32
    ensures RowOk(Row(k), k << 3)
  {
    match k
    case 24 => assert RowOk(ROW_C0, 0xc0);
    case 25 => assert RowOk(ROW_C8, 0xc8);
    case 26 => assert RowOk(ROW_D0, 0xd0);
    case 27 => assert RowOk(ROW_D8, 0xd8);
    case 28 => assert RowOk(ROW_E0, 0xe0);
    case 29 => assert RowOk(ROW_E8, 0xe8);
    case 30 => assert RowOk(ROW_F0, 0xf0);
    case _ => assert RowOk(ROW_F8, 0xf8);
  }

  lemma RowRight(k: Byte)
    requires k < 32
    ensures RowOk(Row(k), k << 3)
  {
    if k < 8 {
      RowsFrom00(k);
    } else if k < 16 {
      RowsFrom40(k);
    } else if k < 24 {
      RowsFrom80(k);
    } else {
      RowsFromC0(k);
    }
  }

  lemma RowEntry(row: seq<Byte>, b: Byte, i: Byte)
    requires |row| == 8 && RowOk(row, b) && b & 7 == 0 && i >> 3 == b >> 3
    ensures row[(i & 7) as nat] == Combined(i)
  {
    hide Combined;
    assert i == b | (i & 7);
    if i & 7 == 0 { assert i == b; } else if i & 7 == 1 { assert i == b | 1; }
    else if i & 7 == 2 { assert i == b | 2; } else if i & 7 == 3 { assert i == b | 3; }
    else if i & 7 == 4 { assert i == b | 4; } else if i & 7 == 5 { assert i == b | 5; }
    else if i & 7 == 6 { assert i == b | 6; } else { assert i & 7 == 7 && i == b | 7; }
  }

  /** Every entry of the table is the remainder of its byte. */
  lemma TableRight(i: Byte)
    ensures Table(i) == Combined(i)
  {
    hide Combined, RowOk, Row;
    RowRight(i >> 3);
    RowEntry(Row(i >> 3), (i >> 3) << 3, i);
  }

  // ---------------------------------------------------------------- the loop

  /** Bit-serial division of a message. */
  function SerialCrc(crc: Byte, bits: seq<bool>): Byte {
    if bits == [] then crc else BitStep(SerialCrc(crc, bits[..|bits| - 1]), bits[|bits| - 1])
  }

  function Message(buffer: seq<Byte>): seq<bool> {
    VectorBits(buffer, 8 * |buffer|)
  }

  function Crc(crc: Byte, buffer: seq<Byte>): Byte {
    SerialCrc(crc, Message(buffer))
  }

  lemma SerialSnoc(crc: Byte, bits: seq<bool>, bit: bool)
    ensures SerialCrc(crc, bits + [bit]) == BitStep(SerialCrc(crc, bits), bit)
  {
    assert (bits + [bit])[..|bits|] == bits;
  }

  lemma BitAsNumber(b: Byte, i: nat)
    requires i < 8
    ensures (b >> (7 - i) as bv4) & 1 == if BitOf(b, i) then 1 else 0
  {
  }

  /** n bits of a byte come in. */
  lemma {:induction false} SerialBits(crc: Byte, m: seq<bool>, b: Byte, n: nat)
    requires n <= 8
    ensures SerialCrc(crc, m + ByteBits(b, n)) == Fed(SerialCrc(crc, m), b, n)
  {
    hide FeedBit, BitStep, BitOf, SerialCrc;
    if n == 0 {
      assert m + ByteBits(b, 0) == m;
    } else {
      SerialBits(crc, m, b, n - 1);
      assert m + ByteBits(b, n) == m + ByteBits(b, n - 1) + [BitOf(b, n - 1)];
      SerialSnoc(crc, m + ByteBits(b, n - 1), BitOf(b, n - 1));
      BitAsNumber(b, n - 1);
      FeedIsBitStep(Fed(SerialCrc(crc, m), b, n - 1), BitOf(b, n - 1));
    }
  }

  function Fed(crc: Byte, b: Byte, n: nat): Byte
    requires n <= 8
    decreases n
  {
    if n == 0 then crc else FeedBit(Fed(crc, b, n - 1), (b >> (8 - n) as bv4) & 1)
  }

  lemma FedAll(crc: Byte, b: Byte)
    ensures Fed(crc, b, 8) == ByteStep(crc, b)
  {
    hide FeedBit;
  }

  lemma CrcSnoc(crc: Byte, buffer: seq<Byte>, b: Byte)
    ensures Crc(crc, buffer + [b]) == ByteStep(Crc(crc, buffer), b)
  {
    hide SerialCrc, ByteStep;
    SerialBits(crc, Message(buffer), b, 8);
    FedAll(Crc(crc, buffer), b);
    assert Message(buffer + [b]) == Message(buffer) + ByteBits(b, 8);
  }

  lemma CrcNothing(crc: Byte)
    ensures Crc(crc, []) == crc
  {
  }

  method Crc7(start: Byte, buffer: seq<Byte>) returns (crc: Byte)
    requires start < 128
    ensures crc == Crc(start, buffer) && crc < 128
  {
    hide Crc, Table, ByteStep, Combined, Index;
    crc := start;
    var k := 0;
    CrcNothing(start);
    assert buffer[..0] == [];
    while k < |buffer|
      invariant 0 <= k <= |buffer| && crc < 128 && crc == Crc(start, buffer[..k])
    {
      TableRight(Index(crc, buffer[k]));
      Absorbed(crc, buffer[k]);
      CrcSnoc(start, buffer[..k], buffer[k]);
      assert buffer[..k + 1] == buffer[..k] + [buffer[k]];
      crc := Table(Index(crc, buffer[k]));
      k := k + 1;
    }
    assert buffer[..k] == buffer;
  }

  // ---------------------------------------------------------------- the polynomial

  /** The coefficient at place i of a polynomial written from its highest power down. */
  function Coef(p: seq<bool>, i: int): bool {
    0 <= i < |p| && p[i]
  }

  /** The seven bits of a remainder. */
  function Low7(crc: Byte): (r: seq<bool>)
    ensures |r| == 7
  {
    seq(7, i requires 0 <= i < 7 => BitOf(crc, i + 1))
  }

  /** The message times x^7, with the start value added to its highest powers. */
  function Dividend(start: Byte, bits: seq<bool>): (d: seq<bool>)
    ensures |d| == |bits| + 7
  {
    seq(|bits| + 7, i => Coef(bits, i) != Coef(Low7(start), i))
  }

  /** Over the two-element field: dividend = quotient * (x^7 + x^3 + 1) + remainder, the remainder of lower degree. */
  predicate Divides(d: seq<bool>, q: seq<bool>, r: seq<bool>) {
    && |d| == |q| + 7 && |r| == 7
    && forall i | 0 <= i < |d| :: d[i] == (((Coef(q, i) != Coef(q, i - 4)) != Coef(q, i - 7)) != Coef(r, i - |q|))
  }

  function Quotient(start: Byte, bits: seq<bool>): (q: seq<bool>)
    ensures |q| == |bits|
  {
    if bits == [] then [] else
    var n := |bits| - 1;
    Quotient(start, bits[..n]) + [(SerialCrc(start, bits[..n]) & 0x40 != 0) != bits[n]]
  }

  lemma StepBits(crc: Byte, bit: bool)
    ensures var f := (crc & 0x40 != 0) != bit; var r, t := Low7(crc), Low7(BitStep(crc, bit));
            && (r[0] <==> crc & 0x40 != 0)
            && t == [r[1], r[2], r[3], r[4] != f, r[5], r[6], f]
  {
  }

  /** What the new bit does to the coefficients. */
  lemma DividendSnoc(start: Byte, bits: seq<bool>, bit: bool, i: nat)
    requires i < |bits| + 8
    ensures Dividend(start, bits + [bit])[i] == (Coef(Dividend(start, bits), i) != (i == |bits| && bit))
  {
    assert Coef(bits + [bit], i) == (Coef(bits, i) != (i == |bits| && bit));
  }

  lemma CoefSnoc(q: seq<bool>, f: bool, i: int)
    ensures Coef(q + [f], i) == (Coef(q, i) != (i == |q| && f))
  {
  }

  lemma CoefNext(r: seq<bool>, f: bool, k: int)
    requires |r| == 7
    ensures Coef([r[1], r[2], r[3], r[4] != f, r[5], r[6], f], k) ==
            (k >= 0 && (Coef(r, k + 1) != ((k == 3 || k == 6) && f)))
  {
  }

  lemma DivisionStep(start: Byte, bits: seq<bool>, bit: bool, q: seq<bool>, r: seq<bool>, r': seq<bool>)
    requires Divides(Dividend(start, bits), q, r) && |r'| == 7
    requires var f := r[0] != bit; r' == [r[1], r[2], r[3], r[4] != f, r[5], r[6], f]
    ensures Divides(Dividend(start, bits + [bit]), q + [r[0] != bit], r')
  {
    hide Dividend, Coef;
    var f, n, d, d', q' := r[0] != bit, |bits|, Dividend(start, bits), Dividend(start, bits + [bit]), q + [r[0] != bit];
    forall i | 0 <= i < n + 8
      ensures d'[i] == (((Coef(q', i) != Coef(q', i - 4)) != Coef(q', i - 7)) != Coef(r', i - n - 1))
    {
      DividendSnoc(start, bits, bit, i);
      CoefSnoc(q, f, i);
      CoefSnoc(q, f, i - 4);
      CoefSnoc(q, f, i - 7);
      CoefNext(r, f, i - n - 1);
      DivisionAt(d, q, r, i);
    }
  }

  /** The coefficients beyond the end of the dividend are zero on both sides. */
  lemma DivisionAt(d: seq<bool>, q: seq<bool>, r: seq<bool>, i: nat)
    requires Divides(d, q, r)
    ensures Coef(d, i) == (((Coef(q, i) != Coef(q, i - 4)) != Coef(q, i - 7)) != Coef(r, i - |q|))
    ensures i == |q| ==> Coef(r, i - |q|) == r[0]
    ensures i < |q| ==> !Coef(r, i - |q|)
  {
  }

  lemma {:induction false} SerialIsDivision(start: Byte, bits: seq<bool>)
    requires start < 128
    ensures Divides(Dividend(start, bits), Quotient(start, bits), Low7(SerialCrc(start, bits)))
  {
    hide BitStep;
    if bits == [] {
    } else {
      var n := |bits| - 1;
      SerialIsDivision(start, bits[..n]);
      var crc := SerialCrc(start, bits[..n]);
      StepBits(crc, bits[n]);
      DivisionStep(start, bits[..n], bits[n], Quotient(start, bits[..n]), Low7(crc), Low7(BitStep(crc, bits[n])));
      assert bits[..n] + [bits[n]] == bits;
    }
  }

  /** Quotient and remainder are unique. */
  lemma {:induction false} QuotientsAgree(d: seq<bool>, q: seq<bool>, r: seq<bool>, q': seq<bool>, r': seq<bool>,
      n: nat)
    requires Divides(d, q, r) && Divides(d, q', r') && n <= |q|
    ensures q[..n] == q'[..n]
    decreases n
  {
    if n == 0 {
    } else {
      QuotientsAgree(d, q, r, q', r', n - 1);
      var i := n - 1;
      assert forall j | 0 <= j < i :: q[..i][j] == q'[..i][j];
      assert d[i] == (((Coef(q, i) != Coef(q, i - 4)) != Coef(q, i - 7)) != Coef(r, i - |q|));
      assert d[i] == (((Coef(q', i) != Coef(q', i - 4)) != Coef(q', i - 7)) != Coef(r', i - |q|));
    }
  }

  /**
   * For every start value and every buffer the CRC-7 is the remainder of the message
   * polynomial divided by x^7 + x^3 + 1: the one and only.
   */
  lemma CrcIsRemainder(start: Byte, buffer: seq<Byte>, r: seq<bool>)
    requires start < 128
    ensures r == Low7(Crc(start, buffer)) <==> exists q :: Divides(Dividend(start, Message(buffer)), q, r)
  {
    hide Divides, Dividend, Low7;
    var d, q := Dividend(start, Message(buffer)), Quotient(start, Message(buffer));
    SerialIsDivision(start, Message(buffer));
    if q' :| Divides(d, q', r) { RemaindersAgree(d, q, Low7(Crc(start, buffer)), q', r); }
  }

  lemma RemaindersAgree(d: seq<bool>, q: seq<bool>, r: seq<bool>, q': seq<bool>, r': seq<bool>)
    requires Divides(d, q, r) && Divides(d, q', r')
    ensures q == q' && r == r'
  {
    QuotientsAgree(d, q, r, q', r', |q|);
    assert q[..|q|] == q && q'[..|q|] == q';
    forall k | 0 <= k < 7
      ensures r[k] == r'[k]
    {
      var i := |q| + k;
      assert d[i] == (((Coef(q, i) != Coef(q, i - 4)) != Coef(q, i - 7)) != Coef(r, i - |q|));
      assert d[i] == (((Coef(q, i) != Coef(q, i - 4)) != Coef(q, i - 7)) != Coef(r', i - |q|));
    }
  }

  // ---------------------------------------------------------------- what it detects

  function Xor(a: seq<Byte>, b: seq<Byte>): (c: seq<Byte>)
    requires |a| == |b|
    ensures |c| == |a|
  {
    seq(|a|, i requires 0 <= i < |a| => Add(a[i], b[i]))
  }

  lemma IndexIsLinear(c: Byte, d: Byte, a: Byte, b: Byte)
    ensures Index(Add(c, d), Add(a, b)) == Add(Index(c, a), Index(d, b))
    ensures c < 128 && d < 128 ==> Add(c, d) < 128
  {
  }

  lemma StepIsLinear(c: Byte, d: Byte, a: Byte, b: Byte)
    requires c < 128 && d < 128
    ensures ByteStep(Add(c, d), Add(a, b)) == Add(ByteStep(c, a), ByteStep(d, b))
  {
    hide ByteStep, Combined, Add, Index;
    IndexIsLinear(c, d, a, b);
    Absorbed(c, a);
    Absorbed(d, b);
    Absorbed(Add(c, d), Add(a, b));
    CombinedIsLinear(Index(c, a), Index(d, b));
  }

  /** The CRC of a sum is the sum of the CRCs. */
  lemma {:induction false} CrcIsLinear(s: Byte, t: Byte, a: seq<Byte>, b: seq<Byte>)
    requires |a| == |b| && s < 128 && t < 128
    ensures Crc(Add(s, t), Xor(a, b)) == Add(Crc(s, a), Crc(t, b))
  {
    hide Crc, ByteStep, Add;
    if a == [] {
      CrcNothing(s);
      CrcNothing(t);
      CrcNothing(Add(s, t));
    } else {
      var n := |a| - 1;
      CrcIsLinear(s, t, a[..n], b[..n]);
      assert a == a[..n] + [a[n]] && b == b[..n] + [b[n]];
      assert Xor(a, b) == Xor(a[..n], b[..n]) + [Add(a[n], b[n])];
      CrcInRange(s, a[..n]);
      CrcInRange(t, b[..n]);
      CrcSnoc(s, a[..n], a[n]);
      CrcSnoc(t, b[..n], b[n]);
      CrcSnoc(Add(s, t), Xor(a[..n], b[..n]), Add(a[n], b[n]));
      StepIsLinear(Crc(s, a[..n]), Crc(t, b[..n]), a[n], b[n]);
    }
  }

  lemma DifferenceBits(c: Byte, d: Byte, b: Byte, x: Byte, y: Byte)
    requires c < 128 && d < 128 && x == (c << 1) ^ b && y == (d << 1) ^ b
    ensures (x ^ y == 0 <==> c == d) && x ^ y != 0x89
  {
  }

  lemma ChangeBits(c: Byte, a: Byte, b: Byte, x: Byte, y: Byte)
    requires x == (c << 1) ^ a && y == (c << 1) ^ b
    ensures x ^ y == a ^ b
  {
  }

  lemma RawDifference(c: Byte, d: Byte, a: Byte, b: Byte)
    requires c < 128 && d < 128
    ensures Index(c, b) ^ Index(d, b) == 0 <==> c == d
    ensures Index(c, b) ^ Index(d, b) != 0x89
  {
    DifferenceBits(c, d, b, Index(c, b), Index(d, b));
  }

  lemma RawChange(c: Byte, a: Byte, b: Byte)
    ensures Index(c, a) ^ Index(c, b) == a ^ b
  {
    ChangeBits(c, a, b, Index(c, a), Index(c, b));
  }

  lemma IndexDifference(c: Byte, d: Byte, a: Byte, b: Byte)
    requires c < 128 && d < 128
    ensures Add(Index(c, b), Index(d, b)) == 0 <==> c == d
    ensures Add(Index(c, b), Index(d, b)) != 0x89
    ensures Add(Index(c, a), Index(c, b)) == Add(a, b)
  {
    hide Index;
    RawDifference(c, d, a, b);
    RawChange(c, a, b);
  }

  lemma StepIsInjective(c: Byte, d: Byte, b: Byte)
    requires c < 128 && d < 128
    ensures ByteStep(c, b) == ByteStep(d, b) <==> c == d
  {
    hide ByteStep, Combined, Add, Index;
    Absorbed(c, b);
    Absorbed(d, b);
    CombinedIsLinear(Index(c, b), Index(d, b));
    IndexDifference(c, d, b, b);
  }

  lemma ByteChange(c: Byte, a: Byte, b: Byte)
    requires c < 128
    ensures ByteStep(c, a) == ByteStep(c, b) <==> a == b || Add(a, b) == 0x89
  {
    hide ByteStep, Combined, Add, Index;
    Absorbed(c, a);
    Absorbed(c, b);
    CombinedIsLinear(Index(c, a), Index(c, b));
    IndexDifference(c, c, a, b);
    SameIsZero(a, b);
  }

  lemma {:induction false} CrcInRange(start: Byte, buffer: seq<Byte>)
    requires start < 128
    ensures Crc(start, buffer) < 128
  {
    hide Crc, ByteStep;
    if buffer == [] {
      CrcNothing(start);
    } else {
      var n := |buffer| - 1;
      CrcInRange(start, buffer[..n]);
      assert buffer == buffer[..n] + [buffer[n]];
      CrcSnoc(start, buffer[..n], buffer[n]);
      Absorbed(Crc(start, buffer[..n]), buffer[n]);
    }
  }

  /**
   * A change of one byte, in a buffer of any length, goes unnoticed exactly if it
   * adds the polynomial itself; in particular every change of a single bit is found.
   */
  lemma {:induction false} ByteChangeDetected(start: Byte, x: seq<Byte>, y: seq<Byte>, k: nat)
    requires start < 128 && |x| == |y| && k < |x| && forall i | 0 <= i < |x| && i != k :: x[i] == y[i]
    ensures Crc(start, x) == Crc(start, y) <==> x[k] == y[k] || Add(x[k], y[k]) == 0x89
    decreases |x|
  {
    hide Crc, ByteStep, Add;
    var n := |x| - 1;
    assert x == x[..n] + [x[n]] && y == y[..n] + [y[n]];
    CrcSnoc(start, x[..n], x[n]);
    CrcSnoc(start, y[..n], y[n]);
    CrcInRange(start, x[..n]);
    CrcInRange(start, y[..n]);
    if k == n {
      assert x[..n] == y[..n];
      ByteChange(Crc(start, x[..n]), x[n], y[n]);
    } else {
      ByteChangeDetected(start, x[..n], y[..n], k);
      StepIsInjective(Crc(start, x[..n]), Crc(start, y[..n]), x[n]);
    }
  }

  /** Exactly one bit of a byte. */
  predicate OneBit(d: Byte) {
    d != 0 && d & (d - 1) == 0
  }

  lemma BitChangeDetected(start: Byte, x: seq<Byte>, y: seq<Byte>, k: nat)
    requires start < 128 && |x| == |y| && k < |x| && (forall i | 0 <= i < |x| && i != k :: x[i] == y[i]) &&
             OneBit(Add(x[k], y[k]))
    ensures Crc(start, x) != Crc(start, y)
  {
    hide Crc;
    ByteChangeDetected(start, x, y, k);
  }

  // ---------------------------------------------------------------- command headers

  lemma HeaderByte(c: Byte)
    requires c < 128
    ensures ByteStep(c, ((c & 0x7F) << 1) | 1) == 0x09
  {
  }

  /** The six bytes of a command: its CRC-7, moved up, and the stop bit make the CRC of the whole a constant. */
  method SendHeader(cmd: Byte, arg: bv32) returns (buf: seq<Byte>)
    ensures |buf| == 6 && buf[0] == 0x40 | cmd && buf[5] & 1 == 1
    ensures ((buf[1] as bv32) << 24) | ((buf[2] as bv32) << 16) | ((buf[3] as bv32) << 8) | (buf[4] as bv32) == arg
    ensures Crc(0, buf) == 0x09 && buf[5] >> 1 == Crc(0, buf[..5])
  {
    hide Crc, ByteStep;
    buf := [0x40 | cmd, ((arg >> 24) & 0xFF) as Byte, ((arg >> 16) & 0xFF) as Byte, ((arg >> 8) & 0xFF) as Byte,
            (arg & 0xFF) as Byte];
    var c := Crc7(0, buf);
    var last := ((c & 0x7F) << 1) | 0x01;
    HeaderByte(c);
    CrcSnoc(0, buf, last);
    assert (buf + [last])[..5] == buf;
    buf := buf + [last];
  }
}
