/** The loader of Intel HEX files, and the files it reads back as written. */
module HexImage {
  import opened Bits
  import opened Streams
  import opened IsspTarget

  // ---------------------------------------------------------------- hexadecimal

  predicate IsHex(c: char) {
    '0' <= c <= '9' || 'A' <= c <= 'F' || 'a' <= c <= 'f'
  }

  function HexValue(c: char): (n: nat)
    requires IsHex(c)
    ensures n < 16
  {
    if c <= '9' then c as int - 48 else if c <= 'F' then c as int - 55 else c as int - 87
  }

  /** Beyond the end of a line there are no digits. */
  function CharAt(line: string, i: nat): char {
    if i < |line| then line[i] else '\0'
  }

  /** The two digits from place i on as a byte. */
  function ByteAt(line: string, i: nat): Option<Byte> {
    var h, l := CharAt(line, i), CharAt(line, i + 1);
    if IsHex(h) && IsHex(l) then Some(ToByte(16 * HexValue(h) + HexValue(l))) else None
  }

  /** n bytes from place i on. */
  function BytesAt(line: string, i: nat, n: nat): (r: Option<seq<Byte>>)
    ensures r.Some? ==> |r.value| == n
    decreases n
  {
    if n == 0 then Some([]) else
    match BytesAt(line, i, n - 1)
    case None => None
    case Some(before) =>
      match ByteAt(line, i + 2 * (n - 1))
      case None => None
      case Some(b) => Some(before + [b])
  }

  /** 8-bit addition. */
  function Add8(a: Byte, b: Byte): Byte {
    a + b
  }

  lemma PlusLaws(a: Byte, b: Byte, c: Byte)
    ensures Add8(Add8(a, b), c) == Add8(Add8(a, c), b) && Add8(0, a) == a
  {
  }

  /** The sum of bytes in 8-bit arithmetic. */
  function Sum8(bytes: seq<Byte>): Byte {
    if bytes == [] then 0 else Add8(Sum8(bytes[..|bytes| - 1]), bytes[|bytes| - 1])
  }

  // ---------------------------------------------------------------- records

  /** A record: its address, its type and its data. */
  datatype Record = Record(hi: Byte, lo: Byte, kind: Byte, data: seq<Byte>)

  const DATA: Byte := 0
  const END: Byte := 1
  const EXTENDED: Byte := 4

  /** The bytes of a record that its checksum covers. */
  function Covered(r: Record): seq<Byte>
    requires |r.data| < 256
  {
    [ToByte(|r.data|), r.hi, r.lo, r.kind] + r.data
  }

  /** What a line says, if all of it is digits and its checksum is right. */
  function RecordOf(line: string): (r: Option<Record>)
    ensures r.Some? ==> |r.value.data| < 256
  {
    if CharAt(line, 0) != ':' then None else
    match BytesAt(line, 1, 4)
    case None => None
    case Some(h) =>
      var n := h[0] as int;
      match BytesAt(line, 9, n)
      case None => None
      case Some(d) =>
        match ByteAt(line, 9 + 2 * n)
        case None => None
        case Some(c) => if Add8(Sum8(h + d), c) == 0 then Some(Record(h[1], h[2], h[3], d)) else None
  }

  // ---------------------------------------------------------------- the image

  datatype Content = Content(program: seq<seq<Byte>>, security: seq<Byte>, inSecurity: bool, inChecksum: bool,
      checksum: nat)

  /** Whether the next record may be this one. */
  predicate Fits(m: Content, r: Record) {
    var full := |m.program| == BLOCKS;
    || (|r.data| == BLOCK_SIZE && r.kind == DATA && |m.program| < BLOCKS && !m.inSecurity && !m.inChecksum)
    || (|r.data| == BLOCK_SIZE && r.kind == DATA && full && m.inSecurity && !m.inChecksum)
    || (|r.data| == 2 && r.kind == EXTENDED && full && !m.inChecksum)
    || (|r.data| == 2 && r.kind == DATA && full && m.inSecurity && m.inChecksum)
    || (|r.data| == 0 && r.kind == END && full && m.inSecurity && m.inChecksum)
  }

  /** A 16-bit number, high byte first. */
  function Number(d: seq<Byte>): nat
    requires |d| == 2
  {
    256 * d[0] as int + d[1] as int
  }

  function Apply(m: Content, r: Record): Content
    requires Fits(m, r)
  {
    if |r.data| == BLOCK_SIZE && !m.inSecurity then m.(program := m.program + [r.data])
    else if |r.data| == BLOCK_SIZE then m.(security := r.data)
    else if r.kind == EXTENDED && !m.inSecurity then m.(inSecurity := true)
    else if r.kind == EXTENDED then m.(inChecksum := true)
    else if |r.data| == 2 then m.(checksum := Number(r.data))
    else m
  }

  /** What loading these lines on top of old data yields, if it succeeds. */
  function Loaded(security: seq<Byte>, checksum: nat, lines: seq<string>): Option<Content> {
    if lines == [] then Some(Content([], security, false, false, checksum)) else
    match Loaded(security, checksum, lines[..|lines| - 1])
    case None => None
    case Some(m) =>
      match RecordOf(lines[|lines| - 1])
      case None => None
      case Some(r) => if Fits(m, r) then Some(Apply(m, r)) else None
  }

  // ---------------------------------------------------------------- what is accepted

  lemma BytesSnoc(line: string, i: nat, n: nat)
    requires BytesAt(line, i, n).Some? && ByteAt(line, i + 2 * n).Some?
    ensures BytesAt(line, i, n + 1) == Some(BytesAt(line, i, n).value + [ByteAt(line, i + 2 * n).value])
  {
  }

  lemma {:induction false} BytesContinue(line: string, i: nat, k: nat, n: nat)
    requires BytesAt(line, i, k).Some? && BytesAt(line, i + 2 * k, n).Some?
    ensures BytesAt(line, i, k + n) == Some(BytesAt(line, i, k).value + BytesAt(line, i + 2 * k, n).value)
    decreases n
  {
    hide ByteAt;
    var x, y := BytesAt(line, i, k).value, BytesAt(line, i + 2 * k, n).value;
    if n == 0 {
      assert x + y == x;
    } else {
      BytesContinue(line, i, k, n - 1);
      var z, b := BytesAt(line, i + 2 * k, n - 1).value, ByteAt(line, i + 2 * k + 2 * (n - 1));
      assert y == z + [b.value];
      assert i + 2 * (k + n - 1) == i + 2 * k + 2 * (n - 1);
      BytesSnoc(line, i, k + n - 1);
      assert x + (z + [b.value]) == x + z + [b.value];
    }
  }

  /** An accepted line's bytes, its checksum included, sum to zero. */
  lemma AcceptedLineSumsToZero(line: string)
    requires RecordOf(line).Some?
    ensures var n := |RecordOf(line).value.data|;
            BytesAt(line, 1, 5 + n).Some? && Sum8(BytesAt(line, 1, 5 + n).value) == 0
  {
    hide ByteAt, BytesAt, CharAt, Sum8, Add8;
    var h := BytesAt(line, 1, 4).value;
    var n := h[0] as int;
    var d, c := BytesAt(line, 9, n).value, ByteAt(line, 9 + 2 * n).value;
    BytesContinue(line, 1, 4, n);
    assert 1 + 2 * (4 + n) == 9 + 2 * n;
    BytesSnoc(line, 1, 4 + n);
    Sum8Snoc(h + d, c);
  }

  lemma Sum8Snoc(bytes: seq<Byte>, b: Byte)
    ensures Sum8(bytes + [b]) == Add8(Sum8(bytes), b)
  {
    assert (bytes + [b])[..|bytes|] == bytes;
  }

  /** Whatever is accepted was accepted line by line: a truncated file is taken as well. */
  lemma {:induction false} PrefixAccepted(security: seq<Byte>, checksum: nat, lines: seq<string>, k: nat)
    requires Loaded(security, checksum, lines).Some? && k <= |lines|
    ensures Loaded(security, checksum, lines[..k]).Some?
    decreases |lines|
  {
    hide RecordOf, Fits, Apply;
    if k == |lines| {
      assert lines[..k] == lines;
    } else {
      PrefixAccepted(security, checksum, lines[..|lines| - 1], k);
      assert lines[..|lines| - 1][..k] == lines[..k];
    }
  }

  /** After any accepted lines the blocks are exactly the data of the first of them, at most 128, in order. */
  lemma {:induction false} BlocksAreTheFirstRecords(security: seq<Byte>, checksum: nat, lines: seq<string>)
    requires Loaded(security, checksum, lines).Some?
    ensures var m := Loaded(security, checksum, lines).value;
            && |m.program| == (if |lines| < BLOCKS then |lines| else BLOCKS)
            && (m.inSecurity || m.inChecksum ==> |m.program| == BLOCKS)
            && forall k | 0 <= k < |m.program| ::
                 && RecordOf(lines[k]).Some? && RecordOf(lines[k]).value.kind == DATA
                 && RecordOf(lines[k]).value.data == m.program[k] && |m.program[k]| == BLOCK_SIZE
  {
    hide RecordOf;
    if lines == [] {
    } else {
      var before := lines[..|lines| - 1];
      BlocksAreTheFirstRecords(security, checksum, before);
      var m := Loaded(security, checksum, before).value;
      assert forall k | 0 <= k < |m.program| :: before[k] == lines[k];
    }
  }

  /** A table of rows whose first ones a file has given. */
  function Overwritten(rows: seq<seq<Byte>>, program: seq<seq<Byte>>): seq<seq<Byte>> {
    if |program| <= |rows| then program + rows[|program|..] else program
  }

  /** The line is a record with these data. */
  predicate Gives(line: string, data: seq<Byte>) {
    RecordOf(line).Some? && RecordOf(line).value.data == data
  }

  /** Block k is what line k gives, or the old row k if there is no such line. */
  predicate ComeFrom(blocks: seq<seq<Byte>>, lines: seq<string>, rows: seq<seq<Byte>>) {
    && |blocks| == |rows| == BLOCKS
    && forall k | 0 <= k < BLOCKS :: if k < |lines| then Gives(lines[k], blocks[k]) else blocks[k] == rows[k]
  }

  /** Once a file is loaded the table holds the data of its first lines, and behind them what it held before. */
  lemma TableComesFrom(rows: seq<seq<Byte>>, security: seq<Byte>, checksum: nat, lines: seq<string>)
    requires |rows| == BLOCKS && Loaded(security, checksum, lines).Some?
    ensures ComeFrom(Overwritten(rows, Loaded(security, checksum, lines).value.program), lines, rows)
  {
    hide Loaded, RecordOf;
    BlocksAreTheFirstRecords(security, checksum, lines);
  }

  // ---------------------------------------------------------------- what is complete

  /** Line i holds a record of this type with n bytes of data. */
  predicate IsRecord(lines: seq<string>, i: nat, kind: Byte, n: nat)
    requires i < |lines|
  {
    var r := RecordOf(lines[i]);
    r.Some? && r.value.kind == kind && |r.value.data| == n
  }

  /** There is such a record behind the line that follows the blocks. */
  predicate HasLater(lines: seq<string>, kind: Byte, n: nat) {
    exists i: nat :: BLOCKS < i < |lines| && IsRecord(lines, i, kind, n)
  }

  lemma HasLaterNext(lines: seq<string>, kind: Byte, n: nat)
    requires lines != []
    ensures var last := |lines| - 1;
            HasLater(lines, kind, n) <==>
              HasLater(lines[..last], kind, n) || (BLOCKS < last && IsRecord(lines, last, kind, n))
  {
    hide RecordOf;
    var last := |lines| - 1;
    var before := lines[..last];
    if HasLater(lines, kind, n) {
      var i: nat :| BLOCKS < i < |lines| && IsRecord(lines, i, kind, n);
      assert i < last ==> IsRecord(before, i, kind, n);
    }
    if HasLater(before, kind, n) {
      var i: nat :| BLOCKS < i < |before| && IsRecord(before, i, kind, n);
      assert IsRecord(lines, i, kind, n);
    }
  }

  lemma NothingLater(kind: Byte, n: nat)
    ensures !HasLater([], kind, n)
  {
  }

  /**
   * How far an accepted file goes: its blocks are complete exactly if it has 128
   * lines or more, the security address has come exactly if it has another one, and
   * the checksum address exactly if an address record is behind that one.
   */
  lemma {:induction false} CompleteExactly(security: seq<Byte>, checksum: nat, lines: seq<string>)
    requires Loaded(security, checksum, lines).Some?
    ensures var m := Loaded(security, checksum, lines).value;
            && (|m.program| == BLOCKS <==> |lines| >= BLOCKS)
            && (m.inSecurity <==> |lines| > BLOCKS)
            && (m.inChecksum <==> HasLater(lines, EXTENDED, 2))
  {
    hide RecordOf, HasLater;
    BlocksAreTheFirstRecords(security, checksum, lines);
    if lines == [] {
      NothingLater(EXTENDED, 2);
    } else {
      var before := lines[..|lines| - 1];
      BlocksAreTheFirstRecords(security, checksum, before);
      CompleteExactly(security, checksum, before);
      HasLaterNext(lines, EXTENDED, 2);
    }
  }

  /** The parts of an image that the lines themselves do not settle are those of an earlier file. */
  function OnTopOf(m: Content, security: seq<Byte>, checksum: nat, lines: seq<string>): Content {
    m.(security := if HasLater(lines, DATA, BLOCK_SIZE) then m.security else security,
       checksum := if HasLater(lines, DATA, 2) then m.checksum else checksum)
  }

  /** Loading the same lines on top of different data. */
  lemma {:induction false} OldDataShow(security: seq<Byte>, checksum: nat, security': seq<Byte>, checksum': nat,
      lines: seq<string>)
    requires Loaded(security, checksum, lines).Some?
    ensures var m := Loaded(security, checksum, lines).value;
            && m == OnTopOf(m, security, checksum, lines)
            && Loaded(security', checksum', lines) == Some(OnTopOf(m, security', checksum', lines))
  {
    hide RecordOf, HasLater, Number;
    if lines == [] {
      NothingLater(DATA, BLOCK_SIZE);
      NothingLater(DATA, 2);
    } else {
      var before := lines[..|lines| - 1];
      OldDataShow(security, checksum, security', checksum', before);
      BlocksAreTheFirstRecords(security, checksum, before);
      CompleteExactly(security, checksum, before);
      HasLaterNext(lines, DATA, BLOCK_SIZE);
      HasLaterNext(lines, DATA, 2);
    }
  }

  /**
   * An accepted file says all there is to know, whatever security block and checksum
   * an earlier file has left, exactly if it has both a security block and a checksum.
   */
  lemma WholeExactly(security: seq<Byte>, checksum: nat, lines: seq<string>)
    requires Loaded(security, checksum, lines).Some? && |security| == BLOCK_SIZE
    ensures (forall security', checksum' | |security'| == BLOCK_SIZE ::
               Loaded(security', checksum', lines) == Loaded(security, checksum, lines)) <==>
            HasLater(lines, DATA, BLOCK_SIZE) && HasLater(lines, DATA, 2)
  {
    hide Loaded, HasLater;
    forall security', checksum' | |security'| == BLOCK_SIZE
      ensures var m := Loaded(security, checksum, lines).value;
              Loaded(security', checksum', lines) == Some(OnTopOf(m, security', checksum', lines))
    {
      OldDataShow(security, checksum, security', checksum', lines);
    }
    var other := security[0 := !security[0]];
    Differs(security[0]);
    assert other[0] != security[0];
    OldDataShow(security, checksum, other, checksum, lines);
    OldDataShow(security, checksum, security, checksum + 1, lines);
  }

  lemma Differs(b: Byte)
    ensures !b != b
  {
  }

  /** The security block stays 64 bytes long. */
  lemma {:induction false} SecurityLength(security: seq<Byte>, checksum: nat, lines: seq<string>)
    requires Loaded(security, checksum, lines).Some? && |security| == BLOCK_SIZE
    ensures |Loaded(security, checksum, lines).value.security| == BLOCK_SIZE
  {
    hide RecordOf;
    if lines == [] {
    } else {
      SecurityLength(security, checksum, lines[..|lines| - 1]);
    }
  }

  // ---------------------------------------------------------------- writing and reading back

  function Digit(n: nat, lower: bool): (c: char)
    requires n < 16
    ensures IsHex(c) && HexValue(c) == n
  {
    if n < 10 then (48 + n) as char else if lower then (87 + n) as char else (55 + n) as char
  }

  function PrintByte(b: Byte, lower: bool): (s: string)
    ensures |s| == 2
  {
    [Digit(b as int / 16, lower), Digit(b as int % 16, lower)]
  }

  function PrintBytes(bytes: seq<Byte>, lower: bool): (s: string)
    ensures |s| == 2 * |bytes|
  {
    if bytes == [] then "" else PrintBytes(bytes[..|bytes| - 1], lower) + PrintByte(bytes[|bytes| - 1], lower)
  }

  /** A record as a line of a file, its checksum last. */
  function PrintRecord(r: Record, lower: bool): string
    requires |r.data| < 256
  {
    ":" + PrintBytes(Covered(r) + [0 - Sum8(Covered(r))], lower) + "\n"
  }

  lemma {:induction false} PrintedDigits(bytes: seq<Byte>, lower: bool, k: nat)
    requires k < |bytes|
    ensures PrintBytes(bytes, lower)[2 * k..2 * k + 2] == PrintByte(bytes[k], lower)
    decreases |bytes|
  {
    hide PrintByte;
    var n := |bytes| - 1;
    if k == n {
    } else {
      PrintedDigits(bytes[..n], lower, k);
      assert PrintBytes(bytes, lower)[2 * k..2 * k + 2] == PrintBytes(bytes[..n], lower)[2 * k..2 * k + 2];
    }
  }

  lemma TwoDigits(b: Byte)
    ensures ToByte(16 * (b as int / 16) + b as int % 16) == b
  {
    ByteInjective(ToByte(16 * (b as int / 16) + b as int % 16), b);
  }

  lemma ByteReadBack(bytes: seq<Byte>, lower: bool, k: nat)
    requires k < |bytes|
    ensures ByteAt(":" + PrintBytes(bytes, lower) + "\n", 1 + 2 * k) == Some(bytes[k])
  {
    hide PrintBytes, ToByte, HexValue, IsHex, Digit;
    var text, b := PrintBytes(bytes, lower), bytes[k];
    var line := ":" + text + "\n";
    PrintedDigits(bytes, lower, k);
    assert text[2 * k..2 * k + 2][0] == text[2 * k] && text[2 * k..2 * k + 2][1] == text[2 * k + 1];
    assert CharAt(line, 1 + 2 * k) == text[2 * k] && CharAt(line, 2 + 2 * k) == text[2 * k + 1];
    TwoDigits(b);
  }

  lemma {:induction false} BytesReadBack(bytes: seq<Byte>, lower: bool, at: nat, n: nat)
    requires at + n <= |bytes|
    ensures BytesAt(":" + PrintBytes(bytes, lower) + "\n", 1 + 2 * at, n) == Some(bytes[at..at + n])
    decreases n
  {
    hide PrintBytes, ByteAt;
    if n == 0 {
      assert bytes[at..at + n] == [];
    } else {
      BytesReadBack(bytes, lower, at, n - 1);
      ByteReadBack(bytes, lower, at + n - 1);
      assert 1 + 2 * at + 2 * (n - 1) == 1 + 2 * (at + n - 1);
      BytesSnoc(":" + PrintBytes(bytes, lower) + "\n", 1 + 2 * at, n - 1);
      assert bytes[at..at + n] == bytes[at..at + n - 1] + [bytes[at + n - 1]];
    }
  }

  lemma NegativeSums(s: Byte)
    ensures Add8(s, 0 - s) == 0
  {
  }

  lemma RecordParts(line: string, h: seq<Byte>, d: seq<Byte>, c: Byte)
    requires |h| == 4 && CharAt(line, 0) == ':' && BytesAt(line, 1, 4) == Some(h) &&
             BytesAt(line, 9, h[0] as int) == Some(d)
    requires ByteAt(line, 9 + 2 * h[0] as int) == Some(c) && Add8(Sum8(h + d), c) == 0
    ensures RecordOf(line) == Some(Record(h[1], h[2], h[3], d))
  {
    hide ByteAt, BytesAt, CharAt, Sum8, Add8;
  }

  lemma StartsWithColon(s: string, t: string)
    ensures CharAt(":" + s + t, 0) == ':'
  {
  }

  lemma LineReadBack(h: seq<Byte>, d: seq<Byte>, c: Byte, lower: bool)
    requires |h| == 4 && h[0] as int == |d| && Add8(Sum8(h + d), c) == 0
    ensures RecordOf(":" + PrintBytes(h + d + [c], lower) + "\n") == Some(Record(h[1], h[2], h[3], d))
  {
    hide PrintBytes, ByteAt, BytesAt, Sum8, RecordOf, Add8, CharAt;
    var all, n := h + d + [c], |d|;
    StartsWithColon(PrintBytes(all, lower), "\n");
    BytesReadBack(all, lower, 0, 4);
    BytesReadBack(all, lower, 4, n);
    ByteReadBack(all, lower, 4 + n);
    assert all[0..4] == h && all[4..4 + n] == d && all[4 + n] == c;
    RecordParts(":" + PrintBytes(all, lower) + "\n", h, d, c);
  }

  /** A printed record is read back as it was. */
  lemma RecordReadBack(r: Record, lower: bool)
    requires |r.data| < 256
    ensures RecordOf(PrintRecord(r, lower)) == Some(r)
  {
    hide PrintBytes, Sum8, ToByte, RecordOf, Add8;
    NegativeSums(Sum8(Covered(r)));
    LineReadBack([ToByte(|r.data|), r.hi, r.lo, r.kind], r.data, 0 - Sum8(Covered(r)), lower);
  }

  /**
   * The records of a whole image: its blocks, the security block and the checksum, each
   * after an address record, and the end. The addresses may be any.
   */
  predicate Describes(rs: seq<Record>, program: seq<seq<Byte>>, security: seq<Byte>, checksum: seq<Byte>) {
    && |rs| == BLOCKS + 5 && |program| == BLOCKS && |security| == BLOCK_SIZE && |checksum| == 2
    && (forall k | 0 <= k < BLOCKS :: |program[k]| == BLOCK_SIZE && rs[k].kind == DATA && rs[k].data == program[k])
    && rs[BLOCKS].kind == EXTENDED && |rs[BLOCKS].data| == 2
    && rs[BLOCKS + 1].kind == DATA && rs[BLOCKS + 1].data == security
    && rs[BLOCKS + 2].kind == EXTENDED && |rs[BLOCKS + 2].data| == 2
    && rs[BLOCKS + 3].kind == DATA && rs[BLOCKS + 3].data == checksum
    && rs[BLOCKS + 4].kind == END && rs[BLOCKS + 4].data == []
  }

  function Printed(rs: seq<Record>, lower: bool): (lines: seq<string>)
    requires forall r | r in rs :: |r.data| < 256
    ensures |lines| == |rs| && forall i | 0 <= i < |rs| :: lines[i] == PrintRecord(rs[i], lower)
  {
    seq(|rs|, i requires 0 <= i < |rs| => PrintRecord(rs[i], lower))
  }

  lemma LoadedNothing(security: seq<Byte>, checksum: nat)
    ensures Loaded(security, checksum, []) == Some(Content([], security, false, false, checksum))
  {
  }

  lemma LoadedNext(security: seq<Byte>, checksum: nat, lines: seq<string>, k: nat, r: Record, lower: bool)
    requires k < |lines| && |r.data| < 256 && lines[k] == PrintRecord(r, lower)
    requires var m := Loaded(security, checksum, lines[..k]); m.Some? && Fits(m.value, r)
    ensures Loaded(security, checksum, lines[..k + 1]) == Some(Apply(Loaded(security, checksum, lines[..k]).value, r))
  {
    hide RecordOf, PrintRecord;
    RecordReadBack(r, lower);
    assert lines[..k + 1][..k] == lines[..k];
  }

  lemma {:induction false} BlocksReadBack(rs: seq<Record>, program: seq<seq<Byte>>, security: seq<Byte>,
      checksum: seq<Byte>, lower: bool, lines: seq<string>, s0: seq<Byte>, c0: nat, k: nat)
    requires Describes(rs, program, security, checksum) && k <= BLOCKS
    requires |lines| == |rs| && forall i | 0 <= i < |rs| :: |rs[i].data| < 256 && lines[i] == PrintRecord(rs[i], lower)
    ensures Loaded(s0, c0, lines[..k]) == Some(Content(program[..k], s0, false, false, c0))
    decreases k
  {
    hide PrintRecord, Loaded, RecordOf;
    if k == 0 {
      LoadedNothing(s0, c0);
      assert lines[..0] == [] && program[..0] == [];
    } else {
      BlocksReadBack(rs, program, security, checksum, lower, lines, s0, c0, k - 1);
      LoadedNext(s0, c0, lines, k - 1, rs[k - 1], lower);
      assert program[..k] == program[..k - 1] + [program[k - 1]];
    }
  }

  /**
   * Every image written as a file, in digits of either case and with any addresses, is
   * read back exactly, whatever was loaded before.
   */
  lemma ImageReadBack(rs: seq<Record>, program: seq<seq<Byte>>, security: seq<Byte>, checksum: seq<Byte>,
      lower: bool, s0: seq<Byte>, c0: nat)
    requires Describes(rs, program, security, checksum) && forall r | r in rs :: |r.data| < 256
    ensures Loaded(s0, c0, Printed(rs, lower)) == Some(Content(program, security, true, true, Number(checksum)))
  {
    hide PrintRecord, Loaded;
    var lines := Printed(rs, lower);
    BlocksReadBack(rs, program, security, checksum, lower, lines, s0, c0, BLOCKS);
    assert program[..BLOCKS] == program;
    LoadedNext(s0, c0, lines, BLOCKS, rs[BLOCKS], lower);
    LoadedNext(s0, c0, lines, BLOCKS + 1, rs[BLOCKS + 1], lower);
    LoadedNext(s0, c0, lines, BLOCKS + 2, rs[BLOCKS + 2], lower);
    LoadedNext(s0, c0, lines, BLOCKS + 3, rs[BLOCKS + 3], lower);
    LoadedNext(s0, c0, lines, BLOCKS + 4, rs[BLOCKS + 4], lower);
    assert lines[..BLOCKS + 5] == lines;
  }

  /**
   * A file cut off behind any of its lines loads all the same; its security block is
   * there exactly from the second line behind the blocks on, its checksum from the fourth.
   */
  lemma TruncatedFileLoads(rs: seq<Record>, program: seq<seq<Byte>>, security: seq<Byte>, checksum: seq<Byte>,
      lower: bool, s0: seq<Byte>, c0: nat, k: nat)
    requires Describes(rs, program, security, checksum) && (forall r | r in rs :: |r.data| < 256) && k <= |rs|
    ensures var file := Printed(rs, lower)[..k];
            && Loaded(s0, c0, file).Some?
            && (HasLater(file, DATA, BLOCK_SIZE) <==> k >= BLOCKS + 2)
            && (HasLater(file, DATA, 2) <==> k >= BLOCKS + 4)
  {
    hide PrintRecord, Loaded, RecordOf;
    var file := Printed(rs, lower)[..k];
    ImageReadBack(rs, program, security, checksum, lower, s0, c0);
    PrefixAccepted(s0, c0, Printed(rs, lower), k);
    forall i: nat | i < k
      ensures RecordOf(file[i]) == Some(rs[i])
    {
      RecordReadBack(rs[i], lower);
    }
    assert k >= BLOCKS + 2 ==> IsRecord(file, BLOCKS + 1, DATA, BLOCK_SIZE);
    assert k >= BLOCKS + 4 ==> IsRecord(file, BLOCKS + 3, DATA, 2);
  }

  // ---------------------------------------------------------------- the loader

  class HexLoader {
    const programData: array2<Byte>
    const securityData: array<Byte>
    var blockCounter: nat
    var fSecurityAddrAcquired: bool
    var fChecksumAddrAcquired: bool
    var securityAddr: nat
    var checksumAddr: nat
    var programChecksum: nat

    ghost predicate Valid()
      reads this
    {
      programData.Length0 == BLOCKS && programData.Length1 == BLOCK_SIZE && securityData.Length == BLOCK_SIZE &&
      blockCounter <= BLOCKS
    }

    ghost function Row(k: nat): (r: seq<Byte>)
      requires k < programData.Length0
      reads programData
      ensures |r| == programData.Length1
    {
      seq(programData.Length1, i requires 0 <= i < programData.Length1 reads programData => programData[k, i])
    }

    /** The rows loaded so far. */
    ghost function Rows(n: nat): (r: seq<seq<Byte>>)
      requires n <= programData.Length0
      reads programData
      ensures |r| == n && forall k | 0 <= k < n :: r[k] == Row(k)
    {
      if n == 0 then [] else Rows(n - 1) + [Row(n - 1)]
    }

    ghost function Abs(): Content
      requires Valid()
      reads this, programData, securityData
    {
      Content(Rows(blockCounter), securityData[..], fSecurityAddrAcquired, fChecksumAddrAcquired, programChecksum)
    }

    constructor ()
      ensures Valid() && fresh(programData) && fresh(securityData)
    {
      programData := new Byte[BLOCKS, BLOCK_SIZE];
      securityData := new Byte[BLOCK_SIZE];
      blockCounter, fSecurityAddrAcquired, fChecksumAddrAcquired := 0, false, false;
      securityAddr, checksumAddr, programChecksum := 0, 0, 0;
    }

    /** 64 bytes of data go to the next row; what a bad line leaves there does not count. */
    method ReadBlock(line: string, start: Byte, ghost h: seq<Byte>) returns (ok: bool, checksum: Byte)
      requires Valid() && blockCounter < BLOCKS && start == Sum8(h)
      modifies programData
      ensures ok <==> BytesAt(line, 9, BLOCK_SIZE).Some?
      ensures ok ==> Row(blockCounter) == BytesAt(line, 9, BLOCK_SIZE).value
      ensures ok ==> checksum == Sum8(h + BytesAt(line, 9, BLOCK_SIZE).value)
      ensures forall k | 0 <= k < BLOCKS && k != blockCounter :: Row(k) == old(Row(k))
    {
      hide BytesAt, ByteAt, Sum8, Add8;
      checksum := start;
      ghost var got := [];
      NoBytes(line, 9);
      assert h + got == h;
      for i := 0 to BLOCK_SIZE
        invariant BytesAt(line, 9, i) == Some(got) && |got| == i && checksum == Sum8(h + got)
        invariant forall j | 0 <= j < i :: programData[blockCounter, j] == got[j]
        invariant forall k, j | 0 <= k < BLOCKS && k != blockCounter && 0 <= j < BLOCK_SIZE ::
                    programData[k, j] == old(programData[k, j])
      {
        var b := ByteAt(line, 9 + i * 2);
        if b.None? { Missing(line, 9, i, BLOCK_SIZE); return false, 0; }
        BytesSnoc(line, 9, i);
        Sum8Snoc(h + got, b.value);
        assert h + (got + [b.value]) == h + got + [b.value];
        checksum := Add8(checksum, b.value);
        programData[blockCounter, i] := b.value;
        got := got + [b.value];
      }
      ok := true;
    }

    /** The security block is read likewise. */
    method ReadSecurity(line: string, start: Byte, ghost h: seq<Byte>) returns (ok: bool, checksum: Byte)
      requires Valid() && start == Sum8(h)
      modifies securityData
      ensures ok <==> BytesAt(line, 9, BLOCK_SIZE).Some?
      ensures ok ==> securityData[..] == BytesAt(line, 9, BLOCK_SIZE).value
      ensures ok ==> checksum == Sum8(h + BytesAt(line, 9, BLOCK_SIZE).value)
    {
      hide BytesAt, ByteAt, Sum8, Add8;
      checksum := start;
      ghost var got := [];
      NoBytes(line, 9);
      assert h + got == h;
      for i := 0 to BLOCK_SIZE
        invariant BytesAt(line, 9, i) == Some(got) && |got| == i && checksum == Sum8(h + got)
        invariant securityData[..i] == got
      {
        var b := ByteAt(line, 9 + i * 2);
        if b.None? { Missing(line, 9, i, BLOCK_SIZE); return false, 0; }
        BytesSnoc(line, 9, i);
        Sum8Snoc(h + got, b.value);
        assert h + (got + [b.value]) == h + got + [b.value];
        checksum := Add8(checksum, b.value);
        securityData[i] := b.value;
        got := got + [b.value];
      }
      ok := true;
    }

    /** A 16-bit number of four digits; both its bytes count for the checksum. */
    method ReadNumber(line: string, start: Byte, ghost h: seq<Byte>) returns (ok: bool, number: nat, checksum: Byte)
      requires start == Sum8(h)
      ensures ok <==> BytesAt(line, 9, 2).Some?
      ensures ok ==> number == Number(BytesAt(line, 9, 2).value) && checksum == Sum8(h + BytesAt(line, 9, 2).value)
    {
      hide ByteAt, BytesAt, Sum8, Add8;
      var high, low := ByteAt(line, 9), ByteAt(line, 11);
      if high.None? { Missing(line, 9, 0, 2); return false, 0, 0; }
      if low.None? { Missing(line, 9, 1, 2); return false, 0, 0; }
      NoBytes(line, 9);
      BytesSnoc(line, 9, 0);
      BytesSnoc(line, 9, 1);
      Sum8Snoc(h, high.value);
      Sum8Snoc(h + [high.value], low.value);
      PlusLaws(start, low.value, high.value);
      assert h + [high.value] + [low.value] == h + [high.value, low.value];
      assert [] + [high.value] + [low.value] == [high.value, low.value];
      return true, 256 * high.value as int + low.value as int, Add8(Add8(start, low.value), high.value);
    }

    method ReadHeader(line: string) returns (ok: bool, h: seq<Byte>, checksum: Byte)
      ensures ok <==> CharAt(line, 0) == ':' && BytesAt(line, 1, 4).Some?
      ensures ok ==> BytesAt(line, 1, 4) == Some(h) && checksum == Sum8(h)
    {
      hide ByteAt, BytesAt, CharAt, Sum8, Add8;
      if CharAt(line, 0) != ':' { return false, [], 0; }
      var size, hi, lo, kind := ByteAt(line, 1), ByteAt(line, 3), ByteAt(line, 5), ByteAt(line, 7);
      if size.None? { Missing(line, 1, 0, 4); return false, [], 0; }
      if hi.None? { Missing(line, 1, 1, 4); return false, [], 0; }
      if lo.None? { Missing(line, 1, 2, 4); return false, [], 0; }
      if kind.None? { Missing(line, 1, 3, 4); return false, [], 0; }
      FourBytes(line);
      h := [size.value, hi.value, lo.value, kind.value];
      SumOfFour(size.value, hi.value, lo.value, kind.value);
      return true, h, Add8(Add8(Add8(size.value, kind.value), lo.value), hi.value);
    }

    /** The data of a record go where the records before have led to. */
    method ReadData(line: string, h: seq<Byte>, start: Byte) returns (ok: bool, checksum: Byte)
      requires Valid() && |h| == 4 && start == Sum8(h)
      modifies this, programData, securityData
      ensures Valid() && blockCounter >= old(blockCounter) && Rows(old(blockCounter)) == old(Rows(blockCounter))
      ensures ok ==> forall k | blockCounter <= k < BLOCKS :: Row(k) == old(Row(k))
      ensures var d := BytesAt(line, 9, h[0] as int);
              && (ok <==> d.Some? && Fits(old(Abs()), Record(h[1], h[2], h[3], d.value)))
              && (ok ==> checksum == Sum8(h + d.value) && Abs() == Apply(old(Abs()), Record(h[1], h[2], h[3], d.value)))
    {
      hide BytesAt, Sum8, Number;
      var size, kind, full := h[0] as int, h[3], blockCounter == BLOCKS;
      checksum := start;
      if size == BLOCK_SIZE && kind == DATA && !full && !fSecurityAddrAcquired && !fChecksumAddrAcquired {
        ok, checksum := ReadBlock(line, start, h);
        if !ok { return; }
        assert Rows(blockCounter) == old(Rows(blockCounter));
        blockCounter := blockCounter + 1;
      } else if size == BLOCK_SIZE && kind == DATA && full && fSecurityAddrAcquired && !fChecksumAddrAcquired {
        ok, checksum := ReadSecurity(line, start, h);
      } else if size == 2 && kind == EXTENDED && full && !fSecurityAddrAcquired && !fChecksumAddrAcquired {
        ok, securityAddr, checksum := ReadNumber(line, start, h);
        if !ok { return; }
        fSecurityAddrAcquired := true;
      } else if size == 2 && kind == EXTENDED && full && fSecurityAddrAcquired && !fChecksumAddrAcquired {
        ok, checksumAddr, checksum := ReadNumber(line, start, h);
        if !ok { return; }
        fChecksumAddrAcquired := true;
      } else if size == 2 && kind == DATA && full && fSecurityAddrAcquired && fChecksumAddrAcquired {
        var number;
        ok, number, checksum := ReadNumber(line, start, h);
        if !ok { return; }
        programChecksum := number;
      } else if size == 0 && kind == END && full && fSecurityAddrAcquired && fChecksumAddrAcquired {
        NoBytes(line, 9);
        assert h + [] == h;
        ok := true;
      } else {
        ok := false;
      }
    }

    /** One line of the file. */
    method HexDataProcess(line: string) returns (ok: bool)
      requires Valid()
      modifies this, programData, securityData
      ensures Valid() && blockCounter >= old(blockCounter) && Rows(old(blockCounter)) == old(Rows(blockCounter))
      ensures ok ==> forall k | blockCounter <= k < BLOCKS :: Row(k) == old(Row(k))
      ensures ok <==> RecordOf(line).Some? && Fits(old(Abs()), RecordOf(line).value)
      ensures ok ==> Abs() == Apply(old(Abs()), RecordOf(line).value)
    {
      hide BytesAt, ByteAt, CharAt, Sum8, Add8, Fits, Apply, Rows;
      var h, checksum;
      ok, h, checksum := ReadHeader(line);
      if !ok { return; }
      ok, checksum := ReadData(line, h, checksum);
      if !ok { return; }
      var c := ByteAt(line, 9 + h[0] as int * 2);
      if c.None? { return false; }
      Complement(checksum, c.value);
      ok := c.value == !checksum + 1;
    }

    /** A whole file, line by line; the data of an earlier file stay where the new one has none. */
    method Load(lines: seq<string>) returns (ok: bool)
      requires Valid()
      modifies this, programData, securityData
      ensures Valid()
      ensures ok <==> Loaded(old(securityData[..]), old(programChecksum), lines).Some?
      ensures ok ==> Abs() == Loaded(old(securityData[..]), old(programChecksum), lines).value
      ensures ok ==> Rows(BLOCKS) == Overwritten(old(Rows(BLOCKS)), Abs().program)
    {
      hide RecordOf, Fits, Apply;
      blockCounter, fSecurityAddrAcquired, fChecksumAddrAcquired := 0, false, false;
      ghost var s0, c0 := securityData[..], programChecksum;
      for i := 0 to |lines|
        invariant Valid() && Loaded(s0, c0, lines[..i]) == Some(Abs())
        invariant forall k | blockCounter <= k < BLOCKS :: Row(k) == old(Row(k))
      {
        var accepted := HexDataProcess(lines[i]);
        assert lines[..i + 1][..i] == lines[..i];
        if !accepted {
          NotLoaded(s0, c0, lines, i + 1);
          return false;
        }
      }
      assert lines[..|lines|] == lines;
      ok := true;
    }
  }

  /** Once a line is refused the file is. */
  lemma NotLoaded(security: seq<Byte>, checksum: nat, lines: seq<string>, k: nat)
    requires k <= |lines| && Loaded(security, checksum, lines[..k]).None?
    ensures Loaded(security, checksum, lines).None?
  {
    if Loaded(security, checksum, lines).Some? { PrefixAccepted(security, checksum, lines, k); }
  }

  lemma FourBytes(line: string)
    requires ByteAt(line, 1).Some? && ByteAt(line, 3).Some? && ByteAt(line, 5).Some? && ByteAt(line, 7).Some?
    ensures BytesAt(line, 1, 4) ==
            Some([ByteAt(line, 1).value, ByteAt(line, 3).value, ByteAt(line, 5).value, ByteAt(line, 7).value])
  {
    hide ByteAt, BytesAt;
    NoBytes(line, 1);
    BytesSnoc(line, 1, 0);
    BytesSnoc(line, 1, 1);
    BytesSnoc(line, 1, 2);
    BytesSnoc(line, 1, 3);
    var a, b, c, d := ByteAt(line, 1).value, ByteAt(line, 3).value, ByteAt(line, 5).value, ByteAt(line, 7).value;
    assert [] + [a] + [b] + [c] + [d] == [a, b, c, d];
  }

  lemma SumOfFour(a: Byte, b: Byte, c: Byte, d: Byte)
    ensures Sum8([a, b, c, d]) == Add8(Add8(Add8(a, d), c), b)
  {
    hide Sum8, Add8;
    assert Sum8([]) == 0 by { NoSum(); }
    Sum8Snoc([], a);
    Sum8Snoc([a], b);
    Sum8Snoc([a, b], c);
    Sum8Snoc([a, b, c], d);
    assert [] + [a] == [a] && [a] + [b] == [a, b] && [a, b] + [c] == [a, b, c] && [a, b, c] + [d] == [a, b, c, d];
    PlusLaws(a, b, b);
    PlusLaws(Add8(a, b), c, d);
    PlusLaws(a, b, d);
    PlusLaws(Add8(a, d), b, c);
  }

  lemma NoSum()
    ensures Sum8([]) == 0
  {
  }

  lemma Complement(s: Byte, c: Byte)
    ensures c == !s + 1 <==> Add8(s, c) == 0
  {
  }

  lemma NoBytes(line: string, i: nat)
    ensures BytesAt(line, i, 0) == Some([])
  {
  }

  /** A missing byte is missed by every longer read. */
  lemma {:induction false} Missing(line: string, i: nat, k: nat, n: nat)
    requires k < n && ByteAt(line, i + 2 * k).None?
    ensures BytesAt(line, i, n).None?
    decreases n
  {
    if k < n - 1 { Missing(line, i, k, n - 1); }
  }
}
