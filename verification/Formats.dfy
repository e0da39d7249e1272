/** The formats the tool reads and writes, with their bytes written out. */
module Formats {
  import opened Bytes
  import opened Results
  import opened Text
  import opened PartitionTable
  import opened TableReader
  import opened Factory
  import opened Convert
  import opened Firmware
  import Rfc = Md5Rfc
  import Unsigned

  // ---------------------------------------------------------------- numbers: 0x%05x

  /** 0123456789abcdef */
  const DIGITS: seq<byte> := [0x30, 0x31, 0x32, 0x33, 0x34, 0x35, 0x36, 0x37,
                              0x38, 0x39, 0x61, 0x62, 0x63, 0x64, 0x65, 0x66]

  function Pow16(j: nat): (p: nat)
    ensures p > 0
  {
    if j == 0 then 1 else 16 * Pow16(j - 1)
  }

  lemma DigitIs(d: nat)
    requires d < 16
    ensures HexDigit(d) == DIGITS[d]
  {}

  /** Capitals are read as well. */
  lemma DigitIsRead(d: nat)
    requires d < 16
    ensures HexValue(DIGITS[d]) == d
    ensures d >= 10 ==> IsHex(DIGITS[d] - 0x20) && HexValue(DIGITS[d] - 0x20) == d
  {}

  lemma Shorter(n: nat, j: nat)
    ensures n / 16 / Pow16(j) == n / Pow16(j + 1)
  {
    var p := Pow16(j);
    var m, q, r := n / 16, n / 16 / p, n / 16 % p;
    assert n == 16 * (q * p + r) + n % 16;
    assert n == q * (16 * p) + (16 * r + n % 16);
    Unsigned.Quotient(n, 16 * p, q, 16 * r + n % 16);
  }

  /** Digit `j` from the right is the one of that place. */
  lemma {:induction false} HexPlace(n: nat, width: nat, j: nat)
    requires j < |Hex(n, width)|
    ensures Hex(n, width)[|Hex(n, width)| - 1 - j] == DIGITS[n / Pow16(j) % 16]
    decreases n, width
  {
    hide HexDigit, Pow16;
    DigitIs(n % 16);
    FirstPowers();
    if j == 0 {
      assert n / 1 == n;
    } else {
      var front := Hex(n / 16, if width > 0 then width - 1 else 0);
      HexPlace(n / 16, if width > 0 then width - 1 else 0, j - 1);
      assert Hex(n, width)[|Hex(n, width)| - 1 - j] == front[|front| - 1 - (j - 1)];
      Shorter(n, j - 1);
    }
  }

  /** The places suffice. */
  lemma {:induction false} HexBound(n: nat, width: nat)
    ensures n < Pow16(|Hex(n, width)|)
    decreases n, width
  {
    hide Pow16;
    FirstPowers();
    if n < 16 && width <= 1 {
    } else {
      var w := if width > 0 then width - 1 else 0;
      HexBound(n / 16, w);
      OneMorePlace(n, |Hex(n / 16, w)|);
    }
  }

  lemma FirstPowers() ensures Pow16(0) == 1 && Pow16(1) == 16 {}

  lemma OneMorePlace(n: nat, k: nat)
    requires n / 16 < Pow16(k)
    ensures n < Pow16(k + 1)
  {}

  /** No zero in front of the digits that are needed. */
  lemma {:induction false} NoLeadingZero(n: nat, width: nat)
    requires |Hex(n, width)| > width && |Hex(n, width)| > 1
    ensures Hex(n, width)[0] != 0x30
    decreases n, width
  {
    var w := if width > 0 then width - 1 else 0;
    if n / 16 < 16 && w <= 1 {
    } else {
      NoLeadingZero(n / 16, w);
    }
  }

  /** A printed number: 0x and at least five digits, each the one of its place, with no zero in front of more. */
  lemma PrintedNumber(n: nat)
    ensures var s := Hex05(n);
            |s| >= 7 && s[..2] == [0x30, 0x78] && Printed(n, s[2..])
  {
    hide Hex;
    assert Hex05(n)[2..] == Hex(n, 5);
    HexBound(n, 5);
    forall j | 0 <= j < |Hex(n, 5)|
      ensures Hex(n, 5)[|Hex(n, 5)| - 1 - j] == DIGITS[n / Pow16(j) % 16]
    {
      HexPlace(n, 5, j);
    }
    if |Hex(n, 5)| > 5 {
      NoLeadingZero(n, 5);
    }
  }

  ghost predicate Printed(n: nat, d: seq<byte>)
  {
    && |d| >= 5 && (|d| > 5 ==> d[0] != 0x30) && n < Pow16(|d|)
    && forall j :: 0 <= j < |d| ==> d[|d| - 1 - j] == DIGITS[n / Pow16(j) % 16]
  }

  // ---------------------------------------------------------------- lines

  /** "fwup-ptn NAME base 0x%05x size 0x%05x\t\r\n" */
  lemma ImageLine(e: FlashEntry)
    ensures Line(Fwup, e) == [0x66, 0x77, 0x75, 0x70, 0x2d, 0x70, 0x74, 0x6e, 0x20] + e.name
                             + [0x20, 0x62, 0x61, 0x73, 0x65, 0x20] + Hex05(e.base)
                             + [0x20, 0x73, 0x69, 0x7a, 0x65, 0x20] + Hex05(e.size) + [0x09, 0x0d, 0x0a]
  {
    hide Hex05;
    LineIs(Fwup, e);
    assert Ascii("base") == [0x62, 0x61, 0x73, 0x65] && Ascii("size") == [0x73, 0x69, 0x7a, 0x65];
    assert Header(Fwup) == [0x66, 0x77, 0x75, 0x70, 0x2d, 0x70, 0x74, 0x6e];
  }

  /** "partition NAME base 0x%05x size 0x%05x\n" */
  lemma LayoutLine(e: FlashEntry)
    ensures Line(Flash, e) == [0x70, 0x61, 0x72, 0x74, 0x69, 0x74, 0x69, 0x6f, 0x6e, 0x20] + e.name
                              + [0x20, 0x62, 0x61, 0x73, 0x65, 0x20] + Hex05(e.base)
                              + [0x20, 0x73, 0x69, 0x7a, 0x65, 0x20] + Hex05(e.size) + [0x0a]
  {
    hide Hex05;
    LineIs(Flash, e);
    assert Ascii("base") == [0x62, 0x61, 0x73, 0x65] && Ascii("size") == [0x73, 0x69, 0x7a, 0x65];
    assert Header(Flash) == [0x70, 0x61, 0x72, 0x74, 0x69, 0x74, 0x69, 0x6f, 0x6e];
  }

  // ---------------------------------------------------------------- where tables start

  lemma HeaderIs()
    ensures Header(Fwup) == [0x66, 0x77, 0x75, 0x70, 0x2d, 0x70, 0x74, 0x6e]
    ensures Header(Flash) == [0x70, 0x61, 0x72, 0x74, 0x69, 0x74, 0x69, 0x6f, 0x6e]
  {}

  /** The table of an image is refused unless it starts with "fwup-ptn", that of a layout unless with "partition". */
  lemma TableHeader(buf: seq<byte>, slots: seq<Slot>)
    requires |buf| == 2048
    ensures ReadTable(buf, Fwup, slots) == Err(NoHeader)
        <==> buf[..8] != [0x66, 0x77, 0x75, 0x70, 0x2d, 0x70, 0x74, 0x6e]
    ensures ReadTable(buf, Flash, slots) == Err(NoHeader)
            <==> buf[..9] != [0x70, 0x61, 0x72, 0x74, 0x69, 0x74, 0x69, 0x6f, 0x6e]
  {
    hide Header, ParseFrom;
    HeaderIs();
    LaterFailures(buf, Fwup, 0, slots);
    LaterFailures(buf, Flash, 0, slots);
  }

  /** Behind its header word a table fails by a bad line or by too many. */
  lemma {:induction false} LaterFailures(buf: seq<byte>, kind: Kind, p: nat, slots: seq<Slot>)
    requires p <= |buf|
    ensures ParseFrom(buf, kind, p, slots) in {Err(BadLine), Err(TableFull)} || ParseFrom(buf, kind, p, slots).Ok?
    decreases |buf| - p
  {
    hide ParseLine, Insert, HasHeader;
    var e := IndexOf(buf, NEWLINE, p);
    if e < |buf| && ParseLine(buf, p, e).Entry? && Insert(slots, ParseLine(buf, p, e).entry).Some? {
      LaterFailures(buf, kind, e + 1, Insert(slots, ParseLine(buf, p, e).entry).value);
    }
  }

  /** The table of a factory image of any parts starts with "fwup-ptn ". */
  lemma ImageTableStarts(board: Board, parts: seq<Part>)
    requires VendorInside(board, parts) && Check(board.flash, parts, 0x800, 0x800) == None && parts != []
    ensures FactoryImage(board, parts).Ok?
    ensures FactoryImage(board, parts).value[0x1014..0x101d] == [0x66, 0x77, 0x75, 0x70, 0x2d, 0x70, 0x74, 0x6e, 0x20]
  {
    hide FactoryImage, Rfc.Digest, BigEndian, VendorBlock, TableBlock, Check, Line;
    FactoryImageIsPacked(board, parts);
    var image, es := FactoryImage(board, parts).value, Entries(parts, 0x800);
    ImageLine(es[0]);
    var t := Terminated(ImageTable(parts));
    assert t[..9] == Line(Fwup, es[0])[..9];
    SubSlice(image, 0x1014, t, 0, 9);
  }

  /** The partition-table part: four bytes, the lines, a zero, and 0xff; the lines start with "partition ". */
  lemma LayoutBytes(flash: seq<FlashEntry>)
    requires |TableText(Flash, flash)| < 2044
    ensures var d, n := LayoutData(flash), |TableText(Flash, flash)|;
            && |d| == 2048 && d[..4] == [0x00, 0x04, 0x00, 0x00] && d[4..4 + n] == TableText(Flash, flash)
            && d[4 + n] == 0 && (forall k :: 5 + n <= k < 2048 ==> d[k] == 0xff)
            && (flash != [] ==> d[4..14] == [0x70, 0x61, 0x72, 0x74, 0x69, 0x74, 0x69, 0x6f, 0x6e, 0x20])
  {
    hide TableText;
    var d, text := LayoutData(flash), TableText(Flash, flash);
    assert d[4..4 + |text|] == text;
    if flash != [] {
      LayoutStarts(flash);
      SubSlice(d, 4, text, 0, 10);
    }
  }

  lemma LayoutStarts(flash: seq<FlashEntry>)
    requires flash != []
    ensures |TableText(Flash, flash)| >= 10
    ensures TableText(Flash, flash)[..10] == [0x70, 0x61, 0x72, 0x74, 0x69, 0x74, 0x69, 0x6f, 0x6e, 0x20]
  {
    hide Line;
    LayoutLine(flash[0]);
    assert TableText(Flash, flash)[..10] == Line(Flash, flash[0])[..10];
  }

  /** The checksum of a factory image covers these sixteen bytes of salt and what is hashed of the image. */
  lemma Salted(board: Board, parts: seq<Part>)
    requires VendorInside(board, parts) && Check(board.flash, parts, 0x800, 0x800) == None
    ensures var image := FactoryImage(board, parts);
            && image.Ok?
            && image.value[4..0x14] == Rfc.Digest([0x7a, 0x2b, 0x15, 0xed, 0x9b, 0x98, 0x59, 0x6d,
                                                   0xe5, 0x04, 0xab, 0x44, 0xac, 0x2a, 0x9f, 0x4e]
                                                  + Hashed(image.value[0x14..]))
  {
    hide FactoryImage, Rfc.Digest, BigEndian, VendorBlock, TableBlock, Check, Hashed, ImageTable, AllData;
    FactoryImageIsPacked(board, parts);
  }

  /** "os-image", "file-system" and "partition-table" are looked up. */
  lemma NamesLookedUp()
    ensures OsImage() == [0x6f, 0x73, 0x2d, 0x69, 0x6d, 0x61, 0x67, 0x65]
    ensures FileSystem() == [0x66, 0x69, 0x6c, 0x65, 0x2d, 0x73, 0x79, 0x73, 0x74, 0x65, 0x6d]
    ensures LayoutName() == [0x70, 0x61, 0x72, 0x74, 0x69, 0x74, 0x69, 0x6f, 0x6e, 0x2d, 0x74, 0x61, 0x62, 0x6c, 0x65]
  {}

  // ---------------------------------------------------------------- lines that are not of the tool's making

  ghost predicate Fields(fields: seq<seq<byte>>) { fields != [] && forall f: seq<byte> :: f in fields ==> 0x20 !in f }

  /** Where field `k` of a line starts. */
  function StartOf(fields: seq<seq<byte>>, k: nat): (start: nat)
    requires k < |fields|
    ensures start + |fields[k]| <= |Spaced(fields)|
  {
    if k == 0 then 0 else |fields[0]| + 1 + StartOf(fields[1..], k - 1)
  }

  /** There is a space between any two fields, and no other. */
  lemma {:induction false} SpacesCount(buf: seq<byte>, p: nat, fields: seq<seq<byte>>)
    requires Fields(fields) && p + |Spaced(fields)| <= |buf| && buf[p..p + |Spaced(fields)|] == Spaced(fields)
    ensures |Spaces(buf, p, p + |Spaced(fields)|)| == |fields| - 1
    decreases |fields|
  {
    hide Spaces;
    assert fields[0] in fields;
    if |fields| == 1 {
      SpacesSkip(buf, p, p + |Spaced(fields)|, p + |Spaced(fields)|);
      NoSpaces(buf, p + |Spaced(fields)|);
    } else {
      Hop(buf, p, fields[0], Spaced(fields[1..]));
      assert Fields(fields[1..]);
      SpacesCount(buf, p + |fields[0]| + 1, fields[1..]);
    }
  }

  /** The space in front of field `k`, and the field behind it. */
  lemma {:induction false} FieldAt(buf: seq<byte>, p: nat, fields: seq<seq<byte>>, k: nat)
    requires Fields(fields) && p + |Spaced(fields)| <= |buf| && buf[p..p + |Spaced(fields)|] == Spaced(fields)
    requires 0 < k < |fields| == |Spaces(buf, p, p + |Spaced(fields)|)| + 1
    ensures Spaces(buf, p, p + |Spaced(fields)|)[k - 1] + 1 == p + StartOf(fields, k)
    ensures buf[p + StartOf(fields, k)..p + StartOf(fields, k) + |fields[k]|] == fields[k]
    decreases |fields|
  {
    hide Spaces;
    assert fields[0] in fields;
    var rest, next := fields[1..], p + |fields[0]| + 1;
    Hop(buf, p, fields[0], Spaced(rest));
    assert Fields(rest);
    if k == 1 {
      FirstField(buf, next, rest);
    } else {
      FieldAt(buf, next, rest, k - 1);
    }
  }

  lemma FirstField(buf: seq<byte>, p: nat, fields: seq<seq<byte>>)
    requires fields != [] && p + |Spaced(fields)| <= |buf| && buf[p..p + |Spaced(fields)|] == Spaced(fields)
    ensures StartOf(fields, 0) == 0 && buf[p..p + |fields[0]|] == fields[0]
  {
    SubSlice(buf, p, Spaced(fields), 0, |fields[0]|);
  }

  lemma NoSpaces(buf: seq<byte>, e: nat)
    requires e <= |buf|
    ensures Spaces(buf, e, e) == []
  {}

  /**
   * A line of any fields with a space between any two. With six or more the second is the name, cut to 31 bytes and to
   * a C string, and numbers are read where the fourth and the sixth start. With fewer, the table ends here without an
   * error if the last one, not the only one, is empty; all others are errors.
   */
  lemma LineOfFields(buf: seq<byte>, p: nat, fields: seq<seq<byte>>)
    requires Fields(fields) && p + |Spaced(fields)| <= |buf| && buf[p..p + |Spaced(fields)|] == Spaced(fields)
    ensures ParseLine(buf, p, p + |Spaced(fields)|)
         == if |fields| >= 6 then
              Entry(FlashEntry(UpToNul(if |fields[1]| > 31 then fields[1][..31] else fields[1]),
                               Strtoul(buf, p + StartOf(fields, 3)) % 0x1_0000_0000,
                               Strtoul(buf, p + StartOf(fields, 5)) % 0x1_0000_0000))
            else if |fields| > 1 && fields[|fields| - 1] == [] then Cut else Bad
  {
    hide ParseLine, UpToNul, Strtoul, StartOf, Fields, Spaced;
    if |fields| >= 6 {
      LongLine(buf, p, fields);
    } else {
      ShortLine(buf, p, fields);
    }
  }

  lemma LongLine(buf: seq<byte>, p: nat, fields: seq<seq<byte>>)
    requires Fields(fields) && p + |Spaced(fields)| <= |buf| && buf[p..p + |Spaced(fields)|] == Spaced(fields)
    requires |fields| >= 6
    ensures ParseLine(buf, p, p + |Spaced(fields)|)
         == Entry(FlashEntry(UpToNul(Clip(fields[1])), Strtoul(buf, p + StartOf(fields, 3)) % 0x1_0000_0000,
                             Strtoul(buf, p + StartOf(fields, 5)) % 0x1_0000_0000))
  {
    hide ParseLine, Spaces, Spaced, UpToNul, Strtoul, StartOf, Fields, Clip;
    SpacesCount(buf, p, fields);
    var e := p + |Spaced(fields)|;
    var sp := Spaces(buf, p, e);
    FieldAt(buf, p, fields, 1);
    FieldAt(buf, p, fields, 2);
    FieldAt(buf, p, fields, 3);
    FieldAt(buf, p, fields, 5);
    SecondField(fields);
    assert sp[1] == p + StartOf(fields, 1) + |fields[1]|;
    LineIsEntry(buf, p, e, UpToNul(Clip(fields[1])), Strtoul(buf, sp[2] + 1), Strtoul(buf, sp[4] + 1));
  }

  lemma ShortLine(buf: seq<byte>, p: nat, fields: seq<seq<byte>>)
    requires Fields(fields) && p + |Spaced(fields)| <= |buf| && buf[p..p + |Spaced(fields)|] == Spaced(fields)
    requires |fields| < 6
    ensures ParseLine(buf, p, p + |Spaced(fields)|)
         == if |fields| > 1 && fields[|fields| - 1] == [] then Cut else Bad
  {
    hide Spaces, Spaced, UpToNul, Strtoul, StartOf, Fields, Clip;
    SpacesCount(buf, p, fields);
    LastField(fields);
    if |fields| > 1 {
      FieldAt(buf, p, fields, |fields| - 1);
    }
  }

  lemma SecondField(fields: seq<seq<byte>>)
    requires |fields| >= 3
    ensures StartOf(fields, 2) == StartOf(fields, 1) + |fields[1]| + 1
  {
    var rest := fields[1..];
    assert StartOf(fields, 2) == |fields[0]| + 1 + StartOf(rest, 1) && StartOf(rest, 1) == |rest[0]| + 1;
  }

  lemma {:induction false} LastField(fields: seq<seq<byte>>)
    requires fields != []
    ensures StartOf(fields, |fields| - 1) + |fields[|fields| - 1]| == |Spaced(fields)|
  {
    if |fields| > 1 {
      LastField(fields[1..]);
    }
  }

  /** A table whose last line has no newline ends in front of that line. */
  lemma UnfinishedLine(buf: seq<byte>, kind: Kind, p: nat, slots: seq<Slot>)
    requires p <= |buf| && forall k :: p <= k < |buf| ==> buf[k] != 0x0a
    ensures ParseFrom(buf, kind, p, slots) == Ok(slots)
  {}

  /**
   * A line of fewer than six fields, whose first starts with the header word, ends the table: with the entries in front
   * of it if its last field is empty, and otherwise with an error.
   */
  lemma BrokenLine(buf: seq<byte>, kind: Kind, p: nat, fields: seq<seq<byte>>, slots: seq<Slot>)
    requires Fields(fields) && |fields| < 6 && Header(kind) <= fields[0]
    requires p + |Spaced(fields)| < |buf| && buf[p..p + |Spaced(fields)|] == Spaced(fields)
    requires 0x0a !in Spaced(fields) && buf[p + |Spaced(fields)|] == 0x0a
    ensures ParseFrom(buf, kind, p, slots)
         == if |fields| > 1 && fields[|fields| - 1] == [] then Ok(slots) else Err(BadLine)
  {
    hide Spaced, ParseLine, IndexOf, Header;
    var e, hdr := p + |Spaced(fields)|, Header(kind);
    FirstInLine(fields);
    SubSlice(buf, p, Spaced(fields), 0, |hdr|);
    assert Spaced(fields)[..|hdr|] == fields[0][..|hdr|] == hdr;
    assert forall k :: p <= k < e ==> buf[k] == Spaced(fields)[k - p];
    assert IndexOf(buf, NEWLINE, p) == e;
    ShortLine(buf, p, fields);
  }

  lemma FirstInLine(fields: seq<seq<byte>>)
    requires fields != []
    ensures fields[0] <= Spaced(fields)
  {}

  // ---------------------------------------------------------------- other numbers strtoul reads

  /**
   * Blanks, a sign and 0x may stand in front of the digits; too large a number is the largest, a negative one wraps.
   */
  lemma OtherNumbers(buf: seq<byte>, p: nat, blanks: seq<byte>, sign: seq<byte>, prefix: seq<byte>, n: nat, width: nat)
    requires forall b :: b in blanks ==> b == 0x20 || 0x09 <= b <= 0x0d
    requires sign in [[], [0x2b], [0x2d]] && prefix in [[], [0x30, 0x78], [0x30, 0x58]]
    requires var s := blanks + sign + prefix + Hex(n, width);
             && p + |s| <= |buf| && buf[p..p + |s|] == s
             && (p + |s| < |buf| ==> !IsHex(buf[p + |s|]) && buf[p + |s|] != 0x78 && buf[p + |s|] != 0x58)
    ensures Strtoul(buf, p)
         == if n > 0xffff_ffff_ffff_ffff then 0xffff_ffff_ffff_ffff
            else if sign == [0x2d] && n != 0 then 0x1_0000_0000_0000_0000 - n else n
  {
    hide Hex, ReadHex, SkipSpace, IsHex, Strtoul;
    var digits := Hex(n, width);
    var s := blanks + sign + prefix + digits;
    var q := p + |blanks|;
    var r := q + |sign|;
    var t, e := r + |prefix|, p + |s|;
    Pieces(buf, p, blanks, sign, prefix, digits);
    HexDigits(n, width);
    DigitsAt(buf, t, digits);
    OnlyBlanks(buf, p, blanks);
    NumberStarts(buf, q, sign, prefix, t);
    BlanksSkipped(buf, p, |blanks|);
    ReadHexOfHex(buf, t, n, width);
    ReadHexStops(buf, e, n);
    NumberRead(buf, p, q, sign, prefix, n);
  }

  lemma Pieces(buf: seq<byte>, p: nat, w: seq<byte>, x: seq<byte>, y: seq<byte>, z: seq<byte>)
    requires p + |w + x + y + z| <= |buf| && buf[p..p + |w + x + y + z|] == w + x + y + z
    ensures var q := p + |w|;
            var r := q + |x|;
            var t := r + |y|;
            buf[p..q] == w && buf[q..r] == x && buf[r..t] == y && buf[t..t + |z|] == z
  {
    Parts(buf, p, w + x + y, z);
    Parts(buf, p, w + x, y);
    Parts(buf, p, w, x);
  }

  lemma OnlyBlanks(buf: seq<byte>, p: nat, blanks: seq<byte>)
    requires p + |blanks| <= |buf| && buf[p..p + |blanks|] == blanks
    requires forall b :: b in blanks ==> b == 0x20 || 0x09 <= b <= 0x0d
    ensures forall k :: p <= k < p + |blanks| ==> IsSpace(buf[k])
  {
    assert forall k :: p <= k < p + |blanks| ==> buf[k] == blanks[k - p] && blanks[k - p] in blanks;
  }

  /** Digits, and what is behind a single one. */
  lemma DigitsAt(buf: seq<byte>, t: nat, digits: seq<byte>)
    requires digits != [] && t + |digits| <= |buf| && buf[t..t + |digits|] == digits
    requires forall c :: c in digits ==> IsHex(c)
    requires t + |digits| < |buf| ==> buf[t + |digits|] != 0x78 && buf[t + |digits|] != 0x58
    ensures IsHex(buf[t]) && (t + 1 < |buf| ==> buf[t + 1] != 0x78 && buf[t + 1] != 0x58)
  {
    assert digits[0] in digits && buf[t] == digits[0];
    if |digits| > 1 {
      assert digits[1] in digits && buf[t + 1] == digits[1];
    }
  }

  /** What stands in front of the digits. */
  ghost predicate NumberAt(buf: seq<byte>, q: nat, sign: seq<byte>, prefix: seq<byte>)
  {
    var r := q + |sign|;
    && (sign == [] || sign == [0x2b] || sign == [0x2d]) && r + |prefix| < |buf|
    && (if sign == [] then buf[q] != 0x2b && buf[q] != 0x2d else buf[q] == sign[0])
    && (if prefix == [] then !(r + 2 < |buf| && (buf[r + 1] == 0x78 || buf[r + 1] == 0x58))
        else |prefix| == 2 && buf[r] == 0x30 && (buf[r + 1] == 0x78 || buf[r + 1] == 0x58) && IsHex(buf[r + 2]))
  }

  lemma NumberStarts(buf: seq<byte>, q: nat, sign: seq<byte>, prefix: seq<byte>, t: nat)
    requires sign in [[], [0x2b], [0x2d]] && prefix in [[], [0x30, 0x78], [0x30, 0x58]]
    requires t == q + |sign| + |prefix| < |buf| && buf[q..q + |sign|] == sign && buf[q + |sign|..t] == prefix
    requires IsHex(buf[t]) && (t + 1 < |buf| ==> buf[t + 1] != 0x78 && buf[t + 1] != 0x58)
    ensures NumberAt(buf, q, sign, prefix) && !IsSpace(buf[q])
  {
    var r := q + |sign|;
    if sign != [] {
      assert buf[q] == buf[q..r][0];
    }
    if prefix != [] {
      assert buf[r] == buf[r..t][0] && buf[r + 1] == buf[r..t][1];
    }
  }

  lemma NumberRead(buf: seq<byte>, p: nat, q: nat, sign: seq<byte>, prefix: seq<byte>, n: nat)
    requires p <= |buf| && SkipSpace(buf, p) == q && NumberAt(buf, q, sign, prefix)
    requires ReadHex(buf, q + |sign| + |prefix|, 0) == n
    ensures Strtoul(buf, p)
         == if n > 0xffff_ffff_ffff_ffff then 0xffff_ffff_ffff_ffff
            else if sign == [0x2d] && n != 0 then 0x1_0000_0000_0000_0000 - n else n
  {
    hide ReadHex, SkipSpace, IsHex;
  }

  lemma {:induction false} BlanksSkipped(buf: seq<byte>, p: nat, n: nat)
    requires p + n < |buf| && !IsSpace(buf[p + n]) && forall k :: p <= k < p + n ==> IsSpace(buf[k])
    ensures SkipSpace(buf, p) == p + n
    decreases n
  {
    if n == 0 {
    } else {
      BlanksSkipped(buf, p + 1, n - 1);
    }
  }
}
