/** The number formats of the partition tables: what printf writes and what strtoul reads. */
module Text {
  import opened Bytes

  const SPACE: byte := 0x20
  const NEWLINE: byte := 0x0a

  /** A string constant of the program as bytes. */
  function Ascii(s: string): (r: seq<byte>)
    requires forall i :: 0 <= i < |s| ==> s[i] < 128 as char
    ensures |r| == |s|
    ensures forall i :: 0 <= i < |s| ==> r[i] as int == s[i] as int
  {
    seq(|s|, i requires 0 <= i < |s| => s[i] as int as byte)
  }

  // ---------------------------------------------------------------- searching

  /** The first index from `lo` on that holds `c`, or the end of the buffer: memchr. */
  function IndexOf(buf: seq<byte>, c: byte, lo: nat): (i: nat)
    requires lo <= |buf|
    ensures lo <= i <= |buf|
    ensures i < |buf| ==> buf[i] == c
    ensures forall k :: lo <= k < i ==> buf[k] != c
    decreases |buf| - lo
  {
    if lo == |buf| || buf[lo] == c then lo else IndexOf(buf, c, lo + 1)
  }

  // ---------------------------------------------------------------- printing: 0x%05x

  function HexDigit(d: nat): byte
    requires d < 16
  {
    if d < 10 then 0x30 + d as byte else 0x57 + d as byte
  }

  /** `n` in hexadecimal with at least `width` digits. */
  function Hex(n: nat, width: nat): (s: seq<byte>)
    ensures |s| >= width && |s| >= 1
    decreases n, width
  {
    if n < 16 && width <= 1 then [HexDigit(n)]
    else Hex(n / 16, if width > 0 then width - 1 else 0) + [HexDigit(n % 16)]
  }

  lemma {:induction false} HexDigits(n: nat, width: nat)
    ensures forall c :: c in Hex(n, width) ==> IsHex(c)
    decreases n, width
  {
    if n < 16 && width <= 1 {
    } else {
      HexDigits(n / 16, if width > 0 then width - 1 else 0);
    }
  }

  function Hex05(n: nat): seq<byte>
  {
    [0x30, 0x78] + Hex(n, 5)
  }

  lemma Hex05IsOneWord(n: nat)
    ensures |Hex05(n)| >= 7
    ensures SPACE !in Hex05(n) && NEWLINE !in Hex05(n) && 0 !in Hex05(n)
  {
    hide Hex;
    HexDigits(n, 5);
  }

  // ---------------------------------------------------------------- reading: strtoul(ptr, NULL, 16)

  predicate IsHex(c: byte) { 0x30 <= c <= 0x39 || 0x41 <= c <= 0x46 || 0x61 <= c <= 0x66 }

  function HexValue(c: byte): (v: nat)
    requires IsHex(c)
    ensures v < 16
  {
    if c <= 0x39 then (c - 0x30) as nat else if c <= 0x46 then (c - 0x37) as nat else (c - 0x57) as nat
  }

  predicate IsSpace(c: byte) { c == 0x20 || 0x09 <= c <= 0x0d }

  function SkipSpace(buf: seq<byte>, p: nat): (q: nat)
    requires p <= |buf|
    ensures p <= q <= |buf|
    decreases |buf| - p
  {
    if p < |buf| && IsSpace(buf[p]) then SkipSpace(buf, p + 1) else p
  }

  /** The value of the digits from `p` on, after digits worth `acc`. */
  function ReadHex(buf: seq<byte>, p: nat, acc: nat): nat
    requires p <= |buf|
    decreases |buf| - p
  {
    if p < |buf| && IsHex(buf[p]) then ReadHex(buf, p + 1, acc * 16 + HexValue(buf[p])) else acc
  }

  /** Optional white space, sign and 0x; then digits, saturating at the largest unsigned long. */
  function Strtoul(buf: seq<byte>, p: nat): (v: nat)
    requires p <= |buf|
    ensures v < 0x1_0000_0000_0000_0000
  {
    var q := SkipSpace(buf, p);
    var signed := q < |buf| && (buf[q] == 0x2b || buf[q] == 0x2d);
    var negative := q < |buf| && buf[q] == 0x2d;
    var r := if signed then q + 1 else q;
    var prefixed := r + 2 < |buf| && buf[r] == 0x30 && (buf[r + 1] == 0x78 || buf[r + 1] == 0x58) && IsHex(buf[r + 2]);
    var v := ReadHex(buf, if prefixed then r + 2 else r, 0);
    if v > 0xffff_ffff_ffff_ffff then 0xffff_ffff_ffff_ffff
    else if negative && v != 0 then 0x1_0000_0000_0000_0000 - v
    else v
  }

  // ---------------------------------------------------------------- what is printed is read back

  lemma HexDigitValue(d: nat)
    requires d < 16
    ensures IsHex(HexDigit(d)) && HexValue(HexDigit(d)) == d
  {}

  lemma {:induction false} ReadHexOfHex(buf: seq<byte>, p: nat, n: nat, width: nat)
    requires p + |Hex(n, width)| <= |buf| && buf[p..p + |Hex(n, width)|] == Hex(n, width)
    ensures ReadHex(buf, p, 0) == ReadHex(buf, p + |Hex(n, width)|, n)
    decreases n, width
  {
    hide HexDigit, HexValue, IsHex;
    var s := Hex(n, width);
    var last := p + |s| - 1;
    assert buf[last] == s[|s| - 1];
    if n < 16 && width <= 1 {
      HexDigitValue(n);
    } else {
      var w := if width > 0 then width - 1 else 0;
      assert s[..|s| - 1] == Hex(n / 16, w);
      assert buf[p..last] == buf[p..p + |s|][..|s| - 1];
      ReadHexOfHex(buf, p, n / 16, w);
      HexDigitValue(n % 16);
      assert n == n / 16 * 16 + n % 16;
    }
  }

  /** A 32-bit number takes at most eight digits. */
  lemma HexLength(n: nat)
    requires n < 0x1_0000_0000
    ensures |Hex(n, 5)| <= 8
  {
    var a, b, c := n / 16, n / 256, n / 4096;
    var d, e, f, g := n / 0x10000, n / 0x100000, n / 0x1000000, n / 0x10000000;
    assert b == a / 16 && c == b / 16 && d == c / 16 && e == d / 16 && f == e / 16 && g == f / 16 && g < 16;
    HexGrows(g, 0);
    HexGrows(f, 0);
    HexGrows(e, 0);
    HexGrows(d, 1);
    HexGrows(c, 2);
    HexGrows(b, 3);
    HexGrows(a, 4);
    HexGrows(n, 5);
  }

  /** One digit more than the quotient, unless the number is a single digit wide enough. */
  lemma HexGrows(n: nat, width: nat)
    ensures |Hex(n, width)| == if n < 16 && width <= 1 then 1 else |Hex(n / 16, if width > 0 then width - 1 else 0)| + 1
  {}

  /** strtoul reads every number below 2^64 back from its printed form, provided no further digit follows. */
  lemma StrtoulOfHex05(buf: seq<byte>, p: nat, n: nat)
    requires n < 0x1_0000_0000_0000_0000
    requires p + |Hex05(n)| <= |buf| && buf[p..p + |Hex05(n)|] == Hex05(n)
    requires p + |Hex05(n)| < |buf| ==> !IsHex(buf[p + |Hex05(n)|])
    ensures Strtoul(buf, p) == n
  {
    hide Hex, ReadHex;
    var s := Hex05(n);
    HexDigits(n, 5);
    assert s[2..] == Hex(n, 5) && Hex(n, 5)[0] in Hex(n, 5);
    assert buf[p..p + |s|][0] == 0x30 && buf[p..p + |s|][1] == 0x78 && buf[p..p + |s|][2] == Hex(n, 5)[0];
    assert buf[p + 2..p + |s|] == buf[p..p + |s|][2..];
    ReadHexOfHex(buf, p + 2, n, 5);
    ReadHexStops(buf, p + |s|, n);
  }

  lemma ReadHexStops(buf: seq<byte>, p: nat, n: nat)
    requires p <= |buf| && (p < |buf| ==> !IsHex(buf[p]))
    ensures ReadHex(buf, p, n) == n
  {}

  // ---------------------------------------------------------------- scans stop at the zero byte

  lemma {:induction false} SkipSpaceInside(buf: seq<byte>, junk: seq<byte>, p: nat)
    requires p < |buf| && buf[|buf| - 1] == 0
    ensures SkipSpace(buf + junk, p) == SkipSpace(buf, p) < |buf|
    decreases |buf| - p
  {
    if !IsSpace(buf[p]) {
    } else {
      SkipSpaceInside(buf, junk, p + 1);
    }
  }

  lemma {:induction false} ReadHexInside(buf: seq<byte>, junk: seq<byte>, p: nat, acc: nat)
    requires p < |buf| && buf[|buf| - 1] == 0
    ensures ReadHex(buf + junk, p, acc) == ReadHex(buf, p, acc)
    decreases |buf| - p
  {
    if !IsHex(buf[p]) {
    } else {
      ReadHexInside(buf, junk, p + 1, acc * 16 + HexValue(buf[p]));
    }
  }

  /** With a zero byte at the end of the buffer, strtoul never depends on what lies behind it. */
  lemma StrtoulStaysInside(buf: seq<byte>, junk: seq<byte>, p: nat)
    requires p < |buf| && buf[|buf| - 1] == 0
    ensures Strtoul(buf + junk, p) == Strtoul(buf, p)
  {
    hide ReadHex, SkipSpace;
    SkipSpaceInside(buf, junk, p);
    var q := SkipSpace(buf, p);
    ReadHexInside(buf, junk, q, 0);
    if q + 1 < |buf| { ReadHexInside(buf, junk, q + 1, 0); }
    if q + 2 < |buf| { ReadHexInside(buf, junk, q + 2, 0); }
    if q + 3 < |buf| { ReadHexInside(buf, junk, q + 3, 0); }
  }
}
