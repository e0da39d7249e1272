/** Three strings of the test suite in section A.5 of RFC 1321, with their digests as literal bytes. */
module Md5Suite {
  import opened Bytes
  import opened Md5Rfc
  import opened Md5Context
  import opened Md5Stream
  import opened Md5Digits
  import opened Md5Trace

  // ---------------------------------------------------------------- from bytes to digests

  /** The digit at index `k` of the 80. */
  function DigitAt(k: nat): byte { 0x30 + ((k + 1) % 10) as byte }

  /** Four digits in a row as a word: they repeat after five words. */
  function FourDigitsAt(m: nat): bv32
  {
    match m % 10
    case 0 => 0x34333231 case 4 => 0x38373635 case 8 => 0x32313039 case 2 => 0x36353433 case _ => 0x30393837
  }

  lemma DigitWord(p: seq<byte>, n: nat, m: nat)
    requires |p| == 64 && n < 16 && m % 2 == 0
    requires p[4 * n] == DigitAt(m) && p[4 * n + 1] == DigitAt(m + 1)
    requires p[4 * n + 2] == DigitAt(m + 2) && p[4 * n + 3] == DigitAt(m + 3)
    ensures Words(p)[n] == Word(FourDigitsAt(m))
  {
    hide WordOf, Words, DigitAt;
    FiveNumbers();
    var r := m % 10;
    SameDigit(m, 0);
    SameDigit(m, 1);
    SameDigit(m, 2);
    SameDigit(m, 3);
    TenDigits();
    if r == 0 {
      WordIs(p, n, 0x34333231);
    } else if r == 4 {
      WordIs(p, n, 0x38373635);
    } else if r == 8 {
      WordIs(p, n, 0x32313039);
    } else if r == 2 {
      WordIs(p, n, 0x36353433);
    } else {
      WordIs(p, n, 0x30393837);
    }
  }

  lemma SameDigit(m: nat, j: nat)
    ensures DigitAt(m + j) == DigitAt(m % 10 + j)
  {
    assert m + j + 1 == 10 * (m / 10) + (m % 10 + j + 1);
    ModTen(m / 10, m % 10 + j + 1);
  }

  lemma ModTen(q: nat, y: nat)
    ensures (10 * q + y) % 10 == y % 10
  {}

  lemma TenDigits()
    ensures DigitAt(0) == 0x31 && DigitAt(1) == 0x32 && DigitAt(2) == 0x33 && DigitAt(3) == 0x34 && DigitAt(4) == 0x35
    ensures DigitAt(5) == 0x36 && DigitAt(6) == 0x37 && DigitAt(7) == 0x38 && DigitAt(8) == 0x39 && DigitAt(9) == 0x30
    ensures DigitAt(10) == 0x31 && DigitAt(11) == 0x32
  {}

  lemma FiveNumbers()
    ensures WordOf(0x34333231) == Word(0x34333231) && WordOf(0x38373635) == Word(0x38373635)
    ensures WordOf(0x32313039) == Word(0x32313039) && WordOf(0x36353433) == Word(0x36353433)
    ensures WordOf(0x30393837) == Word(0x30393837)
  {
    hide WordOf;
    Hex8(3, 4, 3, 3, 3, 2, 3, 1);
    Hex8(3, 8, 3, 7, 3, 6, 3, 5);
    Hex8(3, 2, 3, 1, 3, 0, 3, 9);
    Hex8(3, 6, 3, 5, 3, 4, 3, 3);
    Hex8(3, 0, 3, 9, 3, 8, 3, 7);
  }

  lemma ZeroWord() ensures WordOf(0) == Word(0) {}

  lemma WordIs(p: seq<byte>, n: nat, v: nat)
    requires |p| == 64 && n < 16
    requires v == p[4 * n] as nat + 0x100 * p[4 * n + 1] as nat + 0x10000 * p[4 * n + 2] as nat
                  + 0x1000000 * p[4 * n + 3] as nat
    ensures Words(p)[n] == WordOf(v)
  {
    hide WordOf;
  }

  lemma EmptyHolds(p: seq<byte>)
    requires |p| == 64 && p[0] == 0x80 && forall k :: 1 <= k < 64 ==> p[k] == 0
    ensures Holds(Words(p), EmptyWords)
  {
    hide WordOf, Words;
    EmptyWordsLow(p);
    EmptyWordsHigh(p);
    var x := Words(p);
    forall k | 0 <= k < 16
      ensures x[k] == Word(EmptyWords[k])
    {
      match k {
        case 0 => case 1 => case 2 => case 3 => case 4 => case 5 => case 6 => case 7 => case 8 => case 9 => case 10 =>
        case 11 => case 12 => case 13 => case 14 => case 15 =>
      }
    }
  }

  lemma EmptyWordsLow(p: seq<byte>)
    requires |p| == 64 && p[0] == 0x80 && forall k :: 1 <= k < 64 ==> p[k] == 0
    ensures Words(p)[0] == Word(0x80) && Words(p)[1] == Word(0x0)
    ensures Words(p)[2] == Word(0x0) && Words(p)[3] == Word(0x0)
    ensures Words(p)[4] == Word(0x0) && Words(p)[5] == Word(0x0)
    ensures Words(p)[6] == Word(0x0) && Words(p)[7] == Word(0x0)
  {
    hide WordOf, Words;
    ZeroWord();
    Hex8(0, 0, 0, 0, 0, 0, 8, 0);
    WordIs(p, 0, 0x80);
    WordIs(p, 1, 0x0);
    WordIs(p, 2, 0x0);
    WordIs(p, 3, 0x0);
    WordIs(p, 4, 0x0);
    WordIs(p, 5, 0x0);
    WordIs(p, 6, 0x0);
    WordIs(p, 7, 0x0);
  }

  lemma EmptyWordsHigh(p: seq<byte>)
    requires |p| == 64 && p[0] == 0x80 && forall k :: 1 <= k < 64 ==> p[k] == 0
    ensures Words(p)[8] == Word(0x0) && Words(p)[9] == Word(0x0)
    ensures Words(p)[10] == Word(0x0) && Words(p)[11] == Word(0x0)
    ensures Words(p)[12] == Word(0x0) && Words(p)[13] == Word(0x0)
    ensures Words(p)[14] == Word(0x0) && Words(p)[15] == Word(0x0)
  {
    hide WordOf, Words;
    ZeroWord();
    WordIs(p, 8, 0x0);
    WordIs(p, 9, 0x0);
    WordIs(p, 10, 0x0);
    WordIs(p, 11, 0x0);
    WordIs(p, 12, 0x0);
    WordIs(p, 13, 0x0);
    WordIs(p, 14, 0x0);
    WordIs(p, 15, 0x0);
  }

  lemma EmptyCompressed(p: seq<byte>)
    requires |p| == 64 && p[0] == 0x80 && forall k :: 1 <= k < 64 ==> p[k] == 0
    ensures Compress(R(0x67452301, 0xefcdab89, 0x98badcfe, 0x10325476), p)
         == R(0xd98c1dd4, 0x04b2008f, 0x980980e9, 0x7e42f8ec)
  {
    hide WordOf, Ops, Holds, Words;
    EmptyHolds(p);
    var r := R(0x67452301, 0xefcdab89, 0x98badcfe, 0x10325476);
    NoOps(r, Words(p));
    EmptyPart1(Words(p), r);
    EmptyPart2(Words(p), r);
    EmptyPart3(Words(p), r);
    EmptyPart4(Words(p), r);
    EmptyPart5(Words(p), r);
    EmptyPart6(Words(p), r);
    EmptyPart7(Words(p), r);
    EmptyPart8(Words(p), r);
  }

  lemma AbcHolds(p: seq<byte>)
    requires |p| == 64 && p[0] == 0x61 && p[1] == 0x62 && p[2] == 0x63 && p[3] == 0x80 && p[56] == 24
    requires forall k :: 4 <= k < 64 && k != 56 ==> p[k] == 0
    ensures Holds(Words(p), AbcWords)
  {
    hide WordOf, Words;
    AbcWordsLow(p);
    AbcWordsHigh(p);
    var x := Words(p);
    forall k | 0 <= k < 16
      ensures x[k] == Word(AbcWords[k])
    {
      match k {
        case 0 => case 1 => case 2 => case 3 => case 4 => case 5 => case 6 => case 7 => case 8 => case 9 => case 10 =>
        case 11 => case 12 => case 13 => case 14 => case 15 =>
      }
    }
  }

  lemma AbcWordsLow(p: seq<byte>)
    requires |p| == 64 && p[0] == 0x61 && p[1] == 0x62 && p[2] == 0x63 && p[3] == 0x80 && p[56] == 24
    requires forall k :: 4 <= k < 64 && k != 56 ==> p[k] == 0
    ensures Words(p)[0] == Word(0x80636261) && Words(p)[1] == Word(0x0)
    ensures Words(p)[2] == Word(0x0) && Words(p)[3] == Word(0x0)
    ensures Words(p)[4] == Word(0x0) && Words(p)[5] == Word(0x0)
    ensures Words(p)[6] == Word(0x0) && Words(p)[7] == Word(0x0)
  {
    hide WordOf, Words;
    ZeroWord();
    Hex8(8, 0, 6, 3, 6, 2, 6, 1);
    WordIs(p, 0, 0x80636261);
    WordIs(p, 1, 0x0);
    WordIs(p, 2, 0x0);
    WordIs(p, 3, 0x0);
    WordIs(p, 4, 0x0);
    WordIs(p, 5, 0x0);
    WordIs(p, 6, 0x0);
    WordIs(p, 7, 0x0);
  }

  lemma AbcWordsHigh(p: seq<byte>)
    requires |p| == 64 && p[0] == 0x61 && p[1] == 0x62 && p[2] == 0x63 && p[3] == 0x80 && p[56] == 24
    requires forall k :: 4 <= k < 64 && k != 56 ==> p[k] == 0
    ensures Words(p)[8] == Word(0x0) && Words(p)[9] == Word(0x0)
    ensures Words(p)[10] == Word(0x0) && Words(p)[11] == Word(0x0)
    ensures Words(p)[12] == Word(0x0) && Words(p)[13] == Word(0x0)
    ensures Words(p)[14] == Word(0x18) && Words(p)[15] == Word(0x0)
  {
    hide WordOf, Words;
    ZeroWord();
    Hex8(0, 0, 0, 0, 0, 0, 1, 8);
    WordIs(p, 8, 0x0);
    WordIs(p, 9, 0x0);
    WordIs(p, 10, 0x0);
    WordIs(p, 11, 0x0);
    WordIs(p, 12, 0x0);
    WordIs(p, 13, 0x0);
    WordIs(p, 14, 0x18);
    WordIs(p, 15, 0x0);
  }

  lemma AbcCompressed(p: seq<byte>)
    requires |p| == 64 && p[0] == 0x61 && p[1] == 0x62 && p[2] == 0x63 && p[3] == 0x80 && p[56] == 24
    requires forall k :: 4 <= k < 64 && k != 56 ==> p[k] == 0
    ensures Compress(R(0x67452301, 0xefcdab89, 0x98badcfe, 0x10325476), p)
         == R(0x98500190, 0xb04fd23c, 0x7d3f96d6, 0x727fe128)
  {
    hide WordOf, Ops, Holds, Words;
    AbcHolds(p);
    var r := R(0x67452301, 0xefcdab89, 0x98badcfe, 0x10325476);
    NoOps(r, Words(p));
    AbcPart1(Words(p), r);
    AbcPart2(Words(p), r);
    AbcPart3(Words(p), r);
    AbcPart4(Words(p), r);
    AbcPart5(Words(p), r);
    AbcPart6(Words(p), r);
    AbcPart7(Words(p), r);
    AbcPart8(Words(p), r);
  }

  lemma FirstHolds(p: seq<byte>)
    requires |p| == 64 && forall k :: 0 <= k < 64 ==> p[k] == DigitAt(k)
    ensures Holds(Words(p), FirstWords)
  {
    hide WordOf, Words;
    FirstWordsLow(p);
    FirstWordsHigh(p);
    var x := Words(p);
    forall k | 0 <= k < 16
      ensures x[k] == Word(FirstWords[k])
    {
      match k {
        case 0 => case 1 => case 2 => case 3 => case 4 => case 5 => case 6 => case 7 => case 8 => case 9 => case 10 =>
        case 11 => case 12 => case 13 => case 14 => case 15 =>
      }
    }
  }

  lemma FirstWordsLow(p: seq<byte>)
    requires |p| == 64 && forall k :: 0 <= k < 64 ==> p[k] == DigitAt(k)
    ensures Words(p)[0] == Word(0x34333231) && Words(p)[1] == Word(0x38373635)
    ensures Words(p)[2] == Word(0x32313039) && Words(p)[3] == Word(0x36353433)
    ensures Words(p)[4] == Word(0x30393837) && Words(p)[5] == Word(0x34333231)
    ensures Words(p)[6] == Word(0x38373635) && Words(p)[7] == Word(0x32313039)
  {
    hide WordOf, Words;
    ZeroWord();
    DigitWord(p, 0, 0);
    DigitWord(p, 1, 4);
    DigitWord(p, 2, 8);
    DigitWord(p, 3, 12);
    DigitWord(p, 4, 16);
    DigitWord(p, 5, 20);
    DigitWord(p, 6, 24);
    DigitWord(p, 7, 28);
  }

  lemma FirstWordsHigh(p: seq<byte>)
    requires |p| == 64 && forall k :: 0 <= k < 64 ==> p[k] == DigitAt(k)
    ensures Words(p)[8] == Word(0x36353433) && Words(p)[9] == Word(0x30393837)
    ensures Words(p)[10] == Word(0x34333231) && Words(p)[11] == Word(0x38373635)
    ensures Words(p)[12] == Word(0x32313039) && Words(p)[13] == Word(0x36353433)
    ensures Words(p)[14] == Word(0x30393837) && Words(p)[15] == Word(0x34333231)
  {
    hide WordOf, Words;
    ZeroWord();
    DigitWord(p, 8, 32);
    DigitWord(p, 9, 36);
    DigitWord(p, 10, 40);
    DigitWord(p, 11, 44);
    DigitWord(p, 12, 48);
    DigitWord(p, 13, 52);
    DigitWord(p, 14, 56);
    DigitWord(p, 15, 60);
  }

  lemma FirstCompressed(p: seq<byte>)
    requires |p| == 64 && forall k :: 0 <= k < 64 ==> p[k] == DigitAt(k)
    ensures Compress(R(0x67452301, 0xefcdab89, 0x98badcfe, 0x10325476), p)
         == R(0xc88d8bec, 0xa4a0dc8b, 0xe9edef99, 0xb0d18d1d)
  {
    hide WordOf, Ops, Holds, Words;
    FirstHolds(p);
    var r := R(0x67452301, 0xefcdab89, 0x98badcfe, 0x10325476);
    NoOps(r, Words(p));
    FirstPart1(Words(p), r);
    FirstPart2(Words(p), r);
    FirstPart3(Words(p), r);
    FirstPart4(Words(p), r);
    FirstPart5(Words(p), r);
    FirstPart6(Words(p), r);
    FirstPart7(Words(p), r);
    FirstPart8(Words(p), r);
  }

  lemma SecondHolds(p: seq<byte>)
    requires |p| == 64 && forall k :: 0 <= k < 16 ==> p[k] == DigitAt(64 + k)
    requires p[16] == 0x80 && p[56] == 0x80 && p[57] == 2
    requires forall k :: 17 <= k < 64 && k != 56 && k != 57 ==> p[k] == 0
    ensures Holds(Words(p), SecondWords)
  {
    hide WordOf, Words;
    SecondWordsLow(p);
    SecondWordsHigh(p);
    var x := Words(p);
    forall k | 0 <= k < 16
      ensures x[k] == Word(SecondWords[k])
    {
      match k {
        case 0 => case 1 => case 2 => case 3 => case 4 => case 5 => case 6 => case 7 => case 8 => case 9 => case 10 =>
        case 11 => case 12 => case 13 => case 14 => case 15 =>
      }
    }
  }

  lemma SecondWordsLow(p: seq<byte>)
    requires |p| == 64 && forall k :: 0 <= k < 16 ==> p[k] == DigitAt(64 + k)
    requires p[16] == 0x80 && p[56] == 0x80 && p[57] == 2
    requires forall k :: 17 <= k < 64 && k != 56 && k != 57 ==> p[k] == 0
    ensures Words(p)[0] == Word(0x38373635) && Words(p)[1] == Word(0x32313039)
    ensures Words(p)[2] == Word(0x36353433) && Words(p)[3] == Word(0x30393837)
    ensures Words(p)[4] == Word(0x80) && Words(p)[5] == Word(0x0)
    ensures Words(p)[6] == Word(0x0) && Words(p)[7] == Word(0x0)
  {
    hide WordOf, Words;
    ZeroWord();
    Hex8(0, 0, 0, 0, 0, 0, 8, 0);
    DigitWord(p, 0, 64);
    DigitWord(p, 1, 68);
    DigitWord(p, 2, 72);
    DigitWord(p, 3, 76);
    WordIs(p, 4, 0x80);
    WordIs(p, 5, 0x0);
    WordIs(p, 6, 0x0);
    WordIs(p, 7, 0x0);
  }

  lemma SecondWordsHigh(p: seq<byte>)
    requires |p| == 64 && forall k :: 0 <= k < 16 ==> p[k] == DigitAt(64 + k)
    requires p[16] == 0x80 && p[56] == 0x80 && p[57] == 2
    requires forall k :: 17 <= k < 64 && k != 56 && k != 57 ==> p[k] == 0
    ensures Words(p)[8] == Word(0x0) && Words(p)[9] == Word(0x0)
    ensures Words(p)[10] == Word(0x0) && Words(p)[11] == Word(0x0)
    ensures Words(p)[12] == Word(0x0) && Words(p)[13] == Word(0x0)
    ensures Words(p)[14] == Word(0x280) && Words(p)[15] == Word(0x0)
  {
    hide WordOf, Words;
    ZeroWord();
    Hex8(0, 0, 0, 0, 0, 2, 8, 0);
    WordIs(p, 8, 0x0);
    WordIs(p, 9, 0x0);
    WordIs(p, 10, 0x0);
    WordIs(p, 11, 0x0);
    WordIs(p, 12, 0x0);
    WordIs(p, 13, 0x0);
    WordIs(p, 14, 0x280);
    WordIs(p, 15, 0x0);
  }

  lemma SecondCompressed(p: seq<byte>)
    requires |p| == 64 && forall k :: 0 <= k < 16 ==> p[k] == DigitAt(64 + k)
    requires p[16] == 0x80 && p[56] == 0x80 && p[57] == 2
    requires forall k :: 17 <= k < 64 && k != 56 && k != 57 ==> p[k] == 0
    ensures Compress(R(0xc88d8bec, 0xa4a0dc8b, 0xe9edef99, 0xb0d18d1d), p)
         == R(0xa2f4ed57, 0x55c9e32b, 0x2eda49ac, 0x7ab60721)
  {
    hide WordOf, Ops, Holds, Words;
    SecondHolds(p);
    var r := R(0xc88d8bec, 0xa4a0dc8b, 0xe9edef99, 0xb0d18d1d);
    NoOps(r, Words(p));
    SecondPart1(Words(p), r);
    SecondPart2(Words(p), r);
    SecondPart3(Words(p), r);
    SecondPart4(Words(p), r);
    SecondPart5(Words(p), r);
    SecondPart6(Words(p), r);
    SecondPart7(Words(p), r);
    SecondPart8(Words(p), r);
  }

  lemma NoOps(r: Regs, x: seq<Word>)
    requires |x| == 16
    ensures Ops(r, x, 0) == r
  {}

  lemma Start()
    ensures InitialRegs() == R(0x67452301, 0xefcdab89, 0x98badcfe, 0x10325476)
  {
    hide WordOf;
    Hex8(6, 7, 4, 5, 2, 3, 0, 1);
    Hex8(0xe, 0xf, 0xc, 0xd, 0xa, 0xb, 8, 9);
    Hex8(9, 8, 0xb, 0xa, 0xd, 0xc, 0xf, 0xe);
    Hex8(1, 0, 3, 2, 5, 4, 7, 6);
  }

  /** The length of a short message. */
  lemma ShortLength(n: nat)
    requires n < 0x2000
    ensures LengthField(n) == [(8 * n % 0x100) as byte, (8 * n / 0x100) as byte, 0, 0, 0, 0, 0, 0]
  {
    hide LittleEndian;
    LittleEndianSplits(8 * n);
    FourBytes(8 * n);
    FourBytes(0);
  }

  lemma OneBlock(r: Regs, p: seq<byte>)
    requires |p| == 64
    ensures CompressAll(r, p) == Compress(r, p)
  {
    hide Compress;
    assert p[..64] == p && p[64..] == [];
  }

  lemma TwoBlocks(r: Regs, p: seq<byte>)
    requires |p| == 128
    ensures CompressAll(r, p) == Compress(Compress(r, p[..64]), p[64..])
  {
    hide Compress;
    OneBlock(Compress(r, p[..64]), p[64..]);
  }

  const ABC: seq<byte> := [0x61, 0x62, 0x63]
  const TEN: seq<byte> := [0x31, 0x32, 0x33, 0x34, 0x35, 0x36, 0x37, 0x38, 0x39, 0x30]

  /** The ten digits `n` times. */
  function Tens(n: nat): (s: seq<byte>)
    ensures |s| == 10 * n
    ensures forall k :: 0 <= k < 10 * n ==> s[k] == DigitAt(k)
  {
    if n == 0 then [] else TenMore(n); Tens(n - 1) + TEN
  }

  lemma TenMore(n: nat)
    requires n > 0
    ensures forall j :: 0 <= j < 10 ==> TEN[j] == DigitAt(10 * (n - 1) + j)
  {}

  /** MD5 ("") */
  lemma EmptyDigest()
    ensures Digest([]) == [0xd4, 0x1d, 0x8c, 0xd9, 0x8f, 0x00, 0xb2, 0x04]
            + [0xe9, 0x80, 0x09, 0x98, 0xec, 0xf8, 0x42, 0x7e]
  {
    hide Compress, CompressAll, InitialRegs, WordOf, LengthField;
    Start();
    ShortLength(0);
    var p := Padded([]);
    OneBlock(InitialRegs(), p);
    EmptyCompressed(p);
    EmptyOutput();
  }

  lemma EmptyOutput()
    ensures Output(R(0xd98c1dd4, 0x04b2008f, 0x980980e9, 0x7e42f8ec))
         == [0xd4, 0x1d, 0x8c, 0xd9, 0x8f, 0x00, 0xb2, 0x04] + [0xe9, 0x80, 0x09, 0x98, 0xec, 0xf8, 0x42, 0x7e]
  {}

  /** MD5 ("abc") */
  lemma AbcDigest()
    ensures Digest(ABC) == [0x90, 0x01, 0x50, 0x98, 0x3c, 0xd2, 0x4f, 0xb0]
            + [0xd6, 0x96, 0x3f, 0x7d, 0x28, 0xe1, 0x7f, 0x72]
  {
    hide Compress, CompressAll, InitialRegs, WordOf, LengthField;
    Start();
    ShortLength(3);
    var p := Padded(ABC);
    OneBlock(InitialRegs(), p);
    AbcCompressed(p);
    AbcOutput();
  }

  lemma AbcOutput()
    ensures Output(R(0x98500190, 0xb04fd23c, 0x7d3f96d6, 0x727fe128))
         == [0x90, 0x01, 0x50, 0x98, 0x3c, 0xd2, 0x4f, 0xb0] + [0xd6, 0x96, 0x3f, 0x7d, 0x28, 0xe1, 0x7f, 0x72]
  {}

  /** MD5 of the 80 digits */
  lemma EightyDigest()
    ensures Digest(Tens(8)) == [0x57, 0xed, 0xf4, 0xa2, 0x2b, 0xe3, 0xc9, 0x55]
            + [0xac, 0x49, 0xda, 0x2e, 0x21, 0x07, 0xb6, 0x7a]
  {
    hide Compress, CompressAll, InitialRegs, WordOf, LengthField;
    Start();
    ShortLength(80);
    var p := Padded(Tens(8));
    TwoBlocks(InitialRegs(), p);
    FirstCompressed(p[..64]);
    SecondCompressed(p[64..]);
    EightyOutput();
  }

  lemma EightyOutput()
    ensures Output(R(0xa2f4ed57, 0x55c9e32b, 0x2eda49ac, 0x7ab60721))
         == [0x57, 0xed, 0xf4, 0xa2, 0x2b, 0xe3, 0xc9, 0x55] + [0xac, 0x49, 0xda, 0x2e, 0x21, 0x07, 0xb6, 0x7a]
  {}

  // ---------------------------------------------------------------- the program

  /** Hashing the three strings, the last one in eight pieces of ten. */
  method Suite(k: nat, wide: nat) returns (empty: seq<byte>, abc: seq<byte>, eighty: seq<byte>)
    requires wide >= 32 + k
    ensures empty == [0xd4, 0x1d, 0x8c, 0xd9, 0x8f, 0x00, 0xb2, 0x04]
                   + [0xe9, 0x80, 0x09, 0x98, 0xec, 0xf8, 0x42, 0x7e]
    ensures abc == [0x90, 0x01, 0x50, 0x98, 0x3c, 0xd2, 0x4f, 0xb0]
                 + [0xd6, 0x96, 0x3f, 0x7d, 0x28, 0xe1, 0x7f, 0x72]
    ensures eighty == [0x57, 0xed, 0xf4, 0xa2, 0x2b, 0xe3, 0xc9, 0x55]
                    + [0xac, 0x49, 0xda, 0x2e, 0x21, 0x07, 0xb6, 0x7a]
  {
    hide Digest;
    empty := HashPieces(k, wide, []);
    abc := HashPieces(k, wide, [ABC]);
    eighty := HashPieces(k, wide, seq(8, _ => TEN));
    EmptyDigest();
    AbcDigest();
    EightyDigest();
    Pieces(8);
    OnePiece(ABC);
  }

  lemma {:induction false} Pieces(n: nat)
    ensures Flatten(seq(n, _ => TEN)) == Tens(n)
  {
    if n == 0 {
    } else {
      Pieces(n - 1);
      assert seq(n, _ => TEN) == seq(n - 1, _ => TEN) + [TEN];
      Snoc(seq(n - 1, _ => TEN), TEN);
    }
  }

  lemma OnePiece(x: seq<byte>)
    ensures Flatten([]) == [] && Flatten([x]) == x
  {
    assert [x][..0] == [];
  }

  lemma Snoc(pieces: seq<seq<byte>>, last: seq<byte>)
    ensures Flatten(pieces + [last]) == Flatten(pieces) + last
  {
    assert (pieces + [last])[..|pieces|] == pieces;
  }
}
