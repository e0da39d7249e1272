/**
 * The registers through all operations on the blocks of three strings of the test suite of RFC 1321: the empty one,
 * "abc", and the one of 80 digits, which takes two blocks. Values are followed four operations at a time.
 */
module Md5Trace {
  import opened Md5Rfc
  import opened Md5Digits

  // ---------------------------------------------------------------- the listing, its constants as words

  /** Row `i` of the listing is [.. k s i], with the constant `t`. */
  ghost predicate RowIs(i: nat, k: nat, s: bv32, t: bv32)
  {
    Schedule(i).k == k && Schedule(i).s == s && WordOf(Schedule(i).t) == Word(t)
  }

  lemma Numbers1()
    ensures WordOf(0xd76aa478) == Word(0xd76aa478) && WordOf(0xe8c7b756) == Word(0xe8c7b756)
    ensures WordOf(0x242070db) == Word(0x242070db) && WordOf(0xc1bdceee) == Word(0xc1bdceee)
    ensures WordOf(0xf57c0faf) == Word(0xf57c0faf) && WordOf(0x4787c62a) == Word(0x4787c62a)
    ensures WordOf(0xa8304613) == Word(0xa8304613) && WordOf(0xfd469501) == Word(0xfd469501)
  {
    hide WordOf;
    Hex8(0xd, 7, 6, 0xa, 0xa, 4, 7, 8);
    Hex8(0xe, 8, 0xc, 7, 0xb, 7, 5, 6);
    Hex8(2, 4, 2, 0, 7, 0, 0xd, 0xb);
    Hex8(0xc, 1, 0xb, 0xd, 0xc, 0xe, 0xe, 0xe);
    Hex8(0xf, 5, 7, 0xc, 0, 0xf, 0xa, 0xf);
    Hex8(4, 7, 8, 7, 0xc, 6, 2, 0xa);
    Hex8(0xa, 8, 3, 0, 4, 6, 1, 3);
    Hex8(0xf, 0xd, 4, 6, 9, 5, 0, 1);
  }

  lemma Rows1()
    ensures RowIs(0, 0, 7, 0xd76aa478) && RowIs(1, 1, 12, 0xe8c7b756)
    ensures RowIs(2, 2, 17, 0x242070db) && RowIs(3, 3, 22, 0xc1bdceee)
    ensures RowIs(4, 4, 7, 0xf57c0faf) && RowIs(5, 5, 12, 0x4787c62a)
    ensures RowIs(6, 6, 17, 0xa8304613) && RowIs(7, 7, 22, 0xfd469501)
  {
    hide WordOf;
    Numbers1();
  }

  lemma Numbers2()
    ensures WordOf(0x698098d8) == Word(0x698098d8) && WordOf(0x8b44f7af) == Word(0x8b44f7af)
    ensures WordOf(0xffff5bb1) == Word(0xffff5bb1) && WordOf(0x895cd7be) == Word(0x895cd7be)
    ensures WordOf(0x6b901122) == Word(0x6b901122) && WordOf(0xfd987193) == Word(0xfd987193)
    ensures WordOf(0xa679438e) == Word(0xa679438e) && WordOf(0x49b40821) == Word(0x49b40821)
  {
    hide WordOf;
    Hex8(6, 9, 8, 0, 9, 8, 0xd, 8);
    Hex8(8, 0xb, 4, 4, 0xf, 7, 0xa, 0xf);
    Hex8(0xf, 0xf, 0xf, 0xf, 5, 0xb, 0xb, 1);
    Hex8(8, 9, 5, 0xc, 0xd, 7, 0xb, 0xe);
    Hex8(6, 0xb, 9, 0, 1, 1, 2, 2);
    Hex8(0xf, 0xd, 9, 8, 7, 1, 9, 3);
    Hex8(0xa, 6, 7, 9, 4, 3, 8, 0xe);
    Hex8(4, 9, 0xb, 4, 0, 8, 2, 1);
  }

  lemma Rows2()
    ensures RowIs(8, 8, 7, 0x698098d8) && RowIs(9, 9, 12, 0x8b44f7af)
    ensures RowIs(10, 10, 17, 0xffff5bb1) && RowIs(11, 11, 22, 0x895cd7be)
    ensures RowIs(12, 12, 7, 0x6b901122) && RowIs(13, 13, 12, 0xfd987193)
    ensures RowIs(14, 14, 17, 0xa679438e) && RowIs(15, 15, 22, 0x49b40821)
  {
    hide WordOf;
    Numbers2();
  }

  lemma Numbers3()
    ensures WordOf(0xf61e2562) == Word(0xf61e2562) && WordOf(0xc040b340) == Word(0xc040b340)
    ensures WordOf(0x265e5a51) == Word(0x265e5a51) && WordOf(0xe9b6c7aa) == Word(0xe9b6c7aa)
    ensures WordOf(0xd62f105d) == Word(0xd62f105d) && WordOf(0x02441453) == Word(0x02441453)
    ensures WordOf(0xd8a1e681) == Word(0xd8a1e681) && WordOf(0xe7d3fbc8) == Word(0xe7d3fbc8)
  {
    hide WordOf;
    Hex8(0xf, 6, 1, 0xe, 2, 5, 6, 2);
    Hex8(0xc, 0, 4, 0, 0xb, 3, 4, 0);
    Hex8(2, 6, 5, 0xe, 5, 0xa, 5, 1);
    Hex8(0xe, 9, 0xb, 6, 0xc, 7, 0xa, 0xa);
    Hex8(0xd, 6, 2, 0xf, 1, 0, 5, 0xd);
    Hex8(0, 2, 4, 4, 1, 4, 5, 3);
    Hex8(0xd, 8, 0xa, 1, 0xe, 6, 8, 1);
    Hex8(0xe, 7, 0xd, 3, 0xf, 0xb, 0xc, 8);
  }

  lemma Rows3()
    ensures RowIs(16, 1, 5, 0xf61e2562) && RowIs(17, 6, 9, 0xc040b340)
    ensures RowIs(18, 11, 14, 0x265e5a51) && RowIs(19, 0, 20, 0xe9b6c7aa)
    ensures RowIs(20, 5, 5, 0xd62f105d) && RowIs(21, 10, 9, 0x02441453)
    ensures RowIs(22, 15, 14, 0xd8a1e681) && RowIs(23, 4, 20, 0xe7d3fbc8)
  {
    hide WordOf;
    Numbers3();
  }

  lemma Numbers4()
    ensures WordOf(0x21e1cde6) == Word(0x21e1cde6) && WordOf(0xc33707d6) == Word(0xc33707d6)
    ensures WordOf(0xf4d50d87) == Word(0xf4d50d87) && WordOf(0x455a14ed) == Word(0x455a14ed)
    ensures WordOf(0xa9e3e905) == Word(0xa9e3e905) && WordOf(0xfcefa3f8) == Word(0xfcefa3f8)
    ensures WordOf(0x676f02d9) == Word(0x676f02d9) && WordOf(0x8d2a4c8a) == Word(0x8d2a4c8a)
  {
    hide WordOf;
    Hex8(2, 1, 0xe, 1, 0xc, 0xd, 0xe, 6);
    Hex8(0xc, 3, 3, 7, 0, 7, 0xd, 6);
    Hex8(0xf, 4, 0xd, 5, 0, 0xd, 8, 7);
    Hex8(4, 5, 5, 0xa, 1, 4, 0xe, 0xd);
    Hex8(0xa, 9, 0xe, 3, 0xe, 9, 0, 5);
    Hex8(0xf, 0xc, 0xe, 0xf, 0xa, 3, 0xf, 8);
    Hex8(6, 7, 6, 0xf, 0, 2, 0xd, 9);
    Hex8(8, 0xd, 2, 0xa, 4, 0xc, 8, 0xa);
  }

  lemma Rows4()
    ensures RowIs(24, 9, 5, 0x21e1cde6) && RowIs(25, 14, 9, 0xc33707d6)
    ensures RowIs(26, 3, 14, 0xf4d50d87) && RowIs(27, 8, 20, 0x455a14ed)
    ensures RowIs(28, 13, 5, 0xa9e3e905) && RowIs(29, 2, 9, 0xfcefa3f8)
    ensures RowIs(30, 7, 14, 0x676f02d9) && RowIs(31, 12, 20, 0x8d2a4c8a)
  {
    hide WordOf;
    Numbers4();
  }

  lemma Numbers5()
    ensures WordOf(0xfffa3942) == Word(0xfffa3942) && WordOf(0x8771f681) == Word(0x8771f681)
    ensures WordOf(0x6d9d6122) == Word(0x6d9d6122) && WordOf(0xfde5380c) == Word(0xfde5380c)
    ensures WordOf(0xa4beea44) == Word(0xa4beea44) && WordOf(0x4bdecfa9) == Word(0x4bdecfa9)
    ensures WordOf(0xf6bb4b60) == Word(0xf6bb4b60) && WordOf(0xbebfbc70) == Word(0xbebfbc70)
  {
    hide WordOf;
    Hex8(0xf, 0xf, 0xf, 0xa, 3, 9, 4, 2);
    Hex8(8, 7, 7, 1, 0xf, 6, 8, 1);
    Hex8(6, 0xd, 9, 0xd, 6, 1, 2, 2);
    Hex8(0xf, 0xd, 0xe, 5, 3, 8, 0, 0xc);
    Hex8(0xa, 4, 0xb, 0xe, 0xe, 0xa, 4, 4);
    Hex8(4, 0xb, 0xd, 0xe, 0xc, 0xf, 0xa, 9);
    Hex8(0xf, 6, 0xb, 0xb, 4, 0xb, 6, 0);
    Hex8(0xb, 0xe, 0xb, 0xf, 0xb, 0xc, 7, 0);
  }

  lemma Rows5()
    ensures RowIs(32, 5, 4, 0xfffa3942) && RowIs(33, 8, 11, 0x8771f681)
    ensures RowIs(34, 11, 16, 0x6d9d6122) && RowIs(35, 14, 23, 0xfde5380c)
    ensures RowIs(36, 1, 4, 0xa4beea44) && RowIs(37, 4, 11, 0x4bdecfa9)
    ensures RowIs(38, 7, 16, 0xf6bb4b60) && RowIs(39, 10, 23, 0xbebfbc70)
  {
    hide WordOf;
    Numbers5();
  }

  lemma Numbers6()
    ensures WordOf(0x289b7ec6) == Word(0x289b7ec6) && WordOf(0xeaa127fa) == Word(0xeaa127fa)
    ensures WordOf(0xd4ef3085) == Word(0xd4ef3085) && WordOf(0x04881d05) == Word(0x04881d05)
    ensures WordOf(0xd9d4d039) == Word(0xd9d4d039) && WordOf(0xe6db99e5) == Word(0xe6db99e5)
    ensures WordOf(0x1fa27cf8) == Word(0x1fa27cf8) && WordOf(0xc4ac5665) == Word(0xc4ac5665)
  {
    hide WordOf;
    Hex8(2, 8, 9, 0xb, 7, 0xe, 0xc, 6);
    Hex8(0xe, 0xa, 0xa, 1, 2, 7, 0xf, 0xa);
    Hex8(0xd, 4, 0xe, 0xf, 3, 0, 8, 5);
    Hex8(0, 4, 8, 8, 1, 0xd, 0, 5);
    Hex8(0xd, 9, 0xd, 4, 0xd, 0, 3, 9);
    Hex8(0xe, 6, 0xd, 0xb, 9, 9, 0xe, 5);
    Hex8(1, 0xf, 0xa, 2, 7, 0xc, 0xf, 8);
    Hex8(0xc, 4, 0xa, 0xc, 5, 6, 6, 5);
  }

  lemma Rows6()
    ensures RowIs(40, 13, 4, 0x289b7ec6) && RowIs(41, 0, 11, 0xeaa127fa)
    ensures RowIs(42, 3, 16, 0xd4ef3085) && RowIs(43, 6, 23, 0x04881d05)
    ensures RowIs(44, 9, 4, 0xd9d4d039) && RowIs(45, 12, 11, 0xe6db99e5)
    ensures RowIs(46, 15, 16, 0x1fa27cf8) && RowIs(47, 2, 23, 0xc4ac5665)
  {
    hide WordOf;
    Numbers6();
  }

  lemma Numbers7()
    ensures WordOf(0xf4292244) == Word(0xf4292244) && WordOf(0x432aff97) == Word(0x432aff97)
    ensures WordOf(0xab9423a7) == Word(0xab9423a7) && WordOf(0xfc93a039) == Word(0xfc93a039)
    ensures WordOf(0x655b59c3) == Word(0x655b59c3) && WordOf(0x8f0ccc92) == Word(0x8f0ccc92)
    ensures WordOf(0xffeff47d) == Word(0xffeff47d) && WordOf(0x85845dd1) == Word(0x85845dd1)
  {
    hide WordOf;
    Hex8(0xf, 4, 2, 9, 2, 2, 4, 4);
    Hex8(4, 3, 2, 0xa, 0xf, 0xf, 9, 7);
    Hex8(0xa, 0xb, 9, 4, 2, 3, 0xa, 7);
    Hex8(0xf, 0xc, 9, 3, 0xa, 0, 3, 9);
    Hex8(6, 5, 5, 0xb, 5, 9, 0xc, 3);
    Hex8(8, 0xf, 0, 0xc, 0xc, 0xc, 9, 2);
    Hex8(0xf, 0xf, 0xe, 0xf, 0xf, 4, 7, 0xd);
    Hex8(8, 5, 8, 4, 5, 0xd, 0xd, 1);
  }

  lemma Rows7()
    ensures RowIs(48, 0, 6, 0xf4292244) && RowIs(49, 7, 10, 0x432aff97)
    ensures RowIs(50, 14, 15, 0xab9423a7) && RowIs(51, 5, 21, 0xfc93a039)
    ensures RowIs(52, 12, 6, 0x655b59c3) && RowIs(53, 3, 10, 0x8f0ccc92)
    ensures RowIs(54, 10, 15, 0xffeff47d) && RowIs(55, 1, 21, 0x85845dd1)
  {
    hide WordOf;
    Numbers7();
  }

  lemma Numbers8()
    ensures WordOf(0x6fa87e4f) == Word(0x6fa87e4f) && WordOf(0xfe2ce6e0) == Word(0xfe2ce6e0)
    ensures WordOf(0xa3014314) == Word(0xa3014314) && WordOf(0x4e0811a1) == Word(0x4e0811a1)
    ensures WordOf(0xf7537e82) == Word(0xf7537e82) && WordOf(0xbd3af235) == Word(0xbd3af235)
    ensures WordOf(0x2ad7d2bb) == Word(0x2ad7d2bb) && WordOf(0xeb86d391) == Word(0xeb86d391)
  {
    hide WordOf;
    Hex8(6, 0xf, 0xa, 8, 7, 0xe, 4, 0xf);
    Hex8(0xf, 0xe, 2, 0xc, 0xe, 6, 0xe, 0);
    Hex8(0xa, 3, 0, 1, 4, 3, 1, 4);
    Hex8(4, 0xe, 0, 8, 1, 1, 0xa, 1);
    Hex8(0xf, 7, 5, 3, 7, 0xe, 8, 2);
    Hex8(0xb, 0xd, 3, 0xa, 0xf, 2, 3, 5);
    Hex8(2, 0xa, 0xd, 7, 0xd, 2, 0xb, 0xb);
    Hex8(0xe, 0xb, 8, 6, 0xd, 3, 9, 1);
  }

  lemma Rows8()
    ensures RowIs(56, 8, 6, 0x6fa87e4f) && RowIs(57, 15, 10, 0xfe2ce6e0)
    ensures RowIs(58, 6, 15, 0xa3014314) && RowIs(59, 13, 21, 0x4e0811a1)
    ensures RowIs(60, 4, 6, 0xf7537e82) && RowIs(61, 11, 10, 0xbd3af235)
    ensures RowIs(62, 2, 15, 0x2ad7d2bb) && RowIs(63, 9, 21, 0xeb86d391)
  {
    hide WordOf;
    Numbers8();
  }

  // ---------------------------------------------------------------- four operations at a time

  function R(a: bv32, b: bv32, c: bv32, d: bv32): Regs { Regs(Word(a), Word(b), Word(c), Word(d)) }

  /** Operation `i` with its word, amount and constant as bits. */
  function Do(i: nat, r: Regs, w: bv32, s: bv32, t: bv32): Regs
    requires 0 < s < 32
  {
    Regs(r.d, Combine(Mix(i, r.b, r.c, r.d), r.a, r.b, Word(w), Word(t), s), r.b, r.c)
  }

  /** Operations `i` to `i + 3`. */
  function Quad(i: nat, r: Regs, w0: bv32, s0: bv32, t0: bv32, w1: bv32, s1: bv32, t1: bv32,
                w2: bv32, s2: bv32, t2: bv32, w3: bv32, s3: bv32, t3: bv32): Regs
    requires 0 < s0 < 32 && 0 < s1 < 32 && 0 < s2 < 32 && 0 < s3 < 32
  {
    Do(i + 3, Do(i + 2, Do(i + 1, Do(i, r, w0, s0, t0), w1, s1, t1), w2, s2, t2), w3, s3, t3)
  }

  /** The words of a block. */
  ghost predicate Holds(x: seq<Word>, words: seq<bv32>)
  {
    |x| == |words| == 16 && forall k :: 0 <= k < 16 ==> x[k] == Word(words[k])
  }

  function Given(i: nat, r: Regs, words: seq<bv32>): Regs
    requires |words| == 16
  {
    Do(i, r, words[Schedule(i).k], Schedule(i).s, WordOf(Schedule(i).t).bits)
  }

  lemma OpIs(i: nat, r: Regs, x: seq<Word>, words: seq<bv32>)
    requires Holds(x, words)
    ensures Op(i, r, x) == Given(i, r, words)
  {
    hide Schedule, WordOf, Combine, Mix;
  }

  /** Four operations more. */
  lemma QuadIs(x: seq<Word>, words: seq<bv32>, i: nat, r: Regs)
    requires Holds(x, words)
    ensures Ops(r, x, i + 4)
         == Given(i + 3, Given(i + 2, Given(i + 1, Given(i, Ops(r, x, i), words), words), words), words)
  {
    hide Op, Given;
    var r1, r2, r3 := Ops(r, x, i + 1), Ops(r, x, i + 2), Ops(r, x, i + 3);
    OpIs(i, Ops(r, x, i), x, words);
    OpIs(i + 1, r1, x, words);
    OpIs(i + 2, r2, x, words);
    OpIs(i + 3, r3, x, words);
    assert r1 == Op(i, Ops(r, x, i), x) && r2 == Op(i + 1, r1, x) && r3 == Op(i + 2, r2, x);
  }

  // ---------------------------------------------------------------- the empty string

  const EmptyWords: seq<bv32> := [0x80, 0x0, 0x0, 0x0, 0x0, 0x0, 0x0, 0x0,
      0x0, 0x0, 0x0, 0x0, 0x0, 0x0, 0x0, 0x0]

  lemma EmptyValues1()
    ensures Quad(0, R(0x67452301, 0xefcdab89, 0x98badcfe, 0x10325476),
        0x80, 7, 0xd76aa478, 0x0, 12, 0xe8c7b756,
        0x0, 17, 0x242070db, 0x0, 22, 0xc1bdceee)
         == R(0xa5202774, 0x1b163203, 0xe7f06b23, 0xf59592dd)
    ensures Quad(4, R(0xa5202774, 0x1b163203, 0xe7f06b23, 0xf59592dd),
        0x0, 7, 0xf57c0faf, 0x0, 12, 0x4787c62a,
        0x0, 17, 0xa8304613, 0x0, 22, 0xfd469501)
         == R(0x32033344, 0x9bc13ce9, 0xf5b158db, 0x2f35d494)
    ensures Quad(8, R(0x32033344, 0x9bc13ce9, 0xf5b158db, 0x2f35d494),
        0x0, 7, 0x698098d8, 0x0, 12, 0x8b44f7af,
        0x0, 17, 0xffff5bb1, 0x0, 22, 0x895cd7be)
         == R(0x3893b991, 0x70768a29, 0xe1ef0576, 0xfce4a312)
    ensures Quad(12, R(0x3893b991, 0x70768a29, 0xe1ef0576, 0xfce4a312),
        0x0, 7, 0x6b901122, 0x0, 12, 0xfd987193,
        0x0, 17, 0xa679438e, 0x0, 22, 0x49b40821)
         == R(0xf56c7cf1, 0xd6819c6a, 0x5aa53f75, 0x374943a7)
  {}

  lemma EmptyPart1(x: seq<Word>, r: Regs)
    requires Holds(x, EmptyWords) && Ops(r, x, 0) == R(0x67452301, 0xefcdab89, 0x98badcfe, 0x10325476)
    ensures Ops(r, x, 8) == R(0x32033344, 0x9bc13ce9, 0xf5b158db, 0x2f35d494)
  {
    hide Op, Ops, Do, Schedule, WordOf, R, Holds;
    Rows1();
    EmptyValues1();
    QuadIs(x, EmptyWords, 0, r);
    QuadIs(x, EmptyWords, 4, r);
  }

  lemma EmptyPart2(x: seq<Word>, r: Regs)
    requires Holds(x, EmptyWords) && Ops(r, x, 8) == R(0x32033344, 0x9bc13ce9, 0xf5b158db, 0x2f35d494)
    ensures Ops(r, x, 16) == R(0xf56c7cf1, 0xd6819c6a, 0x5aa53f75, 0x374943a7)
  {
    hide Op, Ops, Do, Schedule, WordOf, R, Holds;
    Rows2();
    EmptyValues1();
    QuadIs(x, EmptyWords, 8, r);
    QuadIs(x, EmptyWords, 12, r);
  }

  lemma EmptyValues2()
    ensures Quad(16, R(0xf56c7cf1, 0xd6819c6a, 0x5aa53f75, 0x374943a7),
        0x0, 5, 0xf61e2562, 0x0, 9, 0xc040b340,
        0x0, 14, 0x265e5a51, 0x80, 20, 0xe9b6c7aa)
         == R(0x1c7d7513, 0xbd782e17, 0xc095f13a, 0x7bd57a3a)
    ensures Quad(20, R(0x1c7d7513, 0xbd782e17, 0xc095f13a, 0x7bd57a3a),
        0x0, 5, 0xd62f105d, 0x0, 9, 0x2441453,
        0x0, 14, 0xd8a1e681, 0x0, 20, 0xe7d3fbc8)
         == R(0x3d1e3e6c, 0xe422531a, 0xeb41643e, 0x68b7b3e3)
    ensures Quad(24, R(0x3d1e3e6c, 0xe422531a, 0xeb41643e, 0x68b7b3e3),
        0x0, 5, 0x21e1cde6, 0x0, 9, 0xc33707d6,
        0x0, 14, 0xf4d50d87, 0x0, 20, 0x455a14ed)
         == R(0x306ec122, 0xa0572807, 0xa3c663da, 0xd28c77c2)
    ensures Quad(28, R(0x306ec122, 0xa0572807, 0xa3c663da, 0xd28c77c2),
        0x0, 5, 0xa9e3e905, 0x0, 9, 0xfcefa3f8,
        0x0, 14, 0x676f02d9, 0x0, 20, 0x8d2a4c8a)
         == R(0x13707036, 0xa2205f1f, 0x1c31c384, 0xae7813db)
  {}

  lemma EmptyPart3(x: seq<Word>, r: Regs)
    requires Holds(x, EmptyWords) && Ops(r, x, 16) == R(0xf56c7cf1, 0xd6819c6a, 0x5aa53f75, 0x374943a7)
    ensures Ops(r, x, 24) == R(0x3d1e3e6c, 0xe422531a, 0xeb41643e, 0x68b7b3e3)
  {
    hide Op, Ops, Do, Schedule, WordOf, R, Holds;
    Rows3();
    EmptyValues2();
    QuadIs(x, EmptyWords, 16, r);
    QuadIs(x, EmptyWords, 20, r);
  }

  lemma EmptyPart4(x: seq<Word>, r: Regs)
    requires Holds(x, EmptyWords) && Ops(r, x, 24) == R(0x3d1e3e6c, 0xe422531a, 0xeb41643e, 0x68b7b3e3)
    ensures Ops(r, x, 32) == R(0x13707036, 0xa2205f1f, 0x1c31c384, 0xae7813db)
  {
    hide Op, Ops, Do, Schedule, WordOf, R, Holds;
    Rows4();
    EmptyValues2();
    QuadIs(x, EmptyWords, 24, r);
    QuadIs(x, EmptyWords, 28, r);
  }

  lemma EmptyValues3()
    ensures Quad(32, R(0x13707036, 0xa2205f1f, 0x1c31c384, 0xae7813db),
        0x0, 4, 0xfffa3942, 0x0, 11, 0x8771f681,
        0x0, 16, 0x6d9d6122, 0x0, 23, 0xfde5380c)
         == R(0xdf63eaa1, 0x004b6669, 0x12f3e755, 0xc3689f5b)
    ensures Quad(36, R(0xdf63eaa1, 0x004b6669, 0x12f3e755, 0xc3689f5b),
        0x0, 4, 0xa4beea44, 0x0, 11, 0x4bdecfa9,
        0x0, 16, 0xf6bb4b60, 0x0, 23, 0xbebfbc70)
         == R(0x5f7a9b2e, 0xc5dc8c15, 0x91ca4cb7, 0xabc34e16)
    ensures Quad(40, R(0x5f7a9b2e, 0xc5dc8c15, 0x91ca4cb7, 0xabc34e16),
        0x0, 4, 0x289b7ec6, 0x80, 11, 0xeaa127fa,
        0x0, 16, 0xd4ef3085, 0x0, 23, 0x4881d05)
         == R(0x4497169d, 0x0fe32453, 0xfd95f243, 0x76fd93d4)
    ensures Quad(44, R(0x4497169d, 0x0fe32453, 0xfd95f243, 0x76fd93d4),
        0x0, 4, 0xd9d4d039, 0x0, 11, 0xe6db99e5,
        0x0, 16, 0x1fa27cf8, 0x0, 23, 0xc4ac5665)
         == R(0x3f55edfd, 0xca7d2dbd, 0x68d84ea2, 0x22a31f54)
  {}

  lemma EmptyPart5(x: seq<Word>, r: Regs)
    requires Holds(x, EmptyWords) && Ops(r, x, 32) == R(0x13707036, 0xa2205f1f, 0x1c31c384, 0xae7813db)
    ensures Ops(r, x, 40) == R(0x5f7a9b2e, 0xc5dc8c15, 0x91ca4cb7, 0xabc34e16)
  {
    hide Op, Ops, Do, Schedule, WordOf, R, Holds;
    Rows5();
    EmptyValues3();
    QuadIs(x, EmptyWords, 32, r);
    QuadIs(x, EmptyWords, 36, r);
  }

  lemma EmptyPart6(x: seq<Word>, r: Regs)
    requires Holds(x, EmptyWords) && Ops(r, x, 40) == R(0x5f7a9b2e, 0xc5dc8c15, 0x91ca4cb7, 0xabc34e16)
    ensures Ops(r, x, 48) == R(0x3f55edfd, 0xca7d2dbd, 0x68d84ea2, 0x22a31f54)
  {
    hide Op, Ops, Do, Schedule, WordOf, R, Holds;
    Rows6();
    EmptyValues3();
    QuadIs(x, EmptyWords, 40, r);
    QuadIs(x, EmptyWords, 44, r);
  }

  lemma EmptyValues4()
    ensures Quad(48, R(0x3f55edfd, 0xca7d2dbd, 0x68d84ea2, 0x22a31f54),
        0x80, 6, 0xf4292244, 0x0, 10, 0x432aff97,
        0x0, 15, 0xab9423a7, 0x0, 21, 0xfc93a039)
         == R(0x93aa2577, 0x561e0689, 0xcd85b8cb, 0x1688dc85)
    ensures Quad(52, R(0x93aa2577, 0x561e0689, 0xcd85b8cb, 0x1688dc85),
        0x0, 6, 0x655b59c3, 0x0, 10, 0x8f0ccc92,
        0x0, 15, 0xffeff47d, 0x0, 21, 0x85845dd1)
         == R(0x5625a114, 0x1e77fa61, 0x392ad0d0, 0x3450f42b)
    ensures Quad(56, R(0x5625a114, 0x1e77fa61, 0x392ad0d0, 0x3450f42b),
        0x0, 6, 0x6fa87e4f, 0x0, 10, 0xfe2ce6e0,
        0x0, 15, 0xa3014314, 0x0, 21, 0x4e0811a1)
         == R(0x474a9c8c, 0x30130182, 0x36594b14, 0xdfce00bc)
    ensures Quad(60, R(0x474a9c8c, 0x30130182, 0x36594b14, 0xdfce00bc),
        0x0, 6, 0xf7537e82, 0x0, 10, 0xbd3af235,
        0x0, 15, 0x2ad7d2bb, 0x0, 21, 0xeb86d391)
         == R(0x7246fad3, 0x14e45506, 0xff4ea3eb, 0x6e10a476)
  {}

  lemma EmptyPart7(x: seq<Word>, r: Regs)
    requires Holds(x, EmptyWords) && Ops(r, x, 48) == R(0x3f55edfd, 0xca7d2dbd, 0x68d84ea2, 0x22a31f54)
    ensures Ops(r, x, 56) == R(0x5625a114, 0x1e77fa61, 0x392ad0d0, 0x3450f42b)
  {
    hide Op, Ops, Do, Schedule, WordOf, R, Holds;
    Rows7();
    EmptyValues4();
    QuadIs(x, EmptyWords, 48, r);
    QuadIs(x, EmptyWords, 52, r);
  }

  lemma EmptyPart8(x: seq<Word>, r: Regs)
    requires Holds(x, EmptyWords) && Ops(r, x, 56) == R(0x5625a114, 0x1e77fa61, 0x392ad0d0, 0x3450f42b)
    ensures Ops(r, x, 64) == R(0x7246fad3, 0x14e45506, 0xff4ea3eb, 0x6e10a476)
  {
    hide Op, Ops, Do, Schedule, WordOf, R, Holds;
    Rows8();
    EmptyValues4();
    QuadIs(x, EmptyWords, 56, r);
    QuadIs(x, EmptyWords, 60, r);
  }

  // ---------------------------------------------------------------- "abc"

  const AbcWords: seq<bv32> := [0x80636261, 0x0, 0x0, 0x0, 0x0, 0x0, 0x0, 0x0,
      0x0, 0x0, 0x0, 0x0, 0x0, 0x0, 0x18, 0x0]

  lemma AbcValues1()
    ensures Quad(0, R(0x67452301, 0xefcdab89, 0x98badcfe, 0x10325476),
        0x80636261, 7, 0xd76aa478, 0x0, 12, 0xe8c7b756,
        0x0, 17, 0x242070db, 0x0, 22, 0xc1bdceee)
         == R(0xd6d117b4, 0x7ad956f2, 0x2f6fbd72, 0x344a8432)
    ensures Quad(4, R(0xd6d117b4, 0x7ad956f2, 0x2f6fbd72, 0x344a8432),
        0x0, 7, 0xf57c0faf, 0x0, 12, 0x4787c62a,
        0x0, 17, 0xa8304613, 0x0, 22, 0xfd469501)
         == R(0xc73741ef, 0x928d99f6, 0x207dc67b, 0x8bac3051)
    ensures Quad(8, R(0xc73741ef, 0x928d99f6, 0x207dc67b, 0x8bac3051),
        0x0, 7, 0x698098d8, 0x0, 12, 0x8b44f7af,
        0x0, 17, 0xffff5bb1, 0x0, 22, 0x895cd7be)
         == R(0x854b3712, 0x5ed49596, 0x3020401c, 0x74e2f284)
    ensures Quad(12, R(0x854b3712, 0x5ed49596, 0x3020401c, 0x74e2f284),
        0x0, 7, 0x6b901122, 0x0, 12, 0xfd987193,
        0x18, 17, 0xa679438e, 0x0, 22, 0x49b40821)
         == R(0xdda9b9a6, 0x72aff2e0, 0xe396856b, 0xa1051895)
  {}

  lemma AbcPart1(x: seq<Word>, r: Regs)
    requires Holds(x, AbcWords) && Ops(r, x, 0) == R(0x67452301, 0xefcdab89, 0x98badcfe, 0x10325476)
    ensures Ops(r, x, 8) == R(0xc73741ef, 0x928d99f6, 0x207dc67b, 0x8bac3051)
  {
    hide Op, Ops, Do, Schedule, WordOf, R, Holds;
    Rows1();
    AbcValues1();
    QuadIs(x, AbcWords, 0, r);
    QuadIs(x, AbcWords, 4, r);
  }

  lemma AbcPart2(x: seq<Word>, r: Regs)
    requires Holds(x, AbcWords) && Ops(r, x, 8) == R(0xc73741ef, 0x928d99f6, 0x207dc67b, 0x8bac3051)
    ensures Ops(r, x, 16) == R(0xdda9b9a6, 0x72aff2e0, 0xe396856b, 0xa1051895)
  {
    hide Op, Ops, Do, Schedule, WordOf, R, Holds;
    Rows2();
    AbcValues1();
    QuadIs(x, AbcWords, 8, r);
    QuadIs(x, AbcWords, 12, r);
  }

  lemma AbcValues2()
    ensures Quad(16, R(0xdda9b9a6, 0x72aff2e0, 0xe396856b, 0xa1051895),
        0x0, 5, 0xf61e2562, 0x0, 9, 0xc040b340,
        0x0, 14, 0x265e5a51, 0x80636261, 20, 0xe9b6c7aa)
         == R(0x3e9e9126, 0xb5b204e4, 0xe25e1652, 0x4a1d804e)
    ensures Quad(20, R(0x3e9e9126, 0xb5b204e4, 0xe25e1652, 0x4a1d804e),
        0x0, 5, 0xd62f105d, 0x0, 9, 0x2441453,
        0x0, 14, 0xd8a1e681, 0x0, 20, 0xe7d3fbc8)
         == R(0x59a8ffda, 0x47092c07, 0xabfc7920, 0x6d002f1e)
    ensures Quad(24, R(0x59a8ffda, 0x47092c07, 0xabfc7920, 0x6d002f1e),
        0x0, 5, 0x21e1cde6, 0x18, 9, 0xc33707d6,
        0x0, 14, 0xf4d50d87, 0x0, 20, 0x455a14ed)
         == R(0xb7f268cf, 0x786acb8f, 0xfe1623b1, 0x09388eff)
    ensures Quad(28, R(0xb7f268cf, 0x786acb8f, 0xfe1623b1, 0x09388eff),
        0x0, 5, 0xa9e3e905, 0x0, 9, 0xfcefa3f8,
        0x0, 14, 0x676f02d9, 0x0, 20, 0x8d2a4c8a)
         == R(0x790a77fb, 0x726342d3, 0xa62884aa, 0x9f47e4f8)
  {}

  lemma AbcPart3(x: seq<Word>, r: Regs)
    requires Holds(x, AbcWords) && Ops(r, x, 16) == R(0xdda9b9a6, 0x72aff2e0, 0xe396856b, 0xa1051895)
    ensures Ops(r, x, 24) == R(0x59a8ffda, 0x47092c07, 0xabfc7920, 0x6d002f1e)
  {
    hide Op, Ops, Do, Schedule, WordOf, R, Holds;
    Rows3();
    AbcValues2();
    QuadIs(x, AbcWords, 16, r);
    QuadIs(x, AbcWords, 20, r);
  }

  lemma AbcPart4(x: seq<Word>, r: Regs)
    requires Holds(x, AbcWords) && Ops(r, x, 24) == R(0x59a8ffda, 0x47092c07, 0xabfc7920, 0x6d002f1e)
    ensures Ops(r, x, 32) == R(0x790a77fb, 0x726342d3, 0xa62884aa, 0x9f47e4f8)
  {
    hide Op, Ops, Do, Schedule, WordOf, R, Holds;
    Rows4();
    AbcValues2();
    QuadIs(x, AbcWords, 24, r);
    QuadIs(x, AbcWords, 28, r);
  }

  lemma AbcValues3()
    ensures Quad(32, R(0x790a77fb, 0x726342d3, 0xa62884aa, 0x9f47e4f8),
        0x0, 4, 0xfffa3942, 0x0, 11, 0x8771f681,
        0x0, 16, 0x6d9d6122, 0x18, 23, 0xfde5380c)
         == R(0xb3707ebf, 0x3b0875c7, 0x8d212ff5, 0x60127b2e)
    ensures Quad(36, R(0xb3707ebf, 0x3b0875c7, 0x8d212ff5, 0x60127b2e),
        0x0, 4, 0xa4beea44, 0x0, 11, 0x4bdecfa9,
        0x0, 16, 0xf6bb4b60, 0x0, 23, 0xbebfbc70)
         == R(0x21b117b9, 0x5a2f5ea5, 0x3575227e, 0x6e7429d5)
    ensures Quad(40, R(0x21b117b9, 0x5a2f5ea5, 0x3575227e, 0x6e7429d5),
        0x0, 4, 0x289b7ec6, 0x80636261, 11, 0xeaa127fa,
        0x0, 16, 0xd4ef3085, 0x0, 23, 0x4881d05)
         == R(0x11de1779, 0x4c6124f4, 0x31c465ca, 0xfadcaa38)
    ensures Quad(44, R(0x11de1779, 0x4c6124f4, 0x31c465ca, 0xfadcaa38),
        0x0, 4, 0xd9d4d039, 0x0, 11, 0xe6db99e5,
        0x0, 16, 0x1fa27cf8, 0x0, 23, 0xc4ac5665)
         == R(0x7f2e507b, 0x7beb9700, 0x8fae6399, 0x99d9679d)
  {}

  lemma AbcPart5(x: seq<Word>, r: Regs)
    requires Holds(x, AbcWords) && Ops(r, x, 32) == R(0x790a77fb, 0x726342d3, 0xa62884aa, 0x9f47e4f8)
    ensures Ops(r, x, 40) == R(0x21b117b9, 0x5a2f5ea5, 0x3575227e, 0x6e7429d5)
  {
    hide Op, Ops, Do, Schedule, WordOf, R, Holds;
    Rows5();
    AbcValues3();
    QuadIs(x, AbcWords, 32, r);
    QuadIs(x, AbcWords, 36, r);
  }

  lemma AbcPart6(x: seq<Word>, r: Regs)
    requires Holds(x, AbcWords) && Ops(r, x, 40) == R(0x21b117b9, 0x5a2f5ea5, 0x3575227e, 0x6e7429d5)
    ensures Ops(r, x, 48) == R(0x7f2e507b, 0x7beb9700, 0x8fae6399, 0x99d9679d)
  {
    hide Op, Ops, Do, Schedule, WordOf, R, Holds;
    Rows6();
    AbcValues3();
    QuadIs(x, AbcWords, 40, r);
    QuadIs(x, AbcWords, 44, r);
  }

  lemma AbcValues4()
    ensures Quad(48, R(0x7f2e507b, 0x7beb9700, 0x8fae6399, 0x99d9679d),
        0x80636261, 6, 0xf4292244, 0x0, 10, 0x432aff97,
        0x18, 15, 0xab9423a7, 0x0, 21, 0xfc93a039)
         == R(0x7b201df8, 0x8bf025c4, 0xb298cefd, 0xf4e8e96e)
    ensures Quad(52, R(0x7b201df8, 0x8bf025c4, 0xb298cefd, 0xf4e8e96e),
        0x0, 6, 0x655b59c3, 0x0, 10, 0x8f0ccc92,
        0x0, 15, 0xffeff47d, 0x0, 21, 0x85845dd1)
         == R(0x06cc5e8a, 0x3bfa2c27, 0x7d632dd0, 0x5b0d97aa)
    ensures Quad(56, R(0x06cc5e8a, 0x3bfa2c27, 0x7d632dd0, 0x5b0d97aa),
        0x0, 6, 0x6fa87e4f, 0x0, 10, 0xfe2ce6e0,
        0x0, 15, 0xa3014314, 0x0, 21, 0x4e0811a1)
         == R(0x7f81cc35, 0x7327d604, 0x4f9dbe3f, 0x094454ab)
    ensures Quad(60, R(0x7f81cc35, 0x7327d604, 0x4f9dbe3f, 0x094454ab),
        0x0, 6, 0xf7537e82, 0x0, 10, 0xbd3af235,
        0x0, 15, 0x2ad7d2bb, 0x0, 21, 0xeb86d391)
         == R(0x310ade8f, 0xc08226b3, 0xe484b9d8, 0x624d8cb2)
  {}

  lemma AbcPart7(x: seq<Word>, r: Regs)
    requires Holds(x, AbcWords) && Ops(r, x, 48) == R(0x7f2e507b, 0x7beb9700, 0x8fae6399, 0x99d9679d)
    ensures Ops(r, x, 56) == R(0x06cc5e8a, 0x3bfa2c27, 0x7d632dd0, 0x5b0d97aa)
  {
    hide Op, Ops, Do, Schedule, WordOf, R, Holds;
    Rows7();
    AbcValues4();
    QuadIs(x, AbcWords, 48, r);
    QuadIs(x, AbcWords, 52, r);
  }

  lemma AbcPart8(x: seq<Word>, r: Regs)
    requires Holds(x, AbcWords) && Ops(r, x, 56) == R(0x06cc5e8a, 0x3bfa2c27, 0x7d632dd0, 0x5b0d97aa)
    ensures Ops(r, x, 64) == R(0x310ade8f, 0xc08226b3, 0xe484b9d8, 0x624d8cb2)
  {
    hide Op, Ops, Do, Schedule, WordOf, R, Holds;
    Rows8();
    AbcValues4();
    QuadIs(x, AbcWords, 56, r);
    QuadIs(x, AbcWords, 60, r);
  }

  // ---------------------------------------------------------------- 80 digits, the first block

  const FirstWords: seq<bv32> := [0x34333231, 0x38373635, 0x32313039, 0x36353433, 0x30393837, 0x34333231, 0x38373635,
      0x32313039, 0x36353433, 0x30393837, 0x34333231, 0x38373635, 0x32313039, 0x36353433, 0x30393837, 0x34333231]

  lemma FirstValues1()
    ensures Quad(0, R(0x67452301, 0xefcdab89, 0x98badcfe, 0x10325476),
        0x34333231, 7, 0xd76aa478, 0x38373635, 12, 0xe8c7b756,
        0x32313039, 17, 0x242070db, 0x36353433, 22, 0xc1bdceee)
         == R(0xbeb8ff8e, 0x862797b0, 0xf8cdf95d, 0x7d989d89)
    ensures Quad(4, R(0xbeb8ff8e, 0x862797b0, 0xf8cdf95d, 0x7d989d89),
        0x30393837, 7, 0xf57c0faf, 0x34333231, 12, 0x4787c62a,
        0x38373635, 17, 0xa8304613, 0x32313039, 22, 0xfd469501)
         == R(0x8c17de9f, 0xc57e78c1, 0xe99fec1b, 0xc0f32d81)
    ensures Quad(8, R(0x8c17de9f, 0xc57e78c1, 0xe99fec1b, 0xc0f32d81),
        0x36353433, 7, 0x698098d8, 0x30393837, 12, 0x8b44f7af,
        0x34333231, 17, 0xffff5bb1, 0x38373635, 22, 0x895cd7be)
         == R(0x7c0aceb7, 0xa5f36f8d, 0x5186a8ba, 0x8869d2d8)
    ensures Quad(12, R(0x7c0aceb7, 0xa5f36f8d, 0x5186a8ba, 0x8869d2d8),
        0x32313039, 7, 0x6b901122, 0x36353433, 12, 0xfd987193,
        0x30393837, 17, 0xa679438e, 0x34333231, 22, 0x49b40821)
         == R(0x5157e49e, 0xaf506a03, 0x27e983a0, 0xffac907e)
  {}

  lemma FirstPart1(x: seq<Word>, r: Regs)
    requires Holds(x, FirstWords) && Ops(r, x, 0) == R(0x67452301, 0xefcdab89, 0x98badcfe, 0x10325476)
    ensures Ops(r, x, 8) == R(0x8c17de9f, 0xc57e78c1, 0xe99fec1b, 0xc0f32d81)
  {
    hide Op, Ops, Do, Schedule, WordOf, R, Holds;
    Rows1();
    FirstValues1();
    QuadIs(x, FirstWords, 0, r);
    QuadIs(x, FirstWords, 4, r);
  }

  lemma FirstPart2(x: seq<Word>, r: Regs)
    requires Holds(x, FirstWords) && Ops(r, x, 8) == R(0x8c17de9f, 0xc57e78c1, 0xe99fec1b, 0xc0f32d81)
    ensures Ops(r, x, 16) == R(0x5157e49e, 0xaf506a03, 0x27e983a0, 0xffac907e)
  {
    hide Op, Ops, Do, Schedule, WordOf, R, Holds;
    Rows2();
    FirstValues1();
    QuadIs(x, FirstWords, 8, r);
    QuadIs(x, FirstWords, 12, r);
  }

  lemma FirstValues2()
    ensures Quad(16, R(0x5157e49e, 0xaf506a03, 0x27e983a0, 0xffac907e),
        0x38373635, 5, 0xf61e2562, 0x38373635, 9, 0xc040b340,
        0x38373635, 14, 0x265e5a51, 0x34333231, 20, 0xe9b6c7aa)
         == R(0x8d18e0e8, 0x04280170, 0xef223167, 0x07de0df2)
    ensures Quad(20, R(0x8d18e0e8, 0x04280170, 0xef223167, 0x07de0df2),
        0x34333231, 5, 0xd62f105d, 0x34333231, 9, 0x2441453,
        0x34333231, 14, 0xd8a1e681, 0x30393837, 20, 0xe7d3fbc8)
         == R(0x78929ee0, 0xad400a91, 0xb18aca50, 0x375c6c2c)
    ensures Quad(24, R(0x78929ee0, 0xad400a91, 0xb18aca50, 0x375c6c2c),
        0x30393837, 5, 0x21e1cde6, 0x30393837, 9, 0xc33707d6,
        0x36353433, 14, 0xf4d50d87, 0x36353433, 20, 0x455a14ed)
         == R(0xbb45f43f, 0xb70e35a9, 0x98ade6b5, 0xd61f8a0f)
    ensures Quad(28, R(0xbb45f43f, 0xb70e35a9, 0x98ade6b5, 0xd61f8a0f),
        0x36353433, 5, 0xa9e3e905, 0x32313039, 9, 0xfcefa3f8,
        0x32313039, 14, 0x676f02d9, 0x32313039, 20, 0x8d2a4c8a)
         == R(0xf8bcfbb0, 0x1bf25662, 0x99a0f1b8, 0xd760ed39)
  {}

  lemma FirstPart3(x: seq<Word>, r: Regs)
    requires Holds(x, FirstWords) && Ops(r, x, 16) == R(0x5157e49e, 0xaf506a03, 0x27e983a0, 0xffac907e)
    ensures Ops(r, x, 24) == R(0x78929ee0, 0xad400a91, 0xb18aca50, 0x375c6c2c)
  {
    hide Op, Ops, Do, Schedule, WordOf, R, Holds;
    Rows3();
    FirstValues2();
    QuadIs(x, FirstWords, 16, r);
    QuadIs(x, FirstWords, 20, r);
  }

  lemma FirstPart4(x: seq<Word>, r: Regs)
    requires Holds(x, FirstWords) && Ops(r, x, 24) == R(0x78929ee0, 0xad400a91, 0xb18aca50, 0x375c6c2c)
    ensures Ops(r, x, 32) == R(0xf8bcfbb0, 0x1bf25662, 0x99a0f1b8, 0xd760ed39)
  {
    hide Op, Ops, Do, Schedule, WordOf, R, Holds;
    Rows4();
    FirstValues2();
    QuadIs(x, FirstWords, 24, r);
    QuadIs(x, FirstWords, 28, r);
  }

  lemma FirstValues3()
    ensures Quad(32, R(0xf8bcfbb0, 0x1bf25662, 0x99a0f1b8, 0xd760ed39),
        0x34333231, 4, 0xfffa3942, 0x36353433, 11, 0x8771f681,
        0x38373635, 16, 0x6d9d6122, 0x30393837, 23, 0xfde5380c)
         == R(0x3dbd76ca, 0xe0162f49, 0xc7ed7c30, 0xfd056171)
    ensures Quad(36, R(0x3dbd76ca, 0xe0162f49, 0xc7ed7c30, 0xfd056171),
        0x38373635, 4, 0xa4beea44, 0x30393837, 11, 0x4bdecfa9,
        0x32313039, 16, 0xf6bb4b60, 0x34333231, 23, 0xbebfbc70)
         == R(0x3b32c408, 0x1d4d6f72, 0x9ef871ad, 0x7338d8b7)
    ensures Quad(40, R(0x3b32c408, 0x1d4d6f72, 0x9ef871ad, 0x7338d8b7),
        0x36353433, 4, 0x289b7ec6, 0x34333231, 11, 0xeaa127fa,
        0x36353433, 16, 0xd4ef3085, 0x38373635, 23, 0x4881d05)
         == R(0xc661460a, 0x89e3c4d7, 0xd6d5b879, 0xd2bf04c9)
    ensures Quad(44, R(0xc661460a, 0x89e3c4d7, 0xd6d5b879, 0xd2bf04c9),
        0x30393837, 4, 0xd9d4d039, 0x32313039, 11, 0xe6db99e5,
        0x34333231, 16, 0x1fa27cf8, 0x32313039, 23, 0xc4ac5665)
         == R(0x697032ec, 0xdb4197da, 0xefc2c171, 0xfa597bfc)
  {}

  lemma FirstPart5(x: seq<Word>, r: Regs)
    requires Holds(x, FirstWords) && Ops(r, x, 32) == R(0xf8bcfbb0, 0x1bf25662, 0x99a0f1b8, 0xd760ed39)
    ensures Ops(r, x, 40) == R(0x3b32c408, 0x1d4d6f72, 0x9ef871ad, 0x7338d8b7)
  {
    hide Op, Ops, Do, Schedule, WordOf, R, Holds;
    Rows5();
    FirstValues3();
    QuadIs(x, FirstWords, 32, r);
    QuadIs(x, FirstWords, 36, r);
  }

  lemma FirstPart6(x: seq<Word>, r: Regs)
    requires Holds(x, FirstWords) && Ops(r, x, 40) == R(0x3b32c408, 0x1d4d6f72, 0x9ef871ad, 0x7338d8b7)
    ensures Ops(r, x, 48) == R(0x697032ec, 0xdb4197da, 0xefc2c171, 0xfa597bfc)
  {
    hide Op, Ops, Do, Schedule, WordOf, R, Holds;
    Rows6();
    FirstValues3();
    QuadIs(x, FirstWords, 40, r);
    QuadIs(x, FirstWords, 44, r);
  }

  lemma FirstValues4()
    ensures Quad(48, R(0x697032ec, 0xdb4197da, 0xefc2c171, 0xfa597bfc),
        0x34333231, 6, 0xf4292244, 0x32313039, 10, 0x432aff97,
        0x30393837, 15, 0xab9423a7, 0x34333231, 21, 0xfc93a039)
         == R(0x57b91aca, 0xcaa25b01, 0x21efbd88, 0x210c9ebc)
    ensures Quad(52, R(0x57b91aca, 0xcaa25b01, 0x21efbd88, 0x210c9ebc),
        0x32313039, 6, 0x655b59c3, 0x36353433, 10, 0x8f0ccc92,
        0x34333231, 15, 0xffeff47d, 0x38373635, 21, 0x85845dd1)
         == R(0x633d3f7c, 0x7713f5df, 0xccaa1524, 0x1a4d3beb)
    ensures Quad(56, R(0x633d3f7c, 0x7713f5df, 0xccaa1524, 0x1a4d3beb),
        0x36353433, 6, 0x6fa87e4f, 0x34333231, 10, 0xfe2ce6e0,
        0x38373635, 15, 0xa3014314, 0x36353433, 21, 0x4e0811a1)
         == R(0x8448b430, 0x660a801d, 0x7e294727, 0x71c93463)
    ensures Quad(60, R(0x8448b430, 0x660a801d, 0x7e294727, 0x71c93463),
        0x30393837, 6, 0xf7537e82, 0x38373635, 10, 0xbd3af235,
        0x32313039, 15, 0x2ad7d2bb, 0x30393837, 21, 0xeb86d391)
         == R(0x614868eb, 0xb4d33102, 0x5133129b, 0xa09f38a7)
  {}

  lemma FirstPart7(x: seq<Word>, r: Regs)
    requires Holds(x, FirstWords) && Ops(r, x, 48) == R(0x697032ec, 0xdb4197da, 0xefc2c171, 0xfa597bfc)
    ensures Ops(r, x, 56) == R(0x633d3f7c, 0x7713f5df, 0xccaa1524, 0x1a4d3beb)
  {
    hide Op, Ops, Do, Schedule, WordOf, R, Holds;
    Rows7();
    FirstValues4();
    QuadIs(x, FirstWords, 48, r);
    QuadIs(x, FirstWords, 52, r);
  }

  lemma FirstPart8(x: seq<Word>, r: Regs)
    requires Holds(x, FirstWords) && Ops(r, x, 56) == R(0x633d3f7c, 0x7713f5df, 0xccaa1524, 0x1a4d3beb)
    ensures Ops(r, x, 64) == R(0x614868eb, 0xb4d33102, 0x5133129b, 0xa09f38a7)
  {
    hide Op, Ops, Do, Schedule, WordOf, R, Holds;
    Rows8();
    FirstValues4();
    QuadIs(x, FirstWords, 56, r);
    QuadIs(x, FirstWords, 60, r);
  }

  // ---------------------------------------------------------------- 80 digits, the second block

  const SecondWords: seq<bv32> := [0x38373635, 0x32313039, 0x36353433, 0x30393837, 0x80, 0x0, 0x0, 0x0,
      0x0, 0x0, 0x0, 0x0, 0x0, 0x0, 0x280, 0x0]

  lemma SecondValues1()
    ensures Quad(0, R(0xc88d8bec, 0xa4a0dc8b, 0xe9edef99, 0xb0d18d1d),
        0x38373635, 7, 0xd76aa478, 0x32313039, 12, 0xe8c7b756,
        0x36353433, 17, 0x242070db, 0x30393837, 22, 0xc1bdceee)
         == R(0x353af7cf, 0x45e88f2c, 0x63356537, 0x3a4f735a)
    ensures Quad(4, R(0x353af7cf, 0x45e88f2c, 0x63356537, 0x3a4f735a),
        0x80, 7, 0xf57c0faf, 0x0, 12, 0x4787c62a,
        0x0, 17, 0xa8304613, 0x0, 22, 0xfd469501)
         == R(0x3527497e, 0x377c7d0a, 0x948347ae, 0xab92660e)
    ensures Quad(8, R(0x3527497e, 0x377c7d0a, 0x948347ae, 0xab92660e),
        0x0, 7, 0x698098d8, 0x0, 12, 0x8b44f7af,
        0x0, 17, 0xffff5bb1, 0x0, 22, 0x895cd7be)
         == R(0xcc912f27, 0xb9ede40c, 0xae23894d, 0x6945a3d5)
    ensures Quad(12, R(0xcc912f27, 0xb9ede40c, 0xae23894d, 0x6945a3d5),
        0x0, 7, 0x6b901122, 0x0, 12, 0xfd987193,
        0x280, 17, 0xa679438e, 0x0, 22, 0x49b40821)
         == R(0xdb4ff71c, 0x58b12eab, 0x04396a39, 0x9b6b4960)
  {}

  lemma SecondPart1(x: seq<Word>, r: Regs)
    requires Holds(x, SecondWords) && Ops(r, x, 0) == R(0xc88d8bec, 0xa4a0dc8b, 0xe9edef99, 0xb0d18d1d)
    ensures Ops(r, x, 8) == R(0x3527497e, 0x377c7d0a, 0x948347ae, 0xab92660e)
  {
    hide Op, Ops, Do, Schedule, WordOf, R, Holds;
    Rows1();
    SecondValues1();
    QuadIs(x, SecondWords, 0, r);
    QuadIs(x, SecondWords, 4, r);
  }

  lemma SecondPart2(x: seq<Word>, r: Regs)
    requires Holds(x, SecondWords) && Ops(r, x, 8) == R(0x3527497e, 0x377c7d0a, 0x948347ae, 0xab92660e)
    ensures Ops(r, x, 16) == R(0xdb4ff71c, 0x58b12eab, 0x04396a39, 0x9b6b4960)
  {
    hide Op, Ops, Do, Schedule, WordOf, R, Holds;
    Rows2();
    SecondValues1();
    QuadIs(x, SecondWords, 8, r);
    QuadIs(x, SecondWords, 12, r);
  }

  lemma SecondValues2()
    ensures Quad(16, R(0xdb4ff71c, 0x58b12eab, 0x04396a39, 0x9b6b4960),
        0x32313039, 5, 0xf61e2562, 0x0, 9, 0xc040b340,
        0x0, 14, 0x265e5a51, 0x38373635, 20, 0xe9b6c7aa)
         == R(0x52c00cae, 0x50f8de8c, 0xa476af6f, 0xaad2a216)
    ensures Quad(20, R(0x52c00cae, 0x50f8de8c, 0xa476af6f, 0xaad2a216),
        0x0, 5, 0xd62f105d, 0x0, 9, 0x2441453,
        0x0, 14, 0xd8a1e681, 0x80, 20, 0xe7d3fbc8)
         == R(0x0d6e6d91, 0x043cb080, 0xd5b7a850, 0x17d64195)
    ensures Quad(24, R(0x0d6e6d91, 0x043cb080, 0xd5b7a850, 0x17d64195),
        0x0, 5, 0x21e1cde6, 0x280, 9, 0xc33707d6,
        0x30393837, 14, 0xf4d50d87, 0x0, 20, 0x455a14ed)
         == R(0x74f9377e, 0xcb00b96e, 0xe775c8ca, 0x01f2addd)
    ensures Quad(28, R(0x74f9377e, 0xcb00b96e, 0xe775c8ca, 0x01f2addd),
        0x0, 5, 0xa9e3e905, 0x36353433, 9, 0xfcefa3f8,
        0x0, 14, 0x676f02d9, 0x0, 20, 0x8d2a4c8a)
         == R(0x8761f38e, 0x67092c33, 0x061bc867, 0x7a516116)
  {}

  lemma SecondPart3(x: seq<Word>, r: Regs)
    requires Holds(x, SecondWords) && Ops(r, x, 16) == R(0xdb4ff71c, 0x58b12eab, 0x04396a39, 0x9b6b4960)
    ensures Ops(r, x, 24) == R(0x0d6e6d91, 0x043cb080, 0xd5b7a850, 0x17d64195)
  {
    hide Op, Ops, Do, Schedule, WordOf, R, Holds;
    Rows3();
    SecondValues2();
    QuadIs(x, SecondWords, 16, r);
    QuadIs(x, SecondWords, 20, r);
  }

  lemma SecondPart4(x: seq<Word>, r: Regs)
    requires Holds(x, SecondWords) && Ops(r, x, 24) == R(0x0d6e6d91, 0x043cb080, 0xd5b7a850, 0x17d64195)
    ensures Ops(r, x, 32) == R(0x8761f38e, 0x67092c33, 0x061bc867, 0x7a516116)
  {
    hide Op, Ops, Do, Schedule, WordOf, R, Holds;
    Rows4();
    SecondValues2();
    QuadIs(x, SecondWords, 24, r);
    QuadIs(x, SecondWords, 28, r);
  }

  lemma SecondValues3()
    ensures Quad(32, R(0x8761f38e, 0x67092c33, 0x061bc867, 0x7a516116),
        0x0, 4, 0xfffa3942, 0x0, 11, 0x8771f681,
        0x0, 16, 0x6d9d6122, 0x280, 23, 0xfde5380c)
         == R(0x91044d5d, 0x2ee1e3fe, 0xc0175fa8, 0x610954eb)
    ensures Quad(36, R(0x91044d5d, 0x2ee1e3fe, 0xc0175fa8, 0x610954eb),
        0x32313039, 4, 0xa4beea44, 0x80, 11, 0x4bdecfa9,
        0x0, 16, 0xf6bb4b60, 0x0, 23, 0xbebfbc70)
         == R(0xae26ed7d, 0xdbd1bff6, 0xff4a94dc, 0x71d8ecea)
    ensures Quad(40, R(0xae26ed7d, 0xdbd1bff6, 0xff4a94dc, 0x71d8ecea),
        0x0, 4, 0x289b7ec6, 0x38373635, 11, 0xeaa127fa,
        0x30393837, 16, 0xd4ef3085, 0x0, 23, 0x4881d05)
         == R(0x9c350028, 0x56b3692f, 0xfacaaf06, 0x97e5da92)
    ensures Quad(44, R(0x9c350028, 0x56b3692f, 0xfacaaf06, 0x97e5da92),
        0x0, 4, 0xd9d4d039, 0x0, 11, 0xe6db99e5,
        0x0, 16, 0x1fa27cf8, 0x36353433, 23, 0xc4ac5665)
         == R(0x71123afa, 0x1df7010a, 0xe6a8a386, 0xdc9c8ddb)
  {}

  lemma SecondPart5(x: seq<Word>, r: Regs)
    requires Holds(x, SecondWords) && Ops(r, x, 32) == R(0x8761f38e, 0x67092c33, 0x061bc867, 0x7a516116)
    ensures Ops(r, x, 40) == R(0xae26ed7d, 0xdbd1bff6, 0xff4a94dc, 0x71d8ecea)
  {
    hide Op, Ops, Do, Schedule, WordOf, R, Holds;
    Rows5();
    SecondValues3();
    QuadIs(x, SecondWords, 32, r);
    QuadIs(x, SecondWords, 36, r);
  }

  lemma SecondPart6(x: seq<Word>, r: Regs)
    requires Holds(x, SecondWords) && Ops(r, x, 40) == R(0xae26ed7d, 0xdbd1bff6, 0xff4a94dc, 0x71d8ecea)
    ensures Ops(r, x, 48) == R(0x71123afa, 0x1df7010a, 0xe6a8a386, 0xdc9c8ddb)
  {
    hide Op, Ops, Do, Schedule, WordOf, R, Holds;
    Rows6();
    SecondValues3();
    QuadIs(x, SecondWords, 40, r);
    QuadIs(x, SecondWords, 44, r);
  }

  lemma SecondValues4()
    ensures Quad(48, R(0x71123afa, 0x1df7010a, 0xe6a8a386, 0xdc9c8ddb),
        0x38373635, 6, 0xf4292244, 0x0, 10, 0x432aff97,
        0x280, 15, 0xab9423a7, 0x0, 21, 0xfc93a039)
         == R(0xd29007e7, 0xc8797828, 0xd3248109, 0x7241a77e)
    ensures Quad(52, R(0xd29007e7, 0xc8797828, 0xd3248109, 0x7241a77e),
        0x0, 6, 0x655b59c3, 0x30393837, 10, 0x8f0ccc92,
        0x0, 15, 0xffeff47d, 0x32313039, 21, 0x85845dd1)
         == R(0x7a504abd, 0x9b31b114, 0xa290d6ce, 0x211cc65d)
    ensures Quad(56, R(0x7a504abd, 0x9b31b114, 0xa290d6ce, 0x211cc65d),
        0x0, 6, 0x6fa87e4f, 0x0, 10, 0xfe2ce6e0,
        0x0, 15, 0xa3014314, 0x0, 21, 0x4e0811a1)
         == R(0x723fd22d, 0x4dc4f33d, 0x3d79cf74, 0xd21d6a3b)
    ensures Quad(60, R(0x723fd22d, 0x4dc4f33d, 0x3d79cf74, 0xd21d6a3b),
        0x80, 6, 0xf7537e82, 0x0, 10, 0xbd3af235,
        0x36353433, 15, 0x2ad7d2bb, 0x0, 21, 0xeb86d391)
         == R(0xda67616b, 0xb12906a0, 0x44ec5a13, 0xc9e47a04)
  {}

  lemma SecondPart7(x: seq<Word>, r: Regs)
    requires Holds(x, SecondWords) && Ops(r, x, 48) == R(0x71123afa, 0x1df7010a, 0xe6a8a386, 0xdc9c8ddb)
    ensures Ops(r, x, 56) == R(0x7a504abd, 0x9b31b114, 0xa290d6ce, 0x211cc65d)
  {
    hide Op, Ops, Do, Schedule, WordOf, R, Holds;
    Rows7();
    SecondValues4();
    QuadIs(x, SecondWords, 48, r);
    QuadIs(x, SecondWords, 52, r);
  }

  lemma SecondPart8(x: seq<Word>, r: Regs)
    requires Holds(x, SecondWords) && Ops(r, x, 56) == R(0x7a504abd, 0x9b31b114, 0xa290d6ce, 0x211cc65d)
    ensures Ops(r, x, 64) == R(0xda67616b, 0xb12906a0, 0x44ec5a13, 0xc9e47a04)
  {
    hide Op, Ops, Do, Schedule, WordOf, R, Holds;
    Rows8();
    SecondValues4();
    QuadIs(x, SecondWords, 56, r);
    QuadIs(x, SecondWords, 60, r);
  }
}
