/**
 * The transformation of md5.c, unrolled as it is written there: four rounds of sixteen steps on a, b, c, d, words of
 * 32 + k bits.
 */
module Md5Body {
  import opened Bytes
  import opened Md5Words
  import opened Unsigned
  import Rfc = Md5Rfc

  /** The first `n` words of the current block are stored. */
  ghost predicate Stored(block: array<nat>, ptr: seq<byte>, n: nat)
    requires block.Length == 16 && |ptr| == 64
    reads block
  {
    n <= 16 && forall j :: 0 <= j < n ==> Low(block[j]) == Rfc.WordAt(ptr, j)
  }

  /** The lower halves of stored words. */
  function LowAll(ws: seq<nat>): (xs: seq<Rfc.Word>)
    ensures |xs| == |ws|
    ensures forall j :: 0 <= j < |ws| ==> xs[j] == Low(ws[j])
  {
    seq(|ws|, j requires 0 <= j < |ws| => Low(ws[j]))
  }

  lemma AllStored(block: array<nat>, ptr: seq<byte>)
    requires block.Length == 16 && |ptr| == 64 && Stored(block, ptr, 16)
    ensures LowAll(block[..]) == Rfc.Words(ptr)
  {
    hide Low, Rfc.WordAt;
  }

  lemma NoneStored(block: array<nat>, ptr: seq<byte>)
    requires block.Length == 16 && |ptr| == 64
    ensures Stored(block, ptr, 0)
  {}

  /** SET(n): store the n-th word of the current block, after the ones before it, and yield it. */
  method Set(block: array<nat>, ptr: seq<byte>, n: nat, k: nat) returns (w: nat)
    requires block.Length == 16 && |ptr| == 64 && n < 16
    requires Stored(block, ptr, n)
    modifies block
    ensures Stored(block, ptr, n + 1)
    ensures Low(w) == Rfc.Words(ptr)[n] && Fits(w, k)
  {
    hide Low, Fits, SetWord, Rfc.Join;
    w := SetWord(ptr[n * 4], ptr[n * 4 + 1], ptr[n * 4 + 2], ptr[n * 4 + 3], k);
    SetIsRfc(ptr[n * 4], ptr[n * 4 + 1], ptr[n * 4 + 2], ptr[n * 4 + 3], k);
    block[n] := w;
  }

  predicate FitAll(a: nat, b: nat, c: nat, d: nat, k: nat)
  {
    Fits(a, k) && Fits(b, k) && Fits(c, k) && Fits(d, k)
  }

  /** Four operations return every register to its own name. */
  lemma Quad(r: Rfc.Regs, x: seq<Rfc.Word>, n: nat, s: Rfc.Regs, t: Rfc.Regs)
    requires |x| == 16
    requires s == Rfc.Ops(r, x, n)
    requires t.a == Rfc.OpWord(n, s.a, s.b, s.c, s.d, x)
    requires t.d == Rfc.OpWord(n + 1, s.d, t.a, s.b, s.c, x)
    requires t.c == Rfc.OpWord(n + 2, s.c, t.d, t.a, s.b, x)
    requires t.b == Rfc.OpWord(n + 3, s.b, t.c, t.d, t.a, x)
    ensures t == Rfc.Ops(r, x, n + 4)
  {
    hide Rfc.OpWord;
    assert Rfc.Ops(r, x, n + 2) == Rfc.Op(n + 1, Rfc.Ops(r, x, n + 1), x);
    assert Rfc.Ops(r, x, n + 4) == Rfc.Op(n + 3, Rfc.Ops(r, x, n + 3), x);
  }

  /** Round 1, in three pieces, fills `block` as it goes. */
  method Round1(block: array<nat>, ptr: seq<byte>, k: nat, a0: nat, b0: nat, c0: nat, d0: nat, ghost r0: Rfc.Regs)
    returns (a: nat, b: nat, c: nat, d: nat)
    requires block.Length == 16 && |ptr| == 64
    requires Lows(a0, b0, c0, d0) == Rfc.Ops(r0, Rfc.Words(ptr), 0)
    modifies block
    ensures Lows(a, b, c, d) == Rfc.Ops(r0, Rfc.Words(ptr), 16)
    ensures FitAll(a, b, c, d, k)
    ensures LowAll(block[..]) == Rfc.Words(ptr)
  {
    hide Low, Fits, Rfc.Ops, Rfc.Words, Stored;
    NoneStored(block, ptr);
    a, b, c, d := Round1Front(block, ptr, k, a0, b0, c0, d0, r0);
    a, b, c, d := Round1Middle(block, ptr, k, a, b, c, d, r0);
    a, b, c, d := Round1Back(block, ptr, k, a, b, c, d, r0);
    AllStored(block, ptr);
  }

  method Round1Front(block: array<nat>, ptr: seq<byte>, k: nat, a0: nat, b0: nat, c0: nat, d0: nat, ghost r0: Rfc.Regs)
    returns (a: nat, b: nat, c: nat, d: nat)
    requires block.Length == 16 && |ptr| == 64 && Stored(block, ptr, 0)
    requires Lows(a0, b0, c0, d0) == Rfc.Ops(r0, Rfc.Words(ptr), 0)
    modifies block
    ensures Lows(a, b, c, d) == Rfc.Ops(r0, Rfc.Words(ptr), 8)
    ensures Stored(block, ptr, 8)
  {
    hide Low, Fits, Rfc.OpWord, Rfc.Ops, Rfc.Words, Rfc.WordAt, Stored;
    ghost var xs := Rfc.Words(ptr);
    var x: nat;
    a, b, c, d := a0, b0, c0, d0;
    ghost var from := Lows(a, b, c, d);
    x := Set(block, ptr, 0, k);
    a := StepF(0, xs, k, a, b, c, d, x, 0xd76aa478, 7);
    x := Set(block, ptr, 1, k);
    d := StepF(1, xs, k, d, a, b, c, x, 0xe8c7b756, 12);
    x := Set(block, ptr, 2, k);
    c := StepF(2, xs, k, c, d, a, b, x, 0x242070db, 17);
    x := Set(block, ptr, 3, k);
    b := StepF(3, xs, k, b, c, d, a, x, 0xc1bdceee, 22);
    Quad(r0, xs, 0, from, Lows(a, b, c, d)); from := Lows(a, b, c, d);
    x := Set(block, ptr, 4, k);
    a := StepF(4, xs, k, a, b, c, d, x, 0xf57c0faf, 7);
    x := Set(block, ptr, 5, k);
    d := StepF(5, xs, k, d, a, b, c, x, 0x4787c62a, 12);
    x := Set(block, ptr, 6, k);
    c := StepF(6, xs, k, c, d, a, b, x, 0xa8304613, 17);
    x := Set(block, ptr, 7, k);
    b := StepF(7, xs, k, b, c, d, a, x, 0xfd469501, 22);
    Quad(r0, xs, 4, from, Lows(a, b, c, d));
  }

  method Round1Middle(block: array<nat>, ptr: seq<byte>, k: nat, a0: nat, b0: nat, c0: nat, d0: nat, ghost r0: Rfc.Regs)
    returns (a: nat, b: nat, c: nat, d: nat)
    requires block.Length == 16 && |ptr| == 64 && Stored(block, ptr, 8)
    requires Lows(a0, b0, c0, d0) == Rfc.Ops(r0, Rfc.Words(ptr), 8)
    modifies block
    ensures Lows(a, b, c, d) == Rfc.Ops(r0, Rfc.Words(ptr), 12)
    ensures Stored(block, ptr, 12)
  {
    hide Low, Fits, Rfc.OpWord, Rfc.Ops, Rfc.Words, Rfc.WordAt, Stored;
    ghost var xs := Rfc.Words(ptr);
    var x: nat;
    a, b, c, d := a0, b0, c0, d0;
    ghost var from := Lows(a, b, c, d);
    x := Set(block, ptr, 8, k);
    a := StepF(8, xs, k, a, b, c, d, x, 0x698098d8, 7);
    x := Set(block, ptr, 9, k);
    d := StepF(9, xs, k, d, a, b, c, x, 0x8b44f7af, 12);
    x := Set(block, ptr, 10, k);
    c := StepF(10, xs, k, c, d, a, b, x, 0xffff5bb1, 17);
    x := Set(block, ptr, 11, k);
    b := StepF(11, xs, k, b, c, d, a, x, 0x895cd7be, 22);
    Quad(r0, xs, 8, from, Lows(a, b, c, d));
  }

  method Round1Back(block: array<nat>, ptr: seq<byte>, k: nat, a0: nat, b0: nat, c0: nat, d0: nat, ghost r0: Rfc.Regs)
    returns (a: nat, b: nat, c: nat, d: nat)
    requires block.Length == 16 && |ptr| == 64 && Stored(block, ptr, 12)
    requires Lows(a0, b0, c0, d0) == Rfc.Ops(r0, Rfc.Words(ptr), 12)
    modifies block
    ensures Lows(a, b, c, d) == Rfc.Ops(r0, Rfc.Words(ptr), 16)
    ensures FitAll(a, b, c, d, k)
    ensures Stored(block, ptr, 16)
  {
    hide Low, Fits, Rfc.OpWord, Rfc.Ops, Rfc.Words, Rfc.WordAt, Stored;
    ghost var xs := Rfc.Words(ptr);
    var x: nat;
    a, b, c, d := a0, b0, c0, d0;
    ghost var from := Lows(a, b, c, d);
    x := Set(block, ptr, 12, k);
    a := StepF(12, xs, k, a, b, c, d, x, 0x6b901122, 7);
    x := Set(block, ptr, 13, k);
    d := StepF(13, xs, k, d, a, b, c, x, 0xfd987193, 12);
    x := Set(block, ptr, 14, k);
    c := StepF(14, xs, k, c, d, a, b, x, 0xa679438e, 17);
    x := Set(block, ptr, 15, k);
    b := StepF(15, xs, k, b, c, d, a, x, 0x49b40821, 22);
    Quad(r0, xs, 12, from, Lows(a, b, c, d));
  }

  method Round2(block: array<nat>, k: nat, a0: nat, b0: nat, c0: nat, d0: nat, ghost r0: Rfc.Regs)
    returns (a: nat, b: nat, c: nat, d: nat)
    requires block.Length == 16
    requires Lows(a0, b0, c0, d0) == Rfc.Ops(r0, LowAll(block[..]), 16)
    ensures Lows(a, b, c, d) == Rfc.Ops(r0, LowAll(block[..]), 32)
    ensures FitAll(a, b, c, d, k)
  {
    hide Low, Fits, Rfc.OpWord, Rfc.Ops;
    ghost var xs := LowAll(block[..]);
    a, b, c, d := a0, b0, c0, d0;
    ghost var from := Lows(a, b, c, d);
    a := StepG(16, xs, k, a, b, c, d, block[1], 0xf61e2562, 5);
    d := StepG(17, xs, k, d, a, b, c, block[6], 0xc040b340, 9);
    c := StepG(18, xs, k, c, d, a, b, block[11], 0x265e5a51, 14);
    b := StepG(19, xs, k, b, c, d, a, block[0], 0xe9b6c7aa, 20);
    Quad(r0, xs, 16, from, Lows(a, b, c, d)); from := Lows(a, b, c, d);
    a := StepG(20, xs, k, a, b, c, d, block[5], 0xd62f105d, 5);
    d := StepG(21, xs, k, d, a, b, c, block[10], 0x02441453, 9);
    c := StepG(22, xs, k, c, d, a, b, block[15], 0xd8a1e681, 14);
    b := StepG(23, xs, k, b, c, d, a, block[4], 0xe7d3fbc8, 20);
    Quad(r0, xs, 20, from, Lows(a, b, c, d)); from := Lows(a, b, c, d);
    a := StepG(24, xs, k, a, b, c, d, block[9], 0x21e1cde6, 5);
    d := StepG(25, xs, k, d, a, b, c, block[14], 0xc33707d6, 9);
    c := StepG(26, xs, k, c, d, a, b, block[3], 0xf4d50d87, 14);
    b := StepG(27, xs, k, b, c, d, a, block[8], 0x455a14ed, 20);
    Quad(r0, xs, 24, from, Lows(a, b, c, d)); from := Lows(a, b, c, d);
    a := StepG(28, xs, k, a, b, c, d, block[13], 0xa9e3e905, 5);
    d := StepG(29, xs, k, d, a, b, c, block[2], 0xfcefa3f8, 9);
    c := StepG(30, xs, k, c, d, a, b, block[7], 0x676f02d9, 14);
    b := StepG(31, xs, k, b, c, d, a, block[12], 0x8d2a4c8a, 20);
    Quad(r0, xs, 28, from, Lows(a, b, c, d));
  }

  method Round3(block: array<nat>, k: nat, a0: nat, b0: nat, c0: nat, d0: nat, ghost r0: Rfc.Regs)
    returns (a: nat, b: nat, c: nat, d: nat)
    requires block.Length == 16
    requires Lows(a0, b0, c0, d0) == Rfc.Ops(r0, LowAll(block[..]), 32)
    ensures Lows(a, b, c, d) == Rfc.Ops(r0, LowAll(block[..]), 48)
    ensures FitAll(a, b, c, d, k)
  {
    hide Low, Fits, Rfc.OpWord, Rfc.Ops;
    ghost var xs := LowAll(block[..]);
    a, b, c, d := a0, b0, c0, d0;
    ghost var from := Lows(a, b, c, d);
    a := StepH(32, xs, k, a, b, c, d, block[5], 0xfffa3942, 4);
    d := StepH2(33, xs, k, d, a, b, c, block[8], 0x8771f681, 11);
    c := StepH(34, xs, k, c, d, a, b, block[11], 0x6d9d6122, 16);
    b := StepH2(35, xs, k, b, c, d, a, block[14], 0xfde5380c, 23);
    Quad(r0, xs, 32, from, Lows(a, b, c, d)); from := Lows(a, b, c, d);
    a := StepH(36, xs, k, a, b, c, d, block[1], 0xa4beea44, 4);
    d := StepH2(37, xs, k, d, a, b, c, block[4], 0x4bdecfa9, 11);
    c := StepH(38, xs, k, c, d, a, b, block[7], 0xf6bb4b60, 16);
    b := StepH2(39, xs, k, b, c, d, a, block[10], 0xbebfbc70, 23);
    Quad(r0, xs, 36, from, Lows(a, b, c, d)); from := Lows(a, b, c, d);
    a := StepH(40, xs, k, a, b, c, d, block[13], 0x289b7ec6, 4);
    d := StepH2(41, xs, k, d, a, b, c, block[0], 0xeaa127fa, 11);
    c := StepH(42, xs, k, c, d, a, b, block[3], 0xd4ef3085, 16);
    b := StepH2(43, xs, k, b, c, d, a, block[6], 0x04881d05, 23);
    Quad(r0, xs, 40, from, Lows(a, b, c, d)); from := Lows(a, b, c, d);
    a := StepH(44, xs, k, a, b, c, d, block[9], 0xd9d4d039, 4);
    d := StepH2(45, xs, k, d, a, b, c, block[12], 0xe6db99e5, 11);
    c := StepH(46, xs, k, c, d, a, b, block[15], 0x1fa27cf8, 16);
    b := StepH2(47, xs, k, b, c, d, a, block[2], 0xc4ac5665, 23);
    Quad(r0, xs, 44, from, Lows(a, b, c, d));
  }

  method Round4(block: array<nat>, k: nat, a0: nat, b0: nat, c0: nat, d0: nat, ghost r0: Rfc.Regs)
    returns (a: nat, b: nat, c: nat, d: nat)
    requires block.Length == 16
    requires Lows(a0, b0, c0, d0) == Rfc.Ops(r0, LowAll(block[..]), 48)
    requires FitAll(a0, b0, c0, d0, k)
    ensures Lows(a, b, c, d) == Rfc.Ops(r0, LowAll(block[..]), 64)
    ensures FitAll(a, b, c, d, k)
  {
    hide Low, Fits, Rfc.OpWord, Rfc.Ops;
    ghost var xs := LowAll(block[..]);
    a, b, c, d := a0, b0, c0, d0;
    ghost var from := Lows(a, b, c, d);
    a := StepI(48, xs, k, a, b, c, d, block[0], 0xf4292244, 6);
    d := StepI(49, xs, k, d, a, b, c, block[7], 0x432aff97, 10);
    c := StepI(50, xs, k, c, d, a, b, block[14], 0xab9423a7, 15);
    b := StepI(51, xs, k, b, c, d, a, block[5], 0xfc93a039, 21);
    Quad(r0, xs, 48, from, Lows(a, b, c, d)); from := Lows(a, b, c, d);
    a := StepI(52, xs, k, a, b, c, d, block[12], 0x655b59c3, 6);
    d := StepI(53, xs, k, d, a, b, c, block[3], 0x8f0ccc92, 10);
    c := StepI(54, xs, k, c, d, a, b, block[10], 0xffeff47d, 15);
    b := StepI(55, xs, k, b, c, d, a, block[1], 0x85845dd1, 21);
    Quad(r0, xs, 52, from, Lows(a, b, c, d)); from := Lows(a, b, c, d);
    a := StepI(56, xs, k, a, b, c, d, block[8], 0x6fa87e4f, 6);
    d := StepI(57, xs, k, d, a, b, c, block[15], 0xfe2ce6e0, 10);
    c := StepI(58, xs, k, c, d, a, b, block[6], 0xa3014314, 15);
    b := StepI(59, xs, k, b, c, d, a, block[13], 0x4e0811a1, 21);
    Quad(r0, xs, 56, from, Lows(a, b, c, d)); from := Lows(a, b, c, d);
    a := StepI(60, xs, k, a, b, c, d, block[4], 0xf7537e82, 6);
    d := StepI(61, xs, k, d, a, b, c, block[11], 0xbd3af235, 10);
    c := StepI(62, xs, k, c, d, a, b, block[2], 0x2ad7d2bb, 15);
    b := StepI(63, xs, k, b, c, d, a, block[9], 0xeb86d391, 21);
    Quad(r0, xs, 60, from, Lows(a, b, c, d));
  }
}
