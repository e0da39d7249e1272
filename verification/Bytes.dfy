/** Bytes, machine words, and the C library calls that edit buffers in place. */
module Bytes {
  newtype byte = b: int | 0 <= b < 0x100
  type uint32 = n: int | 0 <= n < 0x1_0000_0000

  /** `n` copies of `b`. */
  function Fill(n: nat, b: byte): (s: seq<byte>)
    ensures |s| == n
    ensures forall i :: 0 <= i < n ==> s[i] == b
  {
    seq(n, _ => b)
  }

  /** `s` with the bytes from `at` on overwritten by `d`. */
  function Splice(s: seq<byte>, at: nat, d: seq<byte>): (r: seq<byte>)
    requires at + |d| <= |s|
    ensures |r| == |s|
    ensures forall i :: 0 <= i < |s| ==> r[i] == if at <= i < at + |d| then d[i - at] else s[i]
  {
    s[..at] + d + s[at + |d|..]
  }

  /** Two neighbouring overwrites are one. */
  lemma SpliceSplice(s: seq<byte>, at: nat, x: seq<byte>, y: seq<byte>)
    requires at + |x| + |y| <= |s|
    ensures Splice(Splice(s, at, x), at + |x|, y) == Splice(s, at, x + y)
  {}

  /** A piece of a piece. */
  lemma SubSlice(d: seq<byte>, p: nat, s: seq<byte>, i: nat, j: nat)
    requires i <= j <= |s| && p + |s| <= |d| && d[p..p + |s|] == s
    ensures d[p + i..p + j] == s[i..j]
  {
    assert forall k :: 0 <= k < |s| ==> d[p + k] == s[k];
  }

  method Memcpy(dst: array<byte>, at: nat, src: seq<byte>)
    requires at + |src| <= dst.Length
    modifies dst
    ensures dst[..] == Splice(old(dst[..]), at, src)
  {
    forall i | 0 <= i < |src| {
      dst[at + i] := src[i];
    }
  }

  method Memset(dst: array<byte>, at: nat, b: byte, n: nat)
    requires at + n <= dst.Length
    modifies dst
    ensures dst[..] == Splice(old(dst[..]), at, Fill(n, b))
  {
    forall i | 0 <= i < n {
      dst[at + i] := b;
    }
  }

  method PutFour(dst: array<byte>, at: nat, b0: byte, b1: byte, b2: byte, b3: byte)
    requires at + 4 <= dst.Length
    modifies dst
    ensures dst[..] == Splice(old(dst[..]), at, [b0, b1, b2, b3])
  {
    dst[at] := b0;
    dst[at + 1] := b1;
    dst[at + 2] := b2;
    dst[at + 3] := b3;
  }

  // ---------------------------------------------------------------- network byte order

  function BigEndian(n: nat): (s: seq<byte>)
    ensures |s| == 4
  {
    [(n / 0x1000000 % 0x100) as byte, (n / 0x10000 % 0x100) as byte, (n / 0x100 % 0x100) as byte, (n % 0x100) as byte]
  }

  function FromBigEndian(s: seq<byte>): nat
    requires |s| == 4
  {
    s[0] as nat * 0x1000000 + s[1] as nat * 0x10000 + s[2] as nat * 0x100 + s[3] as nat
  }

  lemma BigEndianRoundTrip(n: nat)
    ensures FromBigEndian(BigEndian(n)) == n % 0x1_0000_0000
  {
    var q1, q2, q3 := n / 0x100, n / 0x10000, n / 0x1000000;
    NextDigit(q1, q2);
    NextDigit(q2, q3);
    var low := q3 % 0x100 * 0x1000000 + q2 % 0x100 * 0x10000 + q1 % 0x100 * 0x100 + n % 0x100;
    LowPart(n, q3 / 0x100, low);
  }

  lemma NextDigit(q: nat, q': nat)
    requires q' == q / 0x100
    ensures q == 0x100 * q' + q % 0x100
  {}

  lemma LowPart(n: nat, h: nat, low: nat)
    requires n == 0x1_0000_0000 * h + low && low < 0x1_0000_0000
    ensures n % 0x1_0000_0000 == low
  {}
}
