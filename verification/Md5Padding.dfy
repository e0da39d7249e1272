/** The padding of sections 3.1 and 3.2 of RFC 1321, and the pattern behind the listing of section 3.4. */
module Md5Padding {
  import opened Bytes
  import opened Md5Rfc
  import opened Unsigned

  /** As few zero bytes as possible bring the length to 56 modulo 64. */
  lemma ZeroCountIsLeast(n: nat, z: nat)
    requires (n + 1 + z) % 64 == 56
    ensures ZeroCount(n) <= z
  {}

  function FromLittleEndian(s: seq<byte>): nat
  {
    if s == [] then 0 else s[0] as nat + 0x100 * FromLittleEndian(s[1..])
  }

  function Pow256(width: nat): (p: nat)
    ensures p > 0
  {
    if width == 0 then 1 else 0x100 * Pow256(width - 1)
  }

  lemma {:induction false} LittleEndianRoundTrip(n: nat, width: nat)
    ensures FromLittleEndian(LittleEndian(n, width)) == n % Pow256(width)
  {
    if width == 0 {
    } else {
      LittleEndianRoundTrip(n / 0x100, width - 1);
      var p := Pow256(width - 1);
      assert LittleEndian(n, width)[1..] == LittleEndian(n / 0x100, width - 1);
      SplitDigit(n, p);
    }
  }

  lemma SplitDigit(n: nat, p: nat)
    requires p > 0
    ensures n % 0x100 + 0x100 * (n / 0x100 % p) == n % (0x100 * p)
  {
    var q, r := n / 0x100 / p, n / 0x100 % p;
    assert n == 0x100 * (q * p + r) + n % 0x100;
    var rest := 0x100 * r + n % 0x100;
    assert 0 <= rest < 0x100 * p;
    assert n == q * (0x100 * p) + rest;
    Quotient(n, 0x100 * p, q, rest);
    Divides(n, 0x100 * p);
  }

  lemma LengthFieldRoundTrip(n: nat)
    ensures FromLittleEndian(LengthField(n)) == 8 * n % 0x1_0000_0000_0000_0000
  {
    LittleEndianRoundTrip(8 * n, 8);
    assert Pow256(8) == 0x1_0000_0000_0000_0000 by {
      assert Pow256(4) == 0x1_0000_0000;
      assert Pow256(6) == 0x1_0000_0000_0000;
    }
  }

  /** No two messages, of whatever length, have the same padded form. */
  lemma PaddingIsInjective(m: seq<byte>, m': seq<byte>)
    requires Padded(m) == Padded(m')
    ensures m == m'
  {
    hide Padding, LengthField, ZeroCount, Padded, FromLittleEndian;
    PaddedEnd(m);
    PaddedEnd(m');
    LengthFieldRoundTrip(|m|);
    LengthFieldRoundTrip(|m'|);
    CloseLengths(|m|, |m'|);
  }

  lemma CloseLengths(a: nat, b: nat)
    requires -64 < a - b < 64
    requires 8 * a % 0x1_0000_0000_0000_0000 == 8 * b % 0x1_0000_0000_0000_0000
    ensures a == b
  {}

  lemma PaddedEnd(m: seq<byte>)
    ensures 9 <= |Padded(m)| - |m| <= 72
    ensures Padded(m)[|Padded(m)| - 8..] == LengthField(|m|)
    ensures Padded(m)[..|m|] == m
  {}

  /** The block words are read in the orders i, 1 + 5i, 5 + 3i and 7i modulo 16. */
  lemma ScheduleIndices(i: nat)
    requires i < 64
    ensures Schedule(i).k == if i < 16 then i else if i < 32 then (1 + 5 * i) % 16
                             else if i < 48 then (5 + 3 * i) % 16 else 7 * i % 16
  {
    hide Round1Row, Round2Row, Round3Row, Round4Row;
    if i < 16 { Indices1(i); } else if i < 32 { Indices2(i); } else if i < 48 { Indices3(i); } else { Indices4(i); }
  }

  lemma Indices1(i: nat) requires i < 16 ensures Round1Row(i).k == i {}
  lemma Indices2(i: nat) requires 16 <= i < 32 ensures Round2Row(i).k == (1 + 5 * i) % 16 {}
  lemma Indices3(i: nat) requires 32 <= i < 48 ensures Round3Row(i).k == (5 + 3 * i) % 16 {}
  lemma Indices4(i: nat) requires 48 <= i < 64 ensures Round4Row(i).k == 7 * i % 16 {}

  /** Each round rotates by four amounts in turn. */
  lemma ScheduleAmounts(i: nat)
    requires i < 64
    ensures Schedule(i).s == (if i < 16 then InTurn(i, 7, 12, 17, 22) else if i < 32 then InTurn(i, 5, 9, 14, 20)
                              else if i < 48 then InTurn(i, 4, 11, 16, 23) else InTurn(i, 6, 10, 15, 21))
  {
    hide Round1Row, Round2Row, Round3Row, Round4Row;
    if i < 16 { Amounts1(i); } else if i < 32 { Amounts2(i); } else if i < 48 { Amounts3(i); } else { Amounts4(i); }
  }

  function InTurn(i: nat, s0: bv32, s1: bv32, s2: bv32, s3: bv32): bv32
  {
    if i % 4 == 0 then s0 else if i % 4 == 1 then s1 else if i % 4 == 2 then s2 else s3
  }

  lemma Amounts1(i: nat) requires i < 16 ensures Round1Row(i).s == InTurn(i, 7, 12, 17, 22) {}
  lemma Amounts2(i: nat) requires 16 <= i < 32 ensures Round2Row(i).s == InTurn(i, 5, 9, 14, 20) {}
  lemma Amounts3(i: nat) requires 32 <= i < 48 ensures Round3Row(i).s == InTurn(i, 4, 11, 16, 23) {}
  lemma Amounts4(i: nat) requires 48 <= i < 64 ensures Round4Row(i).s == InTurn(i, 6, 10, 15, 21) {}
}
