/** Numbers as words, by their hexadecimal digits: what a constant of the listing is in bits. */
module Md5Digits {
  import opened Md5Rfc
  import Unsigned

  function BitOf(odd: bool): bv32 { if odd then 1 else 0 }

  /** A hexadecimal digit as bits. */
  function Nibble(d: nat): bv32
  {
    match d
    case 1 => 1 case 2 => 2 case 3 => 3 case 4 => 4 case 5 => 5 case 6 => 6 case 7 => 7 case 8 => 8
    case 9 => 9 case 10 => 10 case 11 => 11 case 12 => 12 case 13 => 13 case 14 => 14 case 15 => 15
    case _ => 0
  }

  function Bits(d: nat): bv32
  {
    (BitOf(d / 8 == 1) << 3) | (BitOf(d / 4 % 2 == 1) << 2) | (BitOf(d / 2 % 2 == 1) << 1) | BitOf(d % 2 == 1)
  }

  lemma LowNibbles(d: nat)
    requires d < 8
    ensures Nibble(d) == Bits(d)
  {}

  lemma HighNibbles(d: nat)
    requires 8 <= d < 16
    ensures Nibble(d) == Bits(d)
  {}

  /** One more bit, and one more digit, at the lower end. */
  function Append(w: bv32, odd: bool): bv32 { (w << 1) | BitOf(odd) }
  function Behind(w: bv32, digit: bv32): bv32 { (w << 4) | digit }
  function Push(w: bv32, d: nat): bv32 { Behind(w, Nibble(d)) }

  function Four(a: nat, b: nat, c: nat, d: nat): bv32
  {
    (Nibble(a) << 12) | (Nibble(b) << 8) | (Nibble(c) << 4) | Nibble(d)
  }

  lemma BitsBehind(w: bv32, d: nat)
    ensures Append(Append(Append(Append(w, d / 8 == 1), d / 4 % 2 == 1), d / 2 % 2 == 1), d % 2 == 1)
         == Behind(w, Bits(d))
  {
    hide BitOf;
  }

  lemma FourBits(w: bv32, d: nat)
    requires d < 16
    ensures Append(Append(Append(Append(w, d / 8 == 1), d / 4 % 2 == 1), d / 2 % 2 == 1), d % 2 == 1) == Push(w, d)
  {
    hide Append, Behind, Bits, Nibble;
    BitsBehind(w, d);
    if d < 8 { LowNibbles(d); } else { HighNibbles(d); }
  }

  lemma EvenBit(x: Word) ensures Unsigned.Twice(x, false).bits == Append(x.bits, false) {}
  lemma OddBit(x: Word) ensures Unsigned.Twice(x, true).bits == Append(x.bits, true) {}
  lemma TwiceBits(x: Word, odd: bool)
    ensures Unsigned.Twice(x, odd).bits == Append(x.bits, odd)
  {
    hide Unsigned.Twice, Append;
    if odd { OddBit(x); } else { EvenBit(x); }
  }

  lemma WordStep(n: nat)
    ensures WordOf(n) == Unsigned.Twice(WordOf(n / 2), n % 2 == 1)
  {
    hide WordOf, Unsigned.Twice;
    Unsigned.LowStep(n);
  }

  lemma NextDigit(q: nat, d: nat)
    requires d < 16
    ensures WordOf(16 * q + d).bits == Push(WordOf(q).bits, d)
  {
    hide WordOf, Unsigned.Twice, Append, Push;
    var n1, n2, n3 := 2 * q + d / 8, 4 * q + d / 4, 8 * q + d / 2;
    assert n1 / 2 == q && n2 / 2 == n1 && n3 / 2 == n2 && (16 * q + d) / 2 == n3;
    assert n1 % 2 == d / 8 && n2 % 2 == d / 4 % 2 && n3 % 2 == d / 2 % 2 && (16 * q + d) % 2 == d % 2;
    WordStep(n1);
    WordStep(n2);
    WordStep(n3);
    WordStep(16 * q + d);
    TwiceBits(WordOf(q), d / 8 == 1);
    TwiceBits(WordOf(n1), d / 4 % 2 == 1);
    TwiceBits(WordOf(n2), d / 2 % 2 == 1);
    TwiceBits(WordOf(n3), d % 2 == 1);
    FourBits(WordOf(q).bits, d);
  }

  lemma FourPushed(w: bv32, a: nat, b: nat, c: nat, d: nat)
    ensures Push(Push(Push(Push(w, a), b), c), d) == (w << 16) | Four(a, b, c, d)
  {
    hide Nibble;
  }

  lemma FourDigits(q: nat, a: nat, b: nat, c: nat, d: nat)
    requires a < 16 && b < 16 && c < 16 && d < 16
    ensures WordOf(0x1_0000 * q + 0x1000 * a + 0x100 * b + 0x10 * c + d).bits
         == (WordOf(q).bits << 16) | Four(a, b, c, d)
  {
    hide WordOf, Push, Four;
    NextDigit(q, a);
    NextDigit(16 * q + a, b);
    NextDigit(16 * (16 * q + a) + b, c);
    NextDigit(16 * (16 * (16 * q + a) + b) + c, d);
    FourPushed(WordOf(q).bits, a, b, c, d);
  }

  lemma NoBits(w: bv32) ensures WordOf(0).bits == 0 && ((0 as bv32) << 16) | w == w {}

  /** The word of a number of eight hexadecimal digits. */
  lemma Hex8(a: nat, b: nat, c: nat, d: nat, e: nat, f: nat, g: nat, h: nat)
    requires a < 16 && b < 16 && c < 16 && d < 16 && e < 16 && f < 16 && g < 16 && h < 16
    ensures WordOf(0x1000_0000 * a + 0x100_0000 * b + 0x10_0000 * c + 0x1_0000 * d + 0x1000 * e + 0x100 * f + 0x10 * g
                   + h)
         == Word((Four(a, b, c, d) << 16) | Four(e, f, g, h))
  {
    hide WordOf, Four;
    FourDigits(0, a, b, c, d);
    FourDigits(0x1000 * a + 0x100 * b + 0x10 * c + d, e, f, g, h);
    NoBits(Four(a, b, c, d));
  }
}
