/**
 * The macros of md5.c, on unsigned integers of 32 + k bits: the rewritten round functions and the step they are
 * plugged into.
 */
module Md5Words {
  import opened Bytes
  import opened Unsigned
  import Rfc = Md5Rfc

  function F(x: nat, y: nat, z: nat): nat { Xor(z, And(x, Xor(y, z))) }
  function G(x: nat, y: nat, z: nat): nat { Xor(y, And(z, Xor(x, y))) }
  function H(x: nat, y: nat, z: nat): nat { Xor(Xor(x, y), z) }
  function H2(x: nat, y: nat, z: nat): nat { Xor(x, Xor(y, z)) }
  function I(x: nat, y: nat, z: nat, k: nat): nat requires Fits(z, k) { Xor(y, Or(x, Not(z, k))) }

  // On the lower 32 bits, the forms chosen for machines without AND-NOT, and the two ways of bracketing H, are the
  // functions of the RFC.

  lemma FBits(x: Word, y: Word, z: Word)
    ensures XorW(z, AndW(x, XorW(y, z))) == Rfc.F(x, y, z)
  {}
  lemma GFromF(x: Word, y: Word, z: Word) ensures Rfc.G(x, y, z) == Rfc.F(z, x, y) {}
  lemma GBits(x: Word, y: Word, z: Word)
    ensures XorW(y, AndW(z, XorW(x, y))) == Rfc.G(x, y, z)
  {
    hide XorW, AndW, Rfc.F, Rfc.G;
    FBits(z, x, y);
    GFromF(x, y, z);
  }
  lemma HBits(x: Word, y: Word, z: Word)
    ensures XorW(XorW(x, y), z) == XorW(x, XorW(y, z)) == Rfc.H(x, y, z)
  {}
  lemma IBits(x: Word, y: Word, z: Word)
    ensures XorW(y, Rfc.Or(x, NotW(z))) == Rfc.I(x, y, z)
  {}

  lemma FIsRfc(x: nat, y: nat, z: nat)
    ensures Low(F(x, y, z)) == Rfc.F(Low(x), Low(y), Low(z))
  {
    hide Low, XorW, AndW, Rfc.F;
    LowOfXor(y, z);
    LowOfAnd(x, Xor(y, z));
    LowOfXor(z, And(x, Xor(y, z)));
    FBits(Low(x), Low(y), Low(z));
  }

  lemma GIsRfc(x: nat, y: nat, z: nat)
    ensures Low(G(x, y, z)) == Rfc.G(Low(x), Low(y), Low(z))
  {
    hide Low, XorW, AndW, Rfc.G;
    LowOfXor(x, y);
    LowOfAnd(z, Xor(x, y));
    LowOfXor(y, And(z, Xor(x, y)));
    GBits(Low(x), Low(y), Low(z));
  }

  lemma HIsRfc(x: nat, y: nat, z: nat)
    ensures Low(H(x, y, z)) == Low(H2(x, y, z)) == Rfc.H(Low(x), Low(y), Low(z))
  {
    hide Low, XorW, Rfc.H;
    LowOfXor(x, y);
    LowOfXor(Xor(x, y), z);
    LowOfXor(y, z);
    LowOfXor(x, Xor(y, z));
    HBits(Low(x), Low(y), Low(z));
  }

  lemma IIsRfc(x: nat, y: nat, z: nat, k: nat)
    requires Fits(z, k)
    ensures Low(I(x, y, z, k)) == Rfc.I(Low(x), Low(y), Low(z))
  {
    hide Low, XorW, Rfc.Or, NotW, Rfc.I;
    LowOfNot(z, k);
    LowOfOr(x, Not(z, k));
    LowOfXor(y, Or(x, Not(z, k)));
    IBits(Low(x), Low(y), Low(z));
  }

  /** The first line of STEP: (a) += f + (x) + (t). */
  function Accumulate(a: nat, f: nat, x: nat, t: nat, k: nat): (r: nat)
    ensures Fits(r, k)
  {
    Add(a, Add(Add(f, x, k), t, k), k)
  }

  lemma AccumulateIsRfc(a: nat, f: nat, x: nat, t: nat, k: nat)
    ensures Low(Accumulate(a, f, x, t, k)) == Rfc.Sum(Low(a), Low(f), Low(x), Low(t))
  {
    hide Low, Rfc.Plus;
    LowOfSum(f, x, k);
    LowOfSum(Add(f, x, k), t, k);
    LowOfSum(a, Add(Add(f, x, k), t, k), k);
    PlusAssociates(Low(a), Rfc.Plus(Low(f), Low(x)), Low(t));
    PlusAssociates(Low(a), Low(f), Low(x));
  }

  /** The second line: (a) = (((a) << (s)) | (((a) & 0xffffffff) >> (32 - (s)))). */
  function Rotate(a: nat, s: bv32, k: nat): nat
    requires 0 < s < 32
  {
    Or(ShiftLeft(a, s, k), ShiftRight(And(a, 0xffff_ffff), 32 - s))
  }

  /** The mask keeps the bits above the lower 32 from being shifted into them. */
  lemma RotateIsRfc(a: nat, s: bv32, k: nat)
    requires 0 < s < 32
    ensures Low(Rotate(a, s, k)) == Rfc.Rotl(Low(a), s)
  {
    hide Low, Rfc.Or, Rfc.Left, Rfc.Right;
    LowOfShiftLeft(a, s, k);
    LowOfMasked(a);
    LowOfShiftRight(And(a, 0xffff_ffff), 32 - s);
    LowOfOr(ShiftLeft(a, s, k), ShiftRight(And(a, 0xffff_ffff), 32 - s));
  }

  /** STEP once the round function is applied. */
  method Step(k: nat, f: nat, a: nat, b: nat, x: nat, t: nat, s: bv32) returns (r: nat)
    requires 0 < s < 32
    ensures Low(r) == Rfc.Combine(Low(f), Low(a), Low(b), Low(x), Low(t), s) && Fits(r, k)
  {
    hide Low, Rfc.Rotl, Rfc.Sum, Rfc.Plus, Rotate, Accumulate, Fits;
    r := Accumulate(a, f, x, t, k);
    AccumulateIsRfc(a, f, x, t, k);
    ghost var sum := r;
    r := Rotate(r, s, k);
    RotateIsRfc(sum, s, k);
    ghost var turned := r;
    r := Add(r, b, k);
    LowOfSum(turned, b, k);
    PlusCommutes(Low(turned), Low(b));
  }

  /** The lower halves of the four registers. */
  function Lows(a: nat, b: nat, c: nat, d: nat): Rfc.Regs
  {
    Rfc.Regs(Low(a), Low(b), Low(c), Low(d))
  }

  // STEP(f, a, b, c, d, x, t, s) for each round function: the lower half of what the macro leaves in its first
  // argument is the word that operation `i` of the RFC computes, provided x, t and s are the ones the RFC lists for
  // it.

  method StepF(ghost i: nat, ghost xs: seq<Word>, k: nat, a: nat, b: nat, c: nat, d: nat, x: nat, t: nat, s: bv32)
    returns (r: nat)
    requires 0 <= i < 16 && |xs| == 16
    requires Rfc.Schedule(i).s == s && Rfc.Schedule(i).t == t && xs[Rfc.Schedule(i).k] == Low(x)
    ensures Low(r) == Rfc.OpWord(i, Low(a), Low(b), Low(c), Low(d), xs) && Fits(r, k)
  {
    hide Low, Fits, Rfc.Combine, Rfc.F, F;
    FIsRfc(b, c, d);
    r := Step(k, F(b, c, d), a, b, x, t, s);
    LowIs(t);
  }

  method StepG(ghost i: nat, ghost xs: seq<Word>, k: nat, a: nat, b: nat, c: nat, d: nat, x: nat, t: nat, s: bv32)
    returns (r: nat)
    requires 16 <= i < 32 && |xs| == 16
    requires Rfc.Schedule(i).s == s && Rfc.Schedule(i).t == t && xs[Rfc.Schedule(i).k] == Low(x)
    ensures Low(r) == Rfc.OpWord(i, Low(a), Low(b), Low(c), Low(d), xs) && Fits(r, k)
  {
    hide Low, Fits, Rfc.Combine, Rfc.G, G;
    GIsRfc(b, c, d);
    r := Step(k, G(b, c, d), a, b, x, t, s);
    LowIs(t);
  }

  method StepH(ghost i: nat, ghost xs: seq<Word>, k: nat, a: nat, b: nat, c: nat, d: nat, x: nat, t: nat, s: bv32)
    returns (r: nat)
    requires 32 <= i < 48 && |xs| == 16
    requires Rfc.Schedule(i).s == s && Rfc.Schedule(i).t == t && xs[Rfc.Schedule(i).k] == Low(x)
    ensures Low(r) == Rfc.OpWord(i, Low(a), Low(b), Low(c), Low(d), xs) && Fits(r, k)
  {
    hide Low, Fits, Rfc.Combine, Rfc.H, H;
    HIsRfc(b, c, d);
    r := Step(k, H(b, c, d), a, b, x, t, s);
    LowIs(t);
  }

  method StepH2(ghost i: nat, ghost xs: seq<Word>, k: nat, a: nat, b: nat, c: nat, d: nat, x: nat, t: nat, s: bv32)
    returns (r: nat)
    requires 32 <= i < 48 && |xs| == 16
    requires Rfc.Schedule(i).s == s && Rfc.Schedule(i).t == t && xs[Rfc.Schedule(i).k] == Low(x)
    ensures Low(r) == Rfc.OpWord(i, Low(a), Low(b), Low(c), Low(d), xs) && Fits(r, k)
  {
    hide Low, Fits, Rfc.Combine, Rfc.H, H2;
    HIsRfc(b, c, d);
    r := Step(k, H2(b, c, d), a, b, x, t, s);
    LowIs(t);
  }

  method StepI(ghost i: nat, ghost xs: seq<Word>, k: nat, a: nat, b: nat, c: nat, d: nat, x: nat, t: nat, s: bv32)
    returns (r: nat)
    requires 48 <= i < 64 && |xs| == 16
    requires Fits(d, k)
    requires Rfc.Schedule(i).s == s && Rfc.Schedule(i).t == t && xs[Rfc.Schedule(i).k] == Low(x)
    ensures Low(r) == Rfc.OpWord(i, Low(a), Low(b), Low(c), Low(d), xs) && Fits(r, k)
  {
    hide Low, Fits, Rfc.Combine, Rfc.I, I;
    IIsRfc(b, c, d, k);
    r := Step(k, I(b, c, d, k), a, b, x, t, s);
    LowIs(t);
  }

  lemma LowIs(t: nat) ensures Low(t) == Rfc.WordOf(t) {}

  /** The portable SET: four input bytes or-ed together, low-order byte first. */
  function SetWord(b0: byte, b1: byte, b2: byte, b3: byte, k: nat): nat
  {
    Or(Or(Or(b0 as nat, ShiftLeft(b1 as nat, 8, k)), ShiftLeft(b2 as nat, 16, k)), ShiftLeft(b3 as nat, 24, k))
  }

  lemma FourParts(x: Word, y: Word, z: Word, w: Word)
    requires Rfc.Right(x, 8) == Rfc.Right(y, 8) == Rfc.Right(z, 8) == Rfc.Right(w, 8) == Rfc.ZERO
    ensures Rfc.Or(Rfc.Or(Rfc.Or(x, Rfc.Left(y, 8)), Rfc.Left(z, 16)), Rfc.Left(w, 24))
         == Rfc.Plus(Rfc.Plus(Rfc.Plus(x, Rfc.Left(y, 8)), Rfc.Left(z, 16)), Rfc.Left(w, 24))
  {}

  lemma OneByte(b: byte)
    ensures Rfc.Right(Low(b as nat), 8) == Rfc.ZERO
  {
    hide Low, Rfc.Right, Scale;
    ScaleIs();
    LowIsShort(b as nat, 8);
  }

  lemma JoinParts(b0: byte, b1: byte, b2: byte, b3: byte)
    ensures Rfc.Join(b0, b1, b2, b3) == Rfc.Plus(Rfc.Plus(Rfc.Plus(Low(b0 as nat), Rfc.Left(Low(b1 as nat), 8)),
                                              Rfc.Left(Low(b2 as nat), 16)), Rfc.Left(Low(b3 as nat), 24))
  {
    hide Low, Rfc.Plus, Rfc.Left, Scale;
    ScaleIs();
    var n0, n1, n2, n3 := b0 as nat, b1 as nat * 0x100, b2 as nat * 0x10000, b3 as nat * 0x1000000;
    LowTimes(b1 as nat, 8);
    LowTimes(b2 as nat, 16);
    LowTimes(b3 as nat, 24);
    LowPlus(n0, n1);
    LowPlus(n0 + n1, n2);
    LowPlus(n0 + n1 + n2, n3);
    LowIs(n0 + n1 + n2 + n3);
  }

  lemma SetIsRfc(b0: byte, b1: byte, b2: byte, b3: byte, k: nat)
    ensures Low(SetWord(b0, b1, b2, b3, k)) == Rfc.Join(b0, b1, b2, b3)
    ensures Fits(SetWord(b0, b1, b2, b3, k), k)
  {
    hide Low, Or, Rfc.Or, Rfc.Plus, Rfc.Left, Rfc.Right, Rfc.Join, Fits, ShiftLeft;
    var s1, s2, s3 := ShiftLeft(b1 as nat, 8, k), ShiftLeft(b2 as nat, 16, k), ShiftLeft(b3 as nat, 24, k);
    LowOfShiftLeft(b1 as nat, 8, k);
    LowOfShiftLeft(b2 as nat, 16, k);
    LowOfShiftLeft(b3 as nat, 24, k);
    LowOfOr(b0 as nat, s1);
    LowOfOr(Or(b0 as nat, s1), s2);
    LowOfOr(Or(Or(b0 as nat, s1), s2), s3);
    OneByte(b0);
    OneByte(b1);
    OneByte(b2);
    OneByte(b3);
    FourParts(Low(b0 as nat), Low(b1 as nat), Low(b2 as nat), Low(b3 as nat));
    JoinParts(b0, b1, b2, b3);
    ByteFits(b0, k);
    BitsFit(b0 as nat, s1, k);
    BitsFit(Or(b0 as nat, s1), s2, k);
    BitsFit(Or(Or(b0 as nat, s1), s2), s3, k);
  }

  lemma ByteFits(b: byte, k: nat) ensures Fits(b as nat, k) {}
}
