/** For a fixed block the 64 steps lose nothing: they permute the values of the four registers. */
module Md5Inverse {
  import opened Md5Rfc
  import Unsigned

  // ---------------------------------------------------------------- rotations

  /** The circular right shift. */
  function Rotr(x: Word, s: bv32): Word
    requires 0 < s < 32
  {
    Or(Right(x, s), Left(x, 32 - s))
  }

  lemma LeftOfOr(x: Word, y: Word, s: bv32) requires s <= 32 ensures Left(Or(x, y), s) == Or(Left(x, s), Left(y, s)) {}
  lemma RightOfOr(x: Word, y: Word, s: bv32)
    requires s <= 32
    ensures Right(Or(x, y), s) == Or(Right(x, s), Right(y, s))
  {}
  lemma AllLeft(x: Word, s: bv32) requires 0 < s < 32 ensures Left(Left(x, s), 32 - s) == ZERO {}
  lemma AllRight(x: Word, s: bv32) requires 0 < s < 32 ensures Right(Right(x, 32 - s), s) == ZERO {}
  lemma TwoParts(x: Word, s: bv32)
    requires 0 < s < 32
    ensures Or(Left(Right(x, 32 - s), 32 - s), Right(Left(x, s), s)) == x
  {}
  lemma OrZero(x: Word) ensures Or(x, ZERO) == x == Or(ZERO, x) {}
  lemma OrCommutes(x: Word, y: Word) ensures Or(x, y) == Or(y, x) {}

  /** Two circular shifts that add up to 32 bits. */
  lemma FullTurn(x: Word, s: bv32)
    requires 0 < s < 32
    ensures Rotl(Rotl(x, s), 32 - s) == x
  {
    hide Or, Left, Right;
    var l, r := Left(x, s), Right(x, 32 - s);
    LeftOfOr(l, r, 32 - s);
    RightOfOr(l, r, s);
    AllLeft(x, s);
    AllRight(x, s);
    OrZero(Left(r, 32 - s));
    OrZero(Right(l, s));
    TwoParts(x, s);
  }

  /** Right rotation undoes left rotation, by whatever amount, and the other way round. */
  lemma TurnBack(x: Word, s: bv32)
    requires 0 < s < 32
    ensures Rotr(Rotl(x, s), s) == x == Rotl(Rotr(x, s), s)
  {
    hide Or, Left, Right;
    FullTurn(x, s);
    FullTurn(x, 32 - s);
    OrCommutes(Right(Rotl(x, s), s), Left(Rotl(x, s), 32 - s));
    OrCommutes(Right(x, s), Left(x, 32 - s));
  }

  // ---------------------------------------------------------------- sums

  function Sub(x: bv32, y: bv32): bv32 { x - y }
  function Minus(x: Word, y: Word): Word { Word(Sub(x.bits, y.bits)) }

  lemma SubBits(x: bv32, y: bv32) ensures Sub(x, y) == x - y {}
  lemma SubAddBits(x: bv32, y: bv32) ensures Sub(x + y, y) == x && Add(x - y, y) == x {}

  lemma SubUndoesAdd(x: bv32, y: bv32)
    ensures Sub(Add(x, y), y) == x && Add(Sub(x, y), y) == x
  {
    hide Sub, Add;
    Unsigned.AddBits(x, y);
    SubBits(x, y);
    SubAddBits(x, y);
  }

  lemma TakeOff(v: Word, w: Word)
    ensures Minus(Plus(v, w), w) == v && Plus(Minus(v, w), w) == v
  {
    hide Sub, Add;
    SubUndoesAdd(v.bits, w.bits);
  }

  /** What `Sum` added, taken off again. */
  function Rest(v: Word, f: Word, x: Word, t: Word): Word
  {
    Minus(Minus(Minus(v, t), x), f)
  }

  lemma RestUndoesSum(v: Word, f: Word, x: Word, t: Word)
    ensures Rest(Sum(v, f, x, t), f, x, t) == v
    ensures Sum(Rest(v, f, x, t), f, x, t) == v
  {
    hide Minus, Plus;
    TakeOff(v, f);
    TakeOff(Plus(v, f), x);
    TakeOff(Plus(Plus(v, f), x), t);
    TakeOff(Minus(Minus(v, t), x), f);
    TakeOff(Minus(v, t), x);
    TakeOff(v, t);
  }

  // ---------------------------------------------------------------- steps

  /** The register `a` that operation `i` started from, given the word `w` it produced and the other three registers. */
  function OldWord(i: nat, w: Word, b: Word, c: Word, d: Word, x: seq<Word>): Word
    requires |x| == 16
  {
    var row := Schedule(i);
    Rest(Rotr(Minus(w, b), row.s), Mix(i, b, c, d), x[row.k], WordOf(row.t))
  }

  lemma OldWordInverts(i: nat, a: Word, b: Word, c: Word, d: Word, x: seq<Word>)
    requires |x| == 16
    ensures OldWord(i, OpWord(i, a, b, c, d, x), b, c, d, x) == a
    ensures OpWord(i, OldWord(i, a, b, c, d, x), b, c, d, x) == a
  {
    hide Mix, Schedule, Rotl, Rotr, Minus, Plus, Rest, Sum, WordOf;
    var row := Schedule(i);
    var f, k, t := Mix(i, b, c, d), x[row.k], WordOf(row.t);
    var sum, back := Sum(a, f, k, t), Minus(a, b);
    RestUndoesSum(a, f, k, t);
    TurnBack(sum, row.s);
    Unsigned.PlusCommutes(b, Rotl(sum, row.s));
    TakeOff(Rotl(sum, row.s), b);
    RestUndoesSum(Rotr(back, row.s), f, k, t);
    TurnBack(back, row.s);
    Unsigned.PlusCommutes(b, back);
    TakeOff(a, b);
  }

  function UndoOp(i: nat, r: Regs, x: seq<Word>): Regs
    requires |x| == 16
  {
    Regs(OldWord(i, r.b, r.c, r.d, r.a, x), r.c, r.d, r.a)
  }

  /** The last `n` operations undone, newest first. */
  function UndoOps(r: Regs, x: seq<Word>, n: nat): Regs
    requires |x| == 16
    decreases n
  {
    if n == 0 then r else UndoOps(UndoOp(n - 1, r, x), x, n - 1)
  }

  lemma UndoOpInverts(i: nat, r: Regs, x: seq<Word>)
    requires |x| == 16
    ensures UndoOp(i, Op(i, r, x), x) == r == Op(i, UndoOp(i, r, x), x)
  {
    hide OldWord, OpWord;
    OldWordInverts(i, r.a, r.b, r.c, r.d, x);
    OldWordInverts(i, r.b, r.c, r.d, r.a, x);
  }

  /** The steps before the feed-forward addition are a bijection of the register values. */
  lemma {:induction false} OpsAreBijective(r: Regs, x: seq<Word>, n: nat)
    requires |x| == 16
    ensures UndoOps(Ops(r, x, n), x, n) == r
    ensures Ops(UndoOps(r, x, n), x, n) == r
    decreases n
  {
    hide Op, UndoOp;
    if n == 0 {
    } else {
      UndoOpInverts(n - 1, Ops(r, x, n - 1), x);
      OpsAreBijective(r, x, n - 1);
      OpsAreBijective(UndoOp(n - 1, r, x), x, n - 1);
      UndoOpInverts(n - 1, r, x);
    }
  }
}
