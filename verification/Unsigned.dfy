/**
 * Unsigned integers of 32 + k bits, as C has them: arithmetic modulo 2^(32+k) and bitwise operators. On their lower 32
 * bits the operators are the ones of 32-bit words.
 */
module Unsigned {
  import Rfc = Md5Rfc

  function Pow2(n: nat): (p: nat)
    ensures p > 0
  {
    if n == 0 then 1 else 2 * Pow2(n - 1)
  }

  /** The number of values of a word of 32 + k bits. */
  function Size(k: nat): (m: nat)
    ensures m >= 0x1_0000_0000
  {
    0x1_0000_0000 * Pow2(k)
  }

  predicate Fits(n: nat, k: nat) { n < Size(k) }

  /** What an unsigned integer of `wide` bits keeps of a number. */
  function Wrap(x: nat, wide: nat): nat { x % Pow2(wide) }

  /** 2 to the power of a shift amount. */
  function Scale(s: bv32): (p: nat)
    ensures p > 0
    decreases s
  {
    if s == 0 then 1 else 2 * Scale(s - 1)
  }

  // ---------------------------------------------------------------- operators

  function Add(x: nat, y: nat, k: nat): (r: nat)
    ensures Fits(r, k)
  {
    (x + y) % Size(k)
  }

  function ShiftLeft(x: nat, s: bv32, k: nat): (r: nat)
    ensures Fits(r, k)
  {
    x * Scale(s) % Size(k)
  }

  /** The low bit is dropped `s` times. */
  function ShiftRight(x: nat, s: bv32): (r: nat)
    ensures r <= x
    decreases s
  {
    if s == 0 then x else ShiftRight(x / 2, s - 1)
  }

  function And(x: nat, y: nat): (r: nat)
    ensures r <= x && r <= y
  {
    if x == 0 || y == 0 then 0 else 2 * And(x / 2, y / 2) + (if x % 2 == 1 && y % 2 == 1 then 1 else 0)
  }

  function Or(x: nat, y: nat): (r: nat)
    ensures r <= x + y
    decreases x + y
  {
    if x == 0 && y == 0 then 0 else 2 * Or(x / 2, y / 2) + (if x % 2 == 1 || y % 2 == 1 then 1 else 0)
  }

  function Xor(x: nat, y: nat): nat
    decreases x + y
  {
    if x == 0 && y == 0 then 0 else 2 * Xor(x / 2, y / 2) + (if x % 2 != y % 2 then 1 else 0)
  }

  function Not(x: nat, k: nat): (r: nat)
    requires Fits(x, k)
    ensures Fits(r, k)
  {
    Size(k) - 1 - x
  }

  // ---------------------------------------------------------------- 32-bit words

  type Word = Rfc.Word

  function AndW(x: Word, y: Word): Word { Rfc.Word(x.bits & y.bits) }
  function XorW(x: Word, y: Word): Word { Rfc.Word(x.bits ^ y.bits) }
  function NotW(x: Word): Word { Rfc.Word(!x.bits) }

  const ONES := Rfc.Word(0xffff_ffff)

  function Twice(x: Word, odd: bool): Word { Rfc.Shifted(x, Rfc.Bit(odd)) }

  /** The lower 32 bits of a number. */
  function Low(n: nat): Word { Rfc.WordOf(n) }

  lemma TwiceZero() ensures Twice(Rfc.ZERO, false) == Rfc.ZERO {}

  lemma LowStep(n: nat)
    ensures Low(n) == Twice(Low(n / 2), n % 2 == 1)
  {
    hide Twice;
    TwiceZero();
    TwiceIs(Low(n / 2), n % 2 == 1);
  }

  lemma TwiceIs(x: Word, odd: bool) ensures Twice(x, odd) == Rfc.Shifted(x, Rfc.Bit(odd)) {}

  // ---------------------------------------------------------------- addition

  lemma PlusZero(x: Word) ensures Rfc.Plus(x, Rfc.ZERO) == x {}
  lemma AddBits(x: bv32, y: bv32) ensures Rfc.Add(x, y) == x + y {}
  lemma AddAddBits(x: bv32, y: bv32, z: bv32) ensures Rfc.Add(x, y + z) == Rfc.Add(x + y, z) {}
  lemma AddAssociates(x: bv32, y: bv32, z: bv32)
    ensures Rfc.Add(x, Rfc.Add(y, z)) == Rfc.Add(Rfc.Add(x, y), z)
  {
    hide Rfc.Add;
    AddBits(x, y);
    AddBits(y, z);
    AddAddBits(x, y, z);
  }
  lemma PlusAssociates(x: Word, y: Word, z: Word)
    ensures Rfc.Plus(x, Rfc.Plus(y, z)) == Rfc.Plus(Rfc.Plus(x, y), z)
  {
    hide Rfc.Add;
    AddAssociates(x.bits, y.bits, z.bits);
  }
  lemma PlusCommutes(x: Word, y: Word) ensures Rfc.Plus(x, y) == Rfc.Plus(y, x) {}
  lemma EvenSuc(x: Word) ensures Twice(x, true) == Rfc.Plus(Twice(x, false), Rfc.ONE) {}
  lemma OddSuc(x: Word) ensures Twice(Rfc.Plus(x, Rfc.ONE), false) == Rfc.Plus(Twice(x, true), Rfc.ONE) {}

  lemma {:induction false} LowSuc(n: nat)
    ensures Low(n + 1) == Rfc.Plus(Low(n), Rfc.ONE)
  {
    hide Rfc.Plus, Low, Twice;
    LowStep(n);
    LowStep(n + 1);
    var x := Low(n / 2);
    if n % 2 == 0 {
      assert (n + 1) / 2 == n / 2;
      EvenSuc(x);
    } else {
      assert (n + 1) / 2 == n / 2 + 1;
      LowSuc(n / 2);
      OddSuc(x);
    }
  }

  lemma LowZero() ensures Low(0) == Rfc.ZERO {}

  lemma {:induction false} LowPlus(x: nat, y: nat)
    ensures Low(x + y) == Rfc.Plus(Low(x), Low(y))
  {
    hide Rfc.Plus, Low;
    if y == 0 {
      LowZero();
      PlusZero(Low(x));
    } else {
      LowPlus(x, y - 1);
      LowSuc(x + y - 1);
      LowSuc(y - 1);
      PlusAssociates(Low(x), Low(y - 1), Rfc.ONE);
    }
  }

  lemma TwiceEven(x: Word) ensures Twice(x, false) == Rfc.Left(x, 1) {}
  lemma ShiftNone(x: Word) ensures Rfc.Left(x, 0) == x == Rfc.Right(x, 0) {}
  lemma ShiftOneMore(x: Word, s: bv32) requires 0 < s <= 32 ensures Rfc.Left(Rfc.Left(x, s - 1), 1) == Rfc.Left(x, s) {}
  lemma ShiftOut(x: Word) ensures Rfc.Left(x, 32) == Rfc.ZERO {}

  lemma LowDouble(n: nat)
    ensures Low(2 * n) == Rfc.Left(Low(n), 1)
  {
    hide Low, Twice, Rfc.Left;
    LowStep(2 * n);
    assert 2 * n / 2 == n;
    TwiceEven(Low(n));
  }

  lemma {:induction false} LowTimes(x: nat, s: bv32)
    requires s <= 32
    ensures Low(x * Scale(s)) == Rfc.Left(Low(x), s)
    decreases s
  {
    hide Low, Rfc.Left;
    if s == 0 {
      ShiftNone(Low(x));
    } else {
      LowTimes(x, s - 1);
      LowDouble(x * Scale(s - 1));
      ShiftOneMore(Low(x), s);
      TimesTwice(x, Scale(s - 1));
    }
  }

  lemma TimesTwice(x: nat, p: nat)
    ensures x * (2 * p) == 2 * (x * p)
  {}

  lemma ScaleIs()
    ensures Scale(8) == 0x100 && Scale(16) == 0x10000 && Scale(24) == 0x1000000
    ensures Scale(31) == 0x8000_0000 && Scale(32) == 0x1_0000_0000
  {
    assert Scale(4) == 16;
    assert Scale(12) == 0x1000;
    assert Scale(20) == 0x100000;
    assert Scale(28) == 0x10000000;
  }

  /** Whole multiples of the size of a word leave the lower 32 bits alone. */
  lemma LowWraps(n: nat, k: nat)
    ensures Low(n % Size(k)) == Low(n)
  {
    hide Low, Rfc.Plus, Rfc.Left, Size, Scale;
    var q, r := n / Size(k), n % Size(k);
    Divides(n, Size(k));
    SizeIs(q, k);
    ScaleIs();
    LowPlus(r, q * Size(k));
    LowTimes(q * Pow2(k), 32);
    ShiftOut(Low(q * Pow2(k)));
    PlusZero(Low(r));
  }

  lemma Divides(n: nat, m: nat)
    requires m > 0
    ensures n == n % m + n / m * m && n / m >= 0
  {}

  lemma SizeIs(q: nat, k: nat)
    ensures q * Size(k) == q * Pow2(k) * 0x1_0000_0000
  {}

  lemma LowOfSum(x: nat, y: nat, k: nat)
    ensures Low(Add(x, y, k)) == Rfc.Plus(Low(x), Low(y))
  {
    hide Low, Rfc.Plus, Size;
    LowWraps(x + y, k);
    LowPlus(x, y);
  }

  // ---------------------------------------------------------------- shifts

  lemma LowOfShiftLeft(x: nat, s: bv32, k: nat)
    requires s <= 32
    ensures Low(ShiftLeft(x, s, k)) == Rfc.Left(Low(x), s)
  {
    hide Low, Rfc.Left, Scale, Size;
    LowWraps(x * Scale(s), k);
    LowTimes(x, s);
  }

  lemma NoBits() ensures Rfc.Right(Rfc.ZERO, 0) == Rfc.ZERO {}
  lemma OneMoreBit(x: Word, odd: bool, j: bv32)
    requires 1 <= j <= 31 && Rfc.Right(x, j - 1) == Rfc.ZERO
    ensures Rfc.Right(Twice(x, odd), j) == Rfc.ZERO
  {}
  lemma DropBit(x: Word, odd: bool) requires Rfc.Right(x, 31) == Rfc.ZERO ensures Rfc.Right(Twice(x, odd), 1) == x {}
  lemma DropOneMore(x: Word, s: bv32)
    requires 1 <= s <= 32
    ensures Rfc.Right(Rfc.Right(x, 1), s - 1) == Rfc.Right(x, s)
  {}

  /** A number of `j` bits has no bit from the j-th on. */
  lemma {:induction false} LowIsShort(n: nat, j: bv32)
    requires j <= 31 && n < Scale(j)
    ensures Rfc.Right(Low(n), j) == Rfc.ZERO
    decreases j
  {
    hide Low, Twice, Rfc.Right;
    if j == 0 {
      LowZero();
      NoBits();
    } else {
      LowIsShort(n / 2, j - 1);
      LowStep(n);
      OneMoreBit(Low(n / 2), n % 2 == 1, j);
    }
  }

  lemma {:induction false} LowOfShiftRight(x: nat, s: bv32)
    requires x < 0x1_0000_0000 && s <= 32
    ensures Low(ShiftRight(x, s)) == Rfc.Right(Low(x), s)
    decreases s
  {
    hide Low, Twice, Rfc.Right, Scale;
    if s == 0 {
      ShiftNone(Low(x));
    } else {
      LowOfShiftRight(x / 2, s - 1);
      ScaleIs();
      LowIsShort(x / 2, 31);
      LowStep(x);
      DropBit(Low(x / 2), x % 2 == 1);
      DropOneMore(Low(x), s);
    }
  }

  // ---------------------------------------------------------------- bitwise operators

  lemma ShiftedAnd(x: Word, a: Word, y: Word, b: Word)
    requires a.bits <= 1 && b.bits <= 1
    ensures AndW(Rfc.Shifted(x, a), Rfc.Shifted(y, b)) == Rfc.Shifted(AndW(x, y), AndW(a, b))
  {}
  lemma BitAnd(a: bool, b: bool) ensures AndW(Rfc.Bit(a), Rfc.Bit(b)) == Rfc.Bit(a && b) {}
  lemma TwiceAnd(x: Word, a: bool, y: Word, b: bool)
    ensures AndW(Twice(x, a), Twice(y, b)) == Twice(AndW(x, y), a && b)
  {
    hide Rfc.Shifted, AndW;
    ShiftedAnd(x, Rfc.Bit(a), y, Rfc.Bit(b));
    BitAnd(a, b);
  }

  lemma ShiftedOr(x: Word, a: Word, y: Word, b: Word)
    requires a.bits <= 1 && b.bits <= 1
    ensures Rfc.Or(Rfc.Shifted(x, a), Rfc.Shifted(y, b)) == Rfc.Shifted(Rfc.Or(x, y), Rfc.Or(a, b))
  {}
  lemma BitOr(a: bool, b: bool) ensures Rfc.Or(Rfc.Bit(a), Rfc.Bit(b)) == Rfc.Bit(a || b) {}
  lemma TwiceOr(x: Word, a: bool, y: Word, b: bool)
    ensures Rfc.Or(Twice(x, a), Twice(y, b)) == Twice(Rfc.Or(x, y), a || b)
  {
    hide Rfc.Shifted, Rfc.Or;
    ShiftedOr(x, Rfc.Bit(a), y, Rfc.Bit(b));
    BitOr(a, b);
  }

  lemma ShiftedXor(x: Word, a: Word, y: Word, b: Word)
    requires a.bits <= 1 && b.bits <= 1
    ensures XorW(Rfc.Shifted(x, a), Rfc.Shifted(y, b)) == Rfc.Shifted(XorW(x, y), XorW(a, b))
  {}
  lemma BitXor(a: bool, b: bool) ensures XorW(Rfc.Bit(a), Rfc.Bit(b)) == Rfc.Bit(a != b) {}
  lemma TwiceXor(x: Word, a: bool, y: Word, b: bool)
    ensures XorW(Twice(x, a), Twice(y, b)) == Twice(XorW(x, y), a != b)
  {
    hide Rfc.Shifted, XorW;
    ShiftedXor(x, Rfc.Bit(a), y, Rfc.Bit(b));
    BitXor(a, b);
  }

  lemma WithZero(x: Word)
    ensures AndW(x, Rfc.ZERO) == Rfc.ZERO == AndW(Rfc.ZERO, x)
        && Rfc.Or(Rfc.ZERO, Rfc.ZERO) == Rfc.ZERO == XorW(Rfc.ZERO, Rfc.ZERO)
  {}

  lemma {:induction false} LowOfAnd(x: nat, y: nat)
    ensures Low(And(x, y)) == AndW(Low(x), Low(y))
  {
    hide Low, Twice, AndW;
    if x == 0 || y == 0 {
      LowZero();
      WithZero(Low(x));
      WithZero(Low(y));
    } else {
      LowOfAnd(x / 2, y / 2);
      LowStep(x);
      LowStep(y);
      LowStep(And(x, y));
      TwiceAnd(Low(x / 2), x % 2 == 1, Low(y / 2), y % 2 == 1);
    }
  }

  lemma {:induction false} LowOfOr(x: nat, y: nat)
    ensures Low(Or(x, y)) == Rfc.Or(Low(x), Low(y))
    decreases x + y
  {
    hide Low, Twice, Rfc.Or;
    if x == 0 && y == 0 {
      LowZero();
      WithZero(Rfc.ZERO);
    } else {
      LowOfOr(x / 2, y / 2);
      LowStep(x);
      LowStep(y);
      LowStep(Or(x, y));
      TwiceOr(Low(x / 2), x % 2 == 1, Low(y / 2), y % 2 == 1);
    }
  }

  lemma {:induction false} LowOfXor(x: nat, y: nat)
    ensures Low(Xor(x, y)) == XorW(Low(x), Low(y))
    decreases x + y
  {
    hide Low, Twice, XorW;
    if x == 0 && y == 0 {
      LowZero();
      WithZero(Rfc.ZERO);
    } else {
      LowOfXor(x / 2, y / 2);
      LowStep(x);
      LowStep(y);
      LowStep(Xor(x, y));
      TwiceXor(Low(x / 2), x % 2 == 1, Low(y / 2), y % 2 == 1);
    }
  }

  lemma AllOnes(x: Word) requires Rfc.Plus(x, Rfc.ONE) == Rfc.ZERO ensures x == ONES {}
  lemma Complement(x: Word, y: Word) requires Rfc.Plus(x, y) == ONES ensures x == NotW(y) {}

  /** The largest word has all of its lower bits set. */
  lemma LowOfLargest(k: nat)
    ensures Low(Size(k) - 1) == ONES
  {
    hide Low, Rfc.Plus, Size;
    LowSuc(Size(k) - 1);
    LowWraps(Size(k), k);
    Divides(Size(k), Size(k));
    LowZero();
    AllOnes(Low(Size(k) - 1));
  }

  lemma LowOfNot(x: nat, k: nat)
    requires Fits(x, k)
    ensures Low(Not(x, k)) == NotW(Low(x))
  {
    hide Low, Rfc.Plus, NotW, Size;
    LowPlus(Not(x, k), x);
    LowOfLargest(k);
    Complement(Low(Not(x, k)), Low(x));
  }

  lemma AndOnes(x: Word) ensures AndW(x, ONES) == x {}

  /** Masking with 0xffffffff leaves the lower bits as they are. */
  lemma LowOfMasked(x: nat)
    ensures Low(And(x, 0xffff_ffff)) == Low(x)
  {
    hide Low, And, AndW;
    assert Size(0) == 0x1_0000_0000;
    LowOfLargest(0);
    LowOfAnd(x, 0xffff_ffff);
    AndOnes(Low(x));
  }

  // ---------------------------------------------------------------- bytes

  lemma ByteShifted(x: Word, bit: Word)
    requires bit.bits <= 1
    ensures Rfc.LowByte(Rfc.Shifted(x,
        bit)) as nat == (2 * Rfc.LowByte(x) as nat + (if bit.bits == 1 then 1 else 0)) % 0x100
  {}
  lemma ByteTwice(x: Word, odd: bool)
    ensures Rfc.LowByte(Twice(x, odd)) as nat == (2 * Rfc.LowByte(x) as nat + (if odd then 1 else 0)) % 0x100
  {
    hide Rfc.LowByte, Rfc.Shifted;
    ByteShifted(x, Rfc.Bit(odd));
  }
  lemma ByteZero() ensures Rfc.LowByte(Rfc.ZERO) == 0 {}

  lemma {:induction false} LowByteIs(n: nat)
    ensures Rfc.LowByte(Low(n)) as nat == n % 0x100
  {
    hide Rfc.LowByte, Low, Twice;
    if n == 0 {
      LowZero();
      ByteZero();
    } else {
      LowByteIs(n / 2);
      LowStep(n);
      ByteTwice(Low(n / 2), n % 2 == 1);
      LastByte(n);
    }
  }

  lemma LastByte(n: nat)
    ensures (2 * (n / 2 % 0x100) + n % 2) % 0x100 == n % 0x100
  {
    var h := n / 2;
    Mod256(2 * (h / 0x100), 2 * (h % 0x100) + n % 2);
  }

  lemma {:induction false} ShiftRightIs(x: nat, s: bv32)
    ensures ShiftRight(x, s) == x / Scale(s)
    decreases s
  {
    if s == 0 {
    } else {
      ShiftRightIs(x / 2, s - 1);
      HalfFirst(x, Scale(s - 1));
    }
  }

  lemma HalfFirst(x: nat, p: nat)
    requires p > 0
    ensures x / 2 / p == x / (2 * p)
  {
    var q, r := x / 2 / p, x / 2 % p;
    Divides(x / 2, p);
    TimesTwice(q, p);
    Quotient(x, 2 * p, q, 2 * r + x % 2);
  }

  lemma Quotient(x: nat, m: nat, q: nat, r: nat)
    requires m > 0 && r < m && x == q * m + r
    ensures x / m == q
  {
    var q', r' := x / m, x % m;
    Divides(x, m);
    assert (q - q') * m == r' - r;
    if q > q' { AtLeast(q - q', m); }
    if q < q' { AtLeast(q' - q, m); }
  }

  lemma AtLeast(k: nat, m: nat)
    requires k >= 1
    ensures k * m >= m
  {}

  /** The byte that starts at bit `s` of a word is the one that starts there in its lower half. */
  lemma ByteAt(x: nat, s: bv32)
    requires s == 8 || s == 16 || s == 24
    ensures Rfc.LowByte(Rfc.Right(Low(x), s)) as nat == ShiftRight(x, s) % 0x100
  {
    hide Rfc.LowByte, Low, Scale, Rfc.Right, ShiftRight;
    ScaleIs();
    var u := x % 0x1_0000_0000;
    assert Size(0) == 0x1_0000_0000;
    LowWraps(x, 0);
    LowOfShiftRight(u, s);
    LowByteIs(ShiftRight(u, s));
    ShiftRightIs(u, s);
    ShiftRightIs(x, s);
    SameByte(x);
  }

  lemma SameByte(x: nat)
    ensures var u := x % 0x1_0000_0000;
            && u / 0x100 % 0x100 == x / 0x100 % 0x100
            && u / 0x10000 % 0x100 == x / 0x10000 % 0x100
            && u / 0x1000000 % 0x100 == x / 0x1000000 % 0x100
  {
    var q, u := x / 0x1_0000_0000, x % 0x1_0000_0000;
    assert x / 0x100 == 0x100 * (q * 0x1_0000) + u / 0x100;
    assert x / 0x10000 == 0x100 * (q * 0x100) + u / 0x10000;
    assert x / 0x1000000 == 0x100 * q + u / 0x1000000;
    Mod256(q * 0x1_0000, u / 0x100);
    Mod256(q * 0x100, u / 0x10000);
    Mod256(q, u / 0x1000000);
  }

  lemma Mod256(a: nat, b: nat)
    ensures (0x100 * a + b) % 0x100 == b % 0x100
  {}

  // ---------------------------------------------------------------- no operator leaves the word

  lemma {:induction false} OrFits(x: nat, y: nat, n: nat)
    requires x < Pow2(n) && y < Pow2(n)
    ensures Or(x, y) < Pow2(n)
    decreases n
  {
    if n == 0 {
    } else {
      OrFits(x / 2, y / 2, n - 1);
    }
  }

  lemma {:induction false} XorFits(x: nat, y: nat, n: nat)
    requires x < Pow2(n) && y < Pow2(n)
    ensures Xor(x, y) < Pow2(n)
    decreases n
  {
    if n == 0 {
    } else {
      XorFits(x / 2, y / 2, n - 1);
    }
  }

  lemma {:induction false} SizeIsPower(k: nat)
    ensures Size(k) == Pow2(32 + k)
  {
    if k == 0 {
      assert Pow2(8) == 0x100;
      assert Pow2(16) == 0x10000;
      assert Pow2(24) == 0x1000000;
    } else {
      SizeIsPower(k - 1);
    }
  }

  /** Halving takes the lowest bit off a residue. */
  lemma ModHalves(x: nat, p: nat)
    requires p > 0
    ensures x % (2 * p) == 2 * (x / 2 % p) + x % 2
  {
    Divides(x / 2, p);
    var r, q := x / 2 % p, x / 2 / p;
    assert x == 2 * r + x % 2 + q * (2 * p);
    Residue(x, 2 * p, q, 2 * r + x % 2);
  }

  lemma Residue(x: nat, m: nat, q: nat, r: nat)
    requires x == r + q * m && r < m
    ensures x % m == r
  {
    Quotient(x, m, q, r);
    Divides(x, m);
  }

  /** It keeps the low `n` bits, if it has as many. */
  lemma {:induction false} WrapKeepsLow(x: nat, wide: nat, n: nat)
    requires n <= wide
    ensures Wrap(Wrap(x, wide), n) == Wrap(x, n)
  {
    if n == 0 {
    } else {
      ModHalves(x, Pow2(wide - 1));
      ModHalves(Wrap(x, wide), Pow2(n - 1));
      ModHalves(x, Pow2(n - 1));
      WrapKeepsLow(x / 2, wide - 1, n - 1);
    }
  }

  lemma BitsFit(x: nat, y: nat, k: nat)
    requires Fits(x, k) && Fits(y, k)
    ensures Fits(Or(x, y), k) && Fits(Xor(x, y), k)
  {
    SizeIsPower(k);
    OrFits(x, y, 32 + k);
    XorFits(x, y, 32 + k);
  }
}
