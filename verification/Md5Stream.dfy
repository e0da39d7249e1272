/** How a message splits into hashed blocks and an unhashed tail, and how its length is counted in two words. */
module Md5Stream {
  import opened Bytes
  import Unsigned
  import opened Rfc = Md5Rfc

  // ---------------------------------------------------------------- blocks and tail

  function FullBlocks(msg: seq<byte>): (s: seq<byte>)
    ensures |s| % 64 == 0
  {
    msg[..|msg| - |msg| % 64]
  }

  function Tail(msg: seq<byte>): (s: seq<byte>)
    ensures |s| == |msg| % 64
  {
    msg[|msg| - |msg| % 64..]
  }

  lemma FilledBlock(n: nat, k: nat)
    requires n % 64 + k == 64
    ensures (n + k) % 64 == 0
  {
    assert n + k == 64 * (n / 64 + 1);
  }

  /** Hashing block by block composes. */
  lemma {:induction false} CompressAllSplit(r: Regs, x: seq<byte>, y: seq<byte>)
    requires |x| % 64 == 0 && |y| % 64 == 0
    ensures |x + y| % 64 == 0
    ensures CompressAll(r, x + y) == CompressAll(CompressAll(r, x), y)
    decreases |x|
  {
    hide Compress;
    if |x| == 0 {
      assert x + y == y;
    } else {
      assert (x + y)[..64] == x[..64] && (x + y)[64..] == x[64..] + y;
      CompressAllSplit(Compress(r, x[..64]), x[64..], y);
    }
  }

  lemma StartOfBlock(msg: seq<byte>)
    requires |msg| % 64 == 0
    ensures FullBlocks(msg) == msg
  {}

  lemma AbsorbWithinBlock(msg: seq<byte>, data: seq<byte>)
    requires |msg| % 64 + |data| < 64
    ensures FullBlocks(msg + data) == FullBlocks(msg)
    ensures Tail(msg + data) == Tail(msg) + data
  {
    assert |msg + data| % 64 == |msg| % 64 + |data|;
  }

  lemma AbsorbFirstBlock(msg: seq<byte>, data: seq<byte>)
    requires |msg| % 64 + |data| == 64
    ensures |msg + data| % 64 == 0 && |Tail(msg) + data| == 64
    ensures CompressAll(InitialRegs(), msg + data)
         == CompressAll(CompressAll(InitialRegs(), FullBlocks(msg)), Tail(msg) + data)
  {
    hide CompressAll, InitialRegs;
    FilledBlock(|msg|, |data|);
    assert FullBlocks(msg) + (Tail(msg) + data) == msg + data;
    CompressAllSplit(InitialRegs(), FullBlocks(msg), Tail(msg) + data);
  }

  lemma AbsorbRest(seen: seq<byte>, rest: seq<byte>)
    requires |seen| % 64 == 0 && |rest| < 64
    ensures FullBlocks(seen + rest) == seen
    ensures Tail(seen + rest) == rest
  {
    assert |seen + rest| % 64 == |rest|;
  }

  // ---------------------------------------------------------------- padding

  lemma ZeroCountByCase(n: nat)
    ensures ZeroCount(n) == if n % 64 <= 55 then 55 - n % 64 else 119 - n % 64
  {}

  /** The blocks Final feeds to the transformation are the rest of the padded message: one block ... */
  lemma PaddedOneBlock(msg: seq<byte>, last: seq<byte>)
    requires var t := Tail(msg) + [0x80];
             |t| <= 56 && last == t + Fill(56 - |t|, 0) + LengthField(|msg|)
    ensures FullBlocks(msg) + last == Padded(msg)
  {
    hide LengthField, ZeroCount;
    ZeroCountByCase(|msg|);
    assert FullBlocks(msg) + Tail(msg) == msg;
  }

  /** ... or two. */
  lemma PaddedTwoBlocks(msg: seq<byte>, first: seq<byte>, last: seq<byte>)
    requires var t := Tail(msg) + [0x80];
             |t| > 56 && first == t + Fill(64 - |t|, 0) && last == Fill(56, 0) + LengthField(|msg|)
    ensures FullBlocks(msg) + first + last == Padded(msg)
  {
    hide LengthField, ZeroCount;
    ZeroCountByCase(|msg|);
    assert FullBlocks(msg) + Tail(msg) == msg;
    assert Fill(63 - |Tail(msg)|, 0) + Fill(56, 0) == Fill(119 - |Tail(msg)|, 0);
  }

  /** The padding up to the length: what of it makes a block of its own, and what is in the buffer. */
  ghost predicate OpenPadding(msg: seq<byte>, first: seq<byte>, open: seq<byte>)
  {
    var t := Tail(msg) + [0x80];
    && |first| % 64 == 0
    && first == (if |t| > 56 then t + Fill(64 - |t|, 0) else []) && open == if |t| > 56 then [] else t
  }

  lemma PaddingIsOpen(msg: seq<byte>, first: seq<byte>, open: seq<byte>)
    requires OpenPadding(msg, first, open)
    ensures |first| % 64 == 0 && |open| <= 56
  {}

  /** Zeros and the length behind it complete the padding. */
  lemma PaddingCloses(msg: seq<byte>, first: seq<byte>, open: seq<byte>)
    requires OpenPadding(msg, first, open) && |open| <= 56
    ensures FullBlocks(msg) + first + (open + Fill(56 - |open|, 0) + LengthField(|msg|)) == Padded(msg)
  {
    hide LengthField, Padded, FullBlocks, Tail;
    var last := open + Fill(56 - |open|, 0) + LengthField(|msg|);
    if first == [] {
      PaddedOneBlock(msg, last);
      assert FullBlocks(msg) + first + last == FullBlocks(msg) + last;
    } else {
      assert last == Fill(56, 0) + LengthField(|msg|);
      PaddedTwoBlocks(msg, first, last);
    }
  }

  lemma DigestIs(msg: seq<byte>, padded: seq<byte>)
    requires padded == Padded(msg)
    ensures Digest(msg) == Output(CompressAll(InitialRegs(), padded))
  {
    hide CompressAll, InitialRegs, Output;
  }

  // ---------------------------------------------------------------- the length counters

  /** The low counter: 29 bits, so that shifting it left by three fits in 32. */
  function LowCount(n: nat): (lo: uint32)
    ensures lo < 0x2000_0000
  {
    n % 0x2000_0000
  }

  function HighCount(n: nat): (hi: uint32)
  {
    n / 0x2000_0000 % 0x1_0000_0000
  }

  /** Together the counters hold the length modulo 2^61. */
  lemma CountersHoldLength(n: nat)
    ensures HighCount(n) * 0x2000_0000 + LowCount(n) == n % 0x2000_0000_0000_0000
  {
    var q := n / 0x2000_0000;
    var h, p := q % 0x1_0000_0000, q / 0x1_0000_0000;
    assert n == p * 0x2000_0000_0000_0000 + (h * 0x2000_0000 + n % 0x2000_0000);
  }

  /**
   * The update of the counters, carry by comparison included, counts any number of new bytes; the sum with the low
   * counter wraps in 32 or more bits.
   */
  lemma CountersAdvance(n: nat, size: nat, wide: nat)
    requires wide >= 32
    ensures var lo := Unsigned.Wrap(LowCount(n) + size, wide) % 0x2000_0000;
            var carried := if lo < LowCount(n) then (HighCount(n) + 1) % 0x1_0000_0000 else HighCount(n);
            && lo == LowCount(n + size)
            && (carried + size / 0x2000_0000) % 0x1_0000_0000 == HighCount(n + size)
  {
    hide Unsigned.Wrap;
    LowCounterWraps(LowCount(n) + size, wide);
    var l, q := n % 0x2000_0000, n / 0x2000_0000;
    var r, p := size % 0x2000_0000, size / 0x2000_0000;
    var carry := if l + r < 0x2000_0000 then 0 else 1;
    assert n + size == (q + p + carry) * 0x2000_0000 + (l + r - carry * 0x2000_0000);
    assert (n + size) / 0x2000_0000 == q + p + carry;
    assert (l + size) % 0x2000_0000 == l + r - carry * 0x2000_0000;
    ModAdds(q, carry);
    ModAdds(q + carry, p);
  }

  /** What the low counter keeps of a sum it keeps of the wrapped sum. */
  lemma LowCounterWraps(x: nat, wide: nat)
    requires wide >= 32
    ensures Unsigned.Wrap(x, wide) % 0x2000_0000 == x % 0x2000_0000
  {
    Powers();
    Unsigned.WrapKeepsLow(x, wide, 29);
  }

  lemma Powers()
    ensures Unsigned.Pow2(29) == 0x2000_0000 && Unsigned.Pow2(32) == 0x1_0000_0000
  {
    Unsigned.SizeIsPower(0);
    assert Unsigned.Pow2(32) == 8 * Unsigned.Pow2(29);
  }

  lemma ModAdds(x: nat, y: nat)
    ensures (x % 0x1_0000_0000 + y) % 0x1_0000_0000 == (x + y) % 0x1_0000_0000
  {}

  lemma LowCountKeepsOffset(n: nat)
    ensures LowCount(n) % 64 == n % 64
  {}

  /** The two counters, three bits up, are the two halves of the length field. */
  lemma LengthFieldSplits(n: nat)
    ensures LengthField(n) == LittleEndian(8 * LowCount(n), 4) + LittleEndian(HighCount(n), 4)
  {
    hide LittleEndian;
    EightTimes(n);
    LittleEndianSplits(8 * n);
    LittleEndianDrops(8 * n);
    LittleEndianDrops(n / 0x2000_0000);
  }

  lemma EightTimes(n: nat)
    ensures 8 * n % 0x1_0000_0000 == 8 * (n % 0x2000_0000)
    ensures 8 * n / 0x1_0000_0000 == n / 0x2000_0000
  {
    var q, l := n / 0x2000_0000, n % 0x2000_0000;
    assert 8 * n == q * 0x1_0000_0000 + 8 * l;
  }

  lemma Peel(x: nat, width: nat)
    requires width > 0
    ensures LittleEndian(x, width) == [(x % 0x100) as byte] + LittleEndian(x / 0x100, width - 1)
  {}

  lemma Quotients(x: nat)
    ensures x / 0x100 / 0x100 == x / 0x10000 && x / 0x10000 / 0x100 == x / 0x1000000
    ensures x / 0x1000000 / 0x100 == x / 0x1_0000_0000
  {}

  /** The lowest four bytes, and the rest. */
  lemma PeelFour(x: nat, width: nat)
    requires width >= 4
    ensures LittleEndian(x, width) == [(x % 0x100) as byte, (x / 0x100 % 0x100) as byte,
                                       (x / 0x10000 % 0x100) as byte, (x / 0x1000000 % 0x100) as byte]
                                      + LittleEndian(x / 0x1_0000_0000, width - 4)
  {
    hide LittleEndian;
    Quotients(x);
    Peel(x, width);
    Peel(x / 0x100, width - 1);
    Peel(x / 0x10000, width - 2);
    Peel(x / 0x1000000, width - 3);
  }

  lemma FourBytes(x: nat)
    ensures LittleEndian(x, 4) == [(x % 0x100) as byte, (x / 0x100 % 0x100) as byte,
                                   (x / 0x10000 % 0x100) as byte, (x / 0x1000000 % 0x100) as byte]
  {
    PeelFour(x, 4);
  }

  lemma LittleEndianSplits(x: nat)
    ensures LittleEndian(x, 8) == LittleEndian(x, 4) + LittleEndian(x / 0x1_0000_0000, 4)
  {
    hide LittleEndian;
    PeelFour(x, 8);
    FourBytes(x);
  }

  lemma LittleEndianDrops(x: nat)
    ensures LittleEndian(x % 0x1_0000_0000, 4) == LittleEndian(x, 4)
  {
    hide LittleEndian;
    FourBytes(x);
    FourBytes(x % 0x1_0000_0000);
    var q, y := x / 0x1_0000_0000, x % 0x1_0000_0000;
    Unsigned.Mod256(q * 0x100_0000, y);
    Unsigned.Mod256(q * 0x1_0000, y / 0x100);
    Unsigned.Mod256(q * 0x100, y / 0x10000);
    Unsigned.Mod256(q, y / 0x1000000);
    assert x / 0x100 == 0x100 * (q * 0x1_0000) + y / 0x100;
    assert x / 0x10000 == 0x100 * (q * 0x100) + y / 0x10000;
    assert x / 0x1000000 == 0x100 * q + y / 0x1000000;
  }
}
