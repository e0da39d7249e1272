/** RFC 1321, "The MD5 Message-Digest Algorithm": the reference definition the program is measured against. */
module Md5Rfc {
  import opened Bytes

  /** A 32-bit word. */
  datatype Word = Word(bits: bv32)

  const ZERO := Word(0)
  const ONE := Word(1)

  /** One more bit at the lower end of a word. */
  function Shifted(x: Word, bit: Word): Word { Word((x.bits << 1) | bit.bits) }

  function Bit(b: bool): Word { if b then ONE else ZERO }

  /** A number as a word, modulo 2^32. */
  function WordOf(n: nat): Word
  {
    if n == 0 then ZERO else Shifted(WordOf(n / 2), Bit(n % 2 == 1))
  }

  function Add(x: bv32, y: bv32): bv32 { x + y }
  function Plus(x: Word, y: Word): Word { Word(Add(x.bits, y.bits)) }
  function Or(x: Word, y: Word): Word { Word(x.bits | y.bits) }
  function Left(x: Word, s: bv32): Word requires s <= 32 { Word(x.bits << s) }
  function Right(x: Word, s: bv32): Word requires s <= 32 { Word(x.bits >> s) }

  // ---------------------------------------------------------------- section 3.4: auxiliary functions

  function F(x: Word, y: Word, z: Word): Word { Word((x.bits & y.bits) | (!x.bits & z.bits)) }
  function G(x: Word, y: Word, z: Word): Word { Word((x.bits & z.bits) | (y.bits & !z.bits)) }
  function H(x: Word, y: Word, z: Word): Word { Word(x.bits ^ y.bits ^ z.bits) }
  function I(x: Word, y: Word, z: Word): Word { Word(y.bits ^ (x.bits | !z.bits)) }

  /** The auxiliary function operation `i` applies. */
  function Mix(i: nat, x: Word, y: Word, z: Word): Word
  {
    if i < 16 then F(x, y, z) else if i < 32 then G(x, y, z) else if i < 48 then H(x, y, z) else I(x, y, z)
  }

  /** The circular left shift written `<<<` in the RFC. */
  function Rotl(x: Word, s: bv32): Word
    requires 0 < s < 32
  {
    Or(Left(x, s), Right(x, 32 - s))
  }

  function Sum(a: Word, f: Word, x: Word, t: Word): Word { Plus(Plus(Plus(a, f), x), t) }

  /** b + ((a + f + x + t) <<< s), where f is the value of the auxiliary function. */
  function Combine(f: Word, a: Word, b: Word, x: Word, t: Word, s: bv32): Word
    requires 0 < s < 32
  {
    Plus(b, Rotl(Sum(a, f, x, t), s))
  }

  // ---------------------------------------------------------------- section 3.4: the 64 operations

  /** The four-word buffer (A, B, C, D). */
  datatype Regs = Regs(a: Word, b: Word, c: Word, d: Word)

  /** The initial buffer of section 3.3. */
  function InitialRegs(): Regs { RegsOf([0x67452301, 0xefcdab89, 0x98badcfe, 0x10325476]) }

  function RegsOf(n: seq<nat>): Regs
    requires |n| == 4
  {
    Regs(WordOf(n[0]), WordOf(n[1]), WordOf(n[2]), WordOf(n[3]))
  }

  /** One entry [abcd k s i] of the listing: block word read, rotation, and the constant T[i]. */
  datatype Row = Row(k: nat, s: bv32, t: nat)

  function Round1Row(i: nat): (row: Row)
    ensures row.k < 16 && (row.s == 7 || row.s == 12 || row.s == 17 || row.s == 22)
  {
    match i
    case 0 => Row(0, 7, 0xd76aa478) case 1 => Row(1, 12, 0xe8c7b756)
    case 2 => Row(2, 17, 0x242070db) case 3 => Row(3, 22, 0xc1bdceee)
    case 4 => Row(4, 7, 0xf57c0faf) case 5 => Row(5, 12, 0x4787c62a)
    case 6 => Row(6, 17, 0xa8304613) case 7 => Row(7, 22, 0xfd469501)
    case 8 => Row(8, 7, 0x698098d8) case 9 => Row(9, 12, 0x8b44f7af)
    case 10 => Row(10, 17, 0xffff5bb1) case 11 => Row(11, 22, 0x895cd7be)
    case 12 => Row(12, 7, 0x6b901122) case 13 => Row(13, 12, 0xfd987193)
    case 14 => Row(14, 17, 0xa679438e) case 15 => Row(15, 22, 0x49b40821)
    case _ => Row(0, 7, 0)
  }

  function Round2Row(i: nat): (row: Row)
    ensures row.k < 16 && (row.s == 5 || row.s == 9 || row.s == 14 || row.s == 20)
  {
    match i
    case 16 => Row(1, 5, 0xf61e2562) case 17 => Row(6, 9, 0xc040b340)
    case 18 => Row(11, 14, 0x265e5a51) case 19 => Row(0, 20, 0xe9b6c7aa)
    case 20 => Row(5, 5, 0xd62f105d) case 21 => Row(10, 9, 0x02441453)
    case 22 => Row(15, 14, 0xd8a1e681) case 23 => Row(4, 20, 0xe7d3fbc8)
    case 24 => Row(9, 5, 0x21e1cde6) case 25 => Row(14, 9, 0xc33707d6)
    case 26 => Row(3, 14, 0xf4d50d87) case 27 => Row(8, 20, 0x455a14ed)
    case 28 => Row(13, 5, 0xa9e3e905) case 29 => Row(2, 9, 0xfcefa3f8)
    case 30 => Row(7, 14, 0x676f02d9) case 31 => Row(12, 20, 0x8d2a4c8a)
    case _ => Row(0, 5, 0)
  }

  function Round3Row(i: nat): (row: Row)
    ensures row.k < 16 && (row.s == 4 || row.s == 11 || row.s == 16 || row.s == 23)
  {
    match i
    case 32 => Row(5, 4, 0xfffa3942) case 33 => Row(8, 11, 0x8771f681)
    case 34 => Row(11, 16, 0x6d9d6122) case 35 => Row(14, 23, 0xfde5380c)
    case 36 => Row(1, 4, 0xa4beea44) case 37 => Row(4, 11, 0x4bdecfa9)
    case 38 => Row(7, 16, 0xf6bb4b60) case 39 => Row(10, 23, 0xbebfbc70)
    case 40 => Row(13, 4, 0x289b7ec6) case 41 => Row(0, 11, 0xeaa127fa)
    case 42 => Row(3, 16, 0xd4ef3085) case 43 => Row(6, 23, 0x04881d05)
    case 44 => Row(9, 4, 0xd9d4d039) case 45 => Row(12, 11, 0xe6db99e5)
    case 46 => Row(15, 16, 0x1fa27cf8) case 47 => Row(2, 23, 0xc4ac5665)
    case _ => Row(0, 4, 0)
  }

  function Round4Row(i: nat): (row: Row)
    ensures row.k < 16 && (row.s == 6 || row.s == 10 || row.s == 15 || row.s == 21)
  {
    match i
    case 48 => Row(0, 6, 0xf4292244) case 49 => Row(7, 10, 0x432aff97)
    case 50 => Row(14, 15, 0xab9423a7) case 51 => Row(5, 21, 0xfc93a039)
    case 52 => Row(12, 6, 0x655b59c3) case 53 => Row(3, 10, 0x8f0ccc92)
    case 54 => Row(10, 15, 0xffeff47d) case 55 => Row(1, 21, 0x85845dd1)
    case 56 => Row(8, 6, 0x6fa87e4f) case 57 => Row(15, 10, 0xfe2ce6e0)
    case 58 => Row(6, 15, 0xa3014314) case 59 => Row(13, 21, 0x4e0811a1)
    case 60 => Row(4, 6, 0xf7537e82) case 61 => Row(11, 10, 0xbd3af235)
    case 62 => Row(2, 15, 0x2ad7d2bb) case 63 => Row(9, 21, 0xeb86d391)
    case _ => Row(0, 6, 0)
  }

  /** The listing of the 64 operations; T[i] is the integer part of 4294967296 times abs(sin(i)). */
  function Schedule(i: nat): (row: Row)
    ensures row.k < 16 && 0 < row.s < 32
  {
    if i < 16 then Round1Row(i) else if i < 32 then Round2Row(i) else if i < 48 then Round3Row(i) else Round4Row(i)
  }

  /** The word operation `i` computes from the registers it names a, b, c, d and the block `x`. */
  function OpWord(i: nat, a: Word, b: Word, c: Word, d: Word, x: seq<Word>): Word
    requires |x| == 16
  {
    var row := Schedule(i);
    Combine(Mix(i, b, c, d), a, b, x[row.k], WordOf(row.t), row.s)
  }

  /** Operation `i`, followed by the rotation of the register names: [ABCD ...], [DABC ...], [CDAB ...], [BCDA ...]. */
  function Op(i: nat, r: Regs, x: seq<Word>): Regs
    requires |x| == 16
  {
    Regs(r.d, OpWord(i, r.a, r.b, r.c, r.d, x), r.b, r.c)
  }

  /** The first `n` operations. */
  function Ops(r: Regs, x: seq<Word>, n: nat): Regs
    requires |x| == 16
  {
    if n == 0 then r else Op(n - 1, Ops(r, x, n - 1), x)
  }

  // ---------------------------------------------------------------- sections 2 and 3.4: blocks

  /** Four bytes as a word, low-order byte first. */
  function Join(b0: byte, b1: byte, b2: byte, b3: byte): Word
  {
    WordOf(b0 as nat + 0x100 * b1 as nat + 0x10000 * b2 as nat + 0x1000000 * b3 as nat)
  }

  function WordAt(p: seq<byte>, n: nat): Word
    requires 4 * n + 4 <= |p|
  {
    Join(p[4 * n], p[4 * n + 1], p[4 * n + 2], p[4 * n + 3])
  }

  function Words(p: seq<byte>): (x: seq<Word>)
    requires |p| == 64
    ensures |x| == 16
    ensures forall n :: 0 <= n < 16 ==> x[n] == WordAt(p, n)
  {
    seq(16, n requires 0 <= n < 16 => WordAt(p, n))
  }

  function PlusAll(r: Regs, s: Regs): Regs
  {
    Regs(Plus(s.a, r.a), Plus(s.b, r.b), Plus(s.c, r.c), Plus(s.d, r.d))
  }

  /** What processing one 16-word block does to the buffer. */
  function Compress(r: Regs, p: seq<byte>): Regs
    requires |p| == 64
  {
    PlusAll(r, Ops(r, Words(p), 64))
  }

  /** The blocks of `p`, one after the other. */
  function CompressAll(r: Regs, p: seq<byte>): Regs
    requires |p| % 64 == 0
    decreases |p|
  {
    if |p| == 0 then r
    else
      OneBlockLess(|p|);
      CompressAll(Compress(r, p[..64]), p[64..])
  }

  lemma OneBlockLess(n: nat)
    requires n % 64 == 0 && n > 0
    ensures n >= 64 && (n - 64) % 64 == 0
  {}

  // ---------------------------------------------------------------- sections 3.1, 3.2 and 3.5

  /** How many zero bytes section 3.1 appends after the byte 0x80 to a message of `n` bytes. */
  function ZeroCount(n: nat): (z: nat)
    ensures z < 64 && (n + 1 + z) % 64 == 56
  {
    (55 - n) % 64
  }

  /** `width` bytes of `n`, low-order byte first; what does not fit is dropped. */
  function LittleEndian(n: nat, width: nat): (s: seq<byte>)
    ensures |s| == width
  {
    if width == 0 then [] else [(n % 0x100) as byte] + LittleEndian(n / 0x100, width - 1)
  }

  /** The bit length of an `n`-byte message, as the 64-bit quantity of section 3.2. */
  function LengthField(n: nat): (s: seq<byte>)
    ensures |s| == 8
  {
    LittleEndian(8 * n, 8)
  }

  lemma EightMore(n: nat)
    requires n % 64 == 56
    ensures (n + 8) % 64 == 0
  {}

  function Padding(n: nat): (s: seq<byte>)
    ensures (n + |s|) % 64 == 0
  {
    EightMore(n + 1 + ZeroCount(n));
    [0x80] + Fill(ZeroCount(n), 0) + LengthField(n)
  }

  function Padded(msg: seq<byte>): (s: seq<byte>)
    ensures |s| % 64 == 0
  {
    msg + Padding(|msg|)
  }

  function LowByte(w: Word): byte { (w.bits & 0xff) as bv8 as byte }

  /** A word as four bytes, low-order byte first. */
  function WordBytes(w: Word): (s: seq<byte>)
    ensures |s| == 4
  {
    [LowByte(w), LowByte(Right(w, 8)), LowByte(Right(w, 16)), LowByte(Right(w, 24))]
  }

  function Output(r: Regs): (s: seq<byte>)
    ensures |s| == 16
  {
    WordBytes(r.a) + WordBytes(r.b) + WordBytes(r.c) + WordBytes(r.d)
  }

  /** The message digest. */
  function Digest(msg: seq<byte>): (s: seq<byte>)
    ensures |s| == 16
  {
    Output(CompressAll(InitialRegs(), Padded(msg)))
  }
}
