/**
 * MD5_CTX and its three operations: hashing a message that arrives in pieces. Its words are unsigned integers of 32 +
 * k bits, for any k: "any 32-bit or wider unsigned integer data type will do". Sums with a size are taken in `wide`
 * bits: those of unsigned long, or of a word where that is wider.
 */
module Md5Context {
  import opened Bytes
  import opened Unsigned
  import opened Md5Words
  import opened Md5Body
  import opened Md5Stream
  import Rfc = Md5Rfc

  /** Adding to the high counter, seen from its lower half; a sum of more bits than a word has is cut to those. */
  lemma HighAdds(hi: nat, n: nat, k: nat, wide: nat)
    requires wide >= 32 + k
    ensures Wrap(hi + n, wide) % Size(k) == Add(hi, n, k)
    ensures Add(hi, n, k) % 0x1_0000_0000 == (hi % 0x1_0000_0000 + n) % 0x1_0000_0000
  {
    hide Size, Pow2;
    SizeIsPower(k);
    Powers();
    WrapKeepsLow(hi + n, wide, 32 + k);
    WrapKeepsLow(hi + n, 32 + k, 32);
    AddLower(hi, n);
  }

  lemma AddLower(hi: nat, n: nat)
    ensures (hi + n) % 0x1_0000_0000 == (hi % 0x1_0000_0000 + n) % 0x1_0000_0000
  {}

  lemma Started(k: nat)
    ensures Lows(0x67452301, 0xefcdab89, 0x98badcfe, 0x10325476) == Rfc.InitialRegs()
    ensures FitAll(0x67452301, 0xefcdab89, 0x98badcfe, 0x10325476, k)
  {
    hide Rfc.WordOf;
  }

  lemma NoMoreBlocks(r: Rfc.Regs)
    ensures Rfc.CompressAll(r, []) == r
  {}

  class MD5Context {
    const k: nat
    const wide: nat
    var lo: nat
    var hi: nat
    var a: nat
    var b: nat
    var c: nat
    var d: nat
    const buffer: array<byte>
    const block: array<nat>

    ghost predicate Valid()
      reads this
    {
      && buffer.Length == 64 && block.Length == 16 && wide >= 32 + k
      && Fits(lo, k) && Fits(hi, k) && FitAll(a, b, c, d, k)
    }

    /** The lower halves of the four registers. */
    ghost function Registers(): Rfc.Regs
      reads this
    {
      Lows(a, b, c, d)
    }

    /** The context stands for the message `msg`: what is left of it to hash is in the buffer, the rest is hashed. */
    ghost predicate Absorbed(msg: seq<byte>)
      reads this, buffer
    {
      && Valid()
      && lo == LowCount(|msg|)
      && hi % 0x1_0000_0000 == HighCount(|msg|)
      && Registers() == Rfc.CompressAll(Rfc.InitialRegs(), FullBlocks(msg))
      && buffer[..|msg| % 64] == Tail(msg)
    }

    /** An uninitialised context. */
    constructor (k: nat, wide: nat)
      requires wide >= 32 + k
      ensures Valid() && fresh(buffer) && fresh(block) && this.k == k && this.wide == wide
    {
      this.k, this.wide := k, wide;
      buffer := new byte[64];
      block := new nat[16](_ => 0);
      lo, hi, a, b, c, d := 0, 0, 0, 0, 0, 0;
    }

    method Init()
      requires Valid()
      modifies this
      ensures Absorbed([])
    {
      hide Lows, FitAll, Rfc.InitialRegs;
      a, b, c, d := 0x67452301, 0xefcdab89, 0x98badcfe, 0x10325476;
      lo, hi := 0, 0;
      Started(k);
    }

    /** Processes one or more whole blocks. */
    method Body(data: seq<byte>)
      requires Valid() && 0 < |data| && |data| % 64 == 0
      modifies `a, `b, `c, `d, block
      ensures Valid() && Registers() == Rfc.CompressAll(old(Registers()), data)
    {
      hide Rfc.Compress, Lows, FitAll;
      var a, b, c, d := this.a, this.b, this.c, this.d;
      var ptr := data;
      while |ptr| != 0
        invariant |ptr| % 64 == 0 && FitAll(a, b, c, d, k)
        invariant Rfc.CompressAll(Lows(a, b, c, d), ptr) == Rfc.CompressAll(old(Registers()), data)
        decreases |ptr|
        modifies block
      {
        a, b, c, d := OneBlock(ptr[..64], a, b, c, d);
        ptr := ptr[64..];
      }
      this.a, this.b, this.c, this.d := a, b, c, d;
    }

    /** One turn of the loop of `Body`. */
    method OneBlock(ptr: seq<byte>, a0: nat, b0: nat, c0: nat, d0: nat) returns (a: nat, b: nat, c: nat, d: nat)
      requires Valid() && |ptr| == 64
      modifies block
      ensures Lows(a, b, c, d) == Rfc.Compress(Lows(a0, b0, c0, d0), ptr) && FitAll(a, b, c, d, k)
    {
      hide Low, Fits, Rfc.Op, Rfc.Plus, Rfc.Words;
      var savedA, savedB, savedC, savedD := a0, b0, c0, d0;
      ghost var saved := Lows(a0, b0, c0, d0);
      a, b, c, d := Round1(block, ptr, k, a0, b0, c0, d0, saved);
      a, b, c, d := Round2(block, k, a, b, c, d, saved);
      a, b, c, d := Round3(block, k, a, b, c, d, saved);
      a, b, c, d := Round4(block, k, a, b, c, d, saved);
      LowOfSum(a, savedA, k);
      LowOfSum(b, savedB, k);
      LowOfSum(c, savedC, k);
      LowOfSum(d, savedD, k);
      a := Add(a, savedA, k);
      b := Add(b, savedB, k);
      c := Add(c, savedC, k);
      d := Add(d, savedD, k);
    }

    /** The length counters of `Update`; `savedLo` is what the low one held. */
    method Count(size: nat, ghost n: nat) returns (savedLo: nat)
      requires Valid() && lo == LowCount(n) && hi % 0x1_0000_0000 == HighCount(n)
      modifies `lo, `hi
      ensures Valid() && lo == LowCount(n + size) && hi % 0x1_0000_0000 == HighCount(n + size)
      ensures savedLo == old(lo)
    {
      hide FitAll, LowCount, HighCount, Size, Wrap, Add;
      savedLo := lo;
      CountersAdvance(n, size, wide);
      lo := Wrap(savedLo + size, wide) % 0x2000_0000;
      if lo < savedLo {
        HighAdds(hi, 1, k, wide);
        hi := Add(hi, 1, k);
      }
      HighAdds(hi, size / 0x2000_0000, k, wide);
      hi := Wrap(hi + size / 0x2000_0000, wide) % Size(k);
    }

    method Update(data: seq<byte>, ghost msg: seq<byte>)
      requires Absorbed(msg)
      modifies this, buffer, block
      ensures Absorbed(msg + data)
    {
      hide Rfc.CompressAll, Rfc.InitialRegs, Lows, FitAll, Fits, LowCount, HighCount, FullBlocks, Tail;
      var savedLo := Count(|data|, |msg|);
      var used := savedLo % 64;
      LowCountKeepsOffset(|msg|);
      if used == 0 {
        StartOfBlock(msg);
        AbsorbBlocks(data, msg);
      } else {
        var available := 64 - used;
        if |data| < available {
          Memcpy(buffer, used, data);
          AbsorbWithinBlock(msg, data);
          return;
        }
        CompleteBlock(data[..available], msg);
        assert msg + data[..available] + data[available..] == msg + data;
        AbsorbBlocks(data[available..], msg + data[..available]);
      }
    }

    /** The carry buffer is topped up and hashed. */
    method CompleteBlock(data: seq<byte>, ghost msg: seq<byte>)
      requires Valid() && |msg| % 64 + |data| == 64
      requires Registers() == Rfc.CompressAll(Rfc.InitialRegs(), FullBlocks(msg)) && buffer[..|msg| % 64] == Tail(msg)
      modifies `a, `b, `c, `d, buffer, block
      ensures |msg + data| % 64 == 0 && Valid()
      ensures Registers() == Rfc.CompressAll(Rfc.InitialRegs(), msg + data)
    {
      hide Rfc.CompressAll, Rfc.InitialRegs, Lows, FitAll, Fits, FullBlocks, Tail;
      FilledBlock(|msg|, |data|);
      Memcpy(buffer, 64 - |data|, data);
      assert buffer[..] == Tail(msg) + data;
      Body(buffer[..]);
      AbsorbFirstBlock(msg, data);
    }

    /** With nothing carried over, whole blocks are hashed where they are and the rest is kept. */
    method AbsorbBlocks(data: seq<byte>, ghost seen: seq<byte>)
      requires Valid() && |seen| % 64 == 0
      requires Registers() == Rfc.CompressAll(Rfc.InitialRegs(), seen)
      modifies `a, `b, `c, `d, buffer, block
      ensures Valid() && Registers() == Rfc.CompressAll(Rfc.InitialRegs(), FullBlocks(seen + data))
      ensures buffer[..|seen + data| % 64] == Tail(seen + data)
    {
      hide Rfc.CompressAll, Rfc.InitialRegs, Lows, FitAll, Fits;
      var size := |data|;
      if |data| >= 64 {
        size := |data| % 64;
        Body(data[..|data| - size]);
        CompressAllSplit(Rfc.InitialRegs(), seen, data[..|data| - size]);
      }
      var rest := data[|data| - size..];
      Memcpy(buffer, 0, rest);
      assert seen + data == (seen + data[..|data| - size]) + rest;
      AbsorbRest(seen + data[..|data| - size], rest);
    }

    /** The byte 0x80, and if the length does not fit behind it, zeros up to the end of the block, which is hashed. */
    method StartPadding(ghost msg: seq<byte>) returns (used: nat, ghost first: seq<byte>)
      requires Absorbed(msg)
      modifies `a, `b, `c, `d, buffer, block
      ensures Valid() && used <= 56
      ensures OpenPadding(msg, first, buffer[..used])
      ensures Registers() == Rfc.CompressAll(Rfc.CompressAll(Rfc.InitialRegs(), FullBlocks(msg)), first)
    {
      hide Rfc.CompressAll, Rfc.InitialRegs, Lows, FitAll, FullBlocks, Tail, Size;
      used := lo % 64;
      LowCountKeepsOffset(|msg|);
      buffer[used] := 0x80;
      used := used + 1;
      assert buffer[..used] == Tail(msg) + [0x80];
      var available := 64 - used;
      first := [];
      if available < 8 {
        Memset(buffer, used, 0, available);
        first := buffer[..];
        assert first == Tail(msg) + [0x80] + Fill(available, 0);
        Body(buffer[..]);
        used := 0;
      } else {
        NoMoreBlocks(Registers());
      }
    }

    /** Zeros and the length behind what is in the buffer, and the last block is hashed. */
    method FinishPadding(used: nat, ghost msg: seq<byte>, ghost first: seq<byte>)
      requires Valid() && used <= 56 && lo == LowCount(|msg|) && hi % 0x1_0000_0000 == HighCount(|msg|)
      requires OpenPadding(msg, first, buffer[..used])
      requires Registers() == Rfc.CompressAll(Rfc.CompressAll(Rfc.InitialRegs(), FullBlocks(msg)), first)
      modifies `lo, `a, `b, `c, `d, buffer, block
      ensures Valid() && Registers() == Rfc.CompressAll(Rfc.InitialRegs(), Rfc.Padded(msg))
    {
      hide Rfc.CompressAll, Rfc.InitialRegs, Lows, FitAll, FullBlocks, Tail, Rfc.LengthField, Rfc.Padded, Size,
        LowCount,
        HighCount, OpenPadding;
      PaddingIsOpen(msg, first, buffer[..used]);
      CompressAllSplit(Rfc.InitialRegs(), FullBlocks(msg), first);
      ghost var done, open := FullBlocks(msg) + first, buffer[..used];
      var available := 64 - used;
      Memset(buffer, used, 0, available - 8);
      lo := lo * 8;
      StoreLength(|msg|);
      ghost var last := open + Fill(available - 8, 0) + Rfc.LengthField(|msg|);
      assert buffer[..] == last;
      PaddingCloses(msg, first, open);
      Body(buffer[..]);
      CompressAllSplit(Rfc.InitialRegs(), done, last);
    }

    /** Pads, writes the digest into `result` from index `at` on, and wipes the context. */
    method Final(result: array<byte>, at: nat, ghost msg: seq<byte>)
      requires Absorbed(msg)
      requires at + 16 <= result.Length && result != buffer
      modifies this, buffer, block, result
      ensures result[..] == Splice(old(result[..]), at, Rfc.Digest(msg))
      ensures buffer[..] == Fill(64, 0) && lo == hi == a == b == c == d == 0
      ensures forall i :: 0 <= i < 16 ==> block[i] == 0
    {
      hide Rfc.CompressAll, Rfc.InitialRegs, Rfc.Output, Rfc.Digest, Rfc.Padded, Lows, FitAll, FullBlocks, Tail, Size,
        LowCount, HighCount, Splice, OpenPadding;
      var used, first := StartPadding(msg);
      FinishPadding(used, msg, first);
      Emit(result, at);
      DigestIs(msg, Rfc.Padded(msg));
      Wipe();
    }

    /** memset of the whole context. */
    method Wipe()
      requires Valid()
      modifies this, buffer, block
      ensures buffer[..] == Fill(64, 0) && lo == hi == a == b == c == d == 0
      ensures forall i :: 0 <= i < 16 ==> block[i] == 0
    {
      Memset(buffer, 0, 0, 64);
      forall i | 0 <= i < 16 {
        block[i] := 0;
      }
      lo, hi, a, b, c, d := 0, 0, 0, 0, 0, 0;
    }

    /** Four bytes of each counter; what a wide counter holds above 32 bits is not stored. */
    method StoreLength(ghost n: nat)
      requires Valid() && lo == 8 * LowCount(n) && hi % 0x1_0000_0000 == HighCount(n)
      modifies buffer
      ensures buffer[..] == old(buffer[..56]) + Rfc.LengthField(n)
    {
      hide Rfc.LittleEndian, LowCount, HighCount, Rfc.LengthField;
      buffer[56] := (lo % 0x100) as byte;
      buffer[57] := (lo / 0x100 % 0x100) as byte;
      buffer[58] := (lo / 0x10000 % 0x100) as byte;
      buffer[59] := (lo / 0x1000000 % 0x100) as byte;
      buffer[60] := (hi % 0x100) as byte;
      buffer[61] := (hi / 0x100 % 0x100) as byte;
      buffer[62] := (hi / 0x10000 % 0x100) as byte;
      buffer[63] := (hi / 0x1000000 % 0x100) as byte;
      LengthFieldSplits(n);
      FourBytes(lo);
      FourBytes(hi);
      LittleEndianDrops(hi);
      assert buffer[..56] == old(buffer[..56]);
      assert buffer[56..60] == Rfc.LittleEndian(lo, 4);
      assert buffer[60..64] == Rfc.LittleEndian(hi, 4);
    }

    /** The sixteen digest bytes. */
    method Emit(result: array<byte>, at: nat)
      requires at + 16 <= result.Length
      modifies result
      ensures result[..] == Splice(old(result[..]), at, Rfc.Output(Registers()))
    {
      hide Rfc.WordBytes, Splice, Low;
      ghost var before := result[..];
      ghost var x, y, z, w := Rfc.WordBytes(Low(a)), Rfc.WordBytes(Low(b)), Rfc.WordBytes(Low(c)),
          Rfc.WordBytes(Low(d));
      EmitWord(result, at, a);
      EmitWord(result, at + 4, b);
      SpliceSplice(before, at, x, y);
      EmitWord(result, at + 8, c);
      SpliceSplice(before, at, x + y, z);
      EmitWord(result, at + 12, d);
      SpliceSplice(before, at, x + y + z, w);
    }

    /** Four bytes of a word; what it holds above 32 bits is not emitted. */
    static method EmitWord(result: array<byte>, at: nat, w: nat)
      requires at + 4 <= result.Length
      modifies result
      ensures result[..] == Splice(old(result[..]), at, Rfc.WordBytes(Low(w)))
    {
      hide Low, Rfc.LowByte, Rfc.Right, ShiftRight;
      LowByteIs(w);
      ByteAt(w, 8);
      ByteAt(w, 16);
      ByteAt(w, 24);
      PutFour(result, at, (w % 0x100) as byte, (ShiftRight(w, 8) % 0x100) as byte,
              (ShiftRight(w, 16) % 0x100) as byte, (ShiftRight(w, 24) % 0x100) as byte);
    }
  }

  function Flatten(pieces: seq<seq<byte>>): seq<byte>
  {
    if pieces == [] then [] else Flatten(pieces[..|pieces| - 1]) + pieces[|pieces| - 1]
  }

  /**
   * Whatever the width of the words and of a size, and however a message is cut into pieces, hashing gives the digest
   * of the whole.
   */
  method HashPieces(k: nat, wide: nat, pieces: seq<seq<byte>>) returns (digest: seq<byte>)
    requires wide >= 32 + k
    ensures digest == Rfc.Digest(Flatten(pieces))
  {
    hide Rfc.Digest, MD5Context.Absorbed;
    var ctx := new MD5Context(k, wide);
    ctx.Init();
    for i := 0 to |pieces|
      invariant ctx.Absorbed(Flatten(pieces[..i])) && fresh(ctx) && fresh(ctx.buffer) && fresh(ctx.block)
    {
      assert pieces[..i + 1][..i] == pieces[..i];
      ctx.Update(pieces[i], Flatten(pieces[..i]));
    }
    assert pieces[..|pieces|] == pieces;
    var result := new byte[16];
    ctx.Final(result, 0, Flatten(pieces));
    digest := result[..];
  }
}
