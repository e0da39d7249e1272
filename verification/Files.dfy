/** Open files, as the tool uses them: a position, reads that stop at the end, writes that overwrite or extend. */
module Files {
  import opened Bytes

  /** What writing `x` at position `p` makes of the contents `d`; a gap behind the end reads as zeros. */
  function Store(d: seq<byte>, p: nat, x: seq<byte>): (r: seq<byte>)
    ensures |r| == if x == [] || p + |x| < |d| then |d| else p + |x|
    ensures forall i :: 0 <= i < |r| ==> r[i] == if p <= i < p + |x| then x[i - p] else if i < |d| then d[i] else 0
  {
    if x == [] then d
    else if p <= |d| then d[..p] + x + (if p + |x| < |d| then d[p + |x|..] else [])
    else d + Fill(p - |d|, 0) + x
  }

  /** Two writes in a row are one. */
  lemma StoreStore(d: seq<byte>, p: nat, x: seq<byte>, y: seq<byte>)
    ensures Store(Store(d, p, x), p + |x|, y) == Store(d, p, x + y)
  {
    hide Store;
  }

  /** The bytes a read of `n` at position `p` delivers. */
  function Available(d: seq<byte>, p: nat, n: nat): (r: seq<byte>)
    ensures |r| <= n
  {
    if p >= |d| then [] else if p + n <= |d| then d[p..p + n] else d[p..]
  }

  class File {
    var data: seq<byte>
    var pos: nat

    constructor (data: seq<byte>)
      ensures this.data == data && pos == 0
    {
      this.data, pos := data, 0;
    }

    /** fseek(..., SEEK_SET) */
    method Seek(p: nat)
      modifies `pos
      ensures pos == p
    {
      pos := p;
    }

    /** fread into the front of `buf`; bytes that are not delivered stay as they were. */
    method Read(buf: array<byte>, n: nat)
      requires n <= buf.Length
      modifies `pos, buf
      ensures pos == old(pos) + |Available(data, old(pos), n)|
      ensures buf[..] == Splice(old(buf[..]), 0, Available(data, old(pos), n))
    {
      var got := Available(data, pos, n);
      Memcpy(buf, 0, got);
      pos := pos + |got|;
    }

    /** fwrite */
    method Write(x: seq<byte>)
      modifies this
      ensures data == Store(old(data), old(pos), x)
      ensures pos == old(pos) + |x|
    {
      data := Store(data, pos, x);
      pos := pos + |x|;
    }
  }
}
