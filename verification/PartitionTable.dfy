/** The textual partition tables: how they are printed, how they are read, and that reading undoes printing. */
module PartitionTable {
  import opened Bytes
  import opened Results
  import opened Text

  /** An entry of a flash or firmware table; a name is a C string. */
  datatype FlashEntry = FlashEntry(name: seq<byte>, base: uint32, size: uint32)

  /** A slot of the array a table is read into; it is free while it has no name and no numbers. */
  datatype Slot = Slot(name: Option<seq<byte>>, base: uint32, size: uint32)
  {
    predicate Free() { name.None? && base == 0 && size == 0 }
  }

  const FREE := Slot(None, 0, 0)

  /** The table at the head of an image, and the one inside the partition-table partition. */
  datatype Kind = Fwup | Flash

  /** The first entry of a list with the given name. */
  function Lookup(es: seq<FlashEntry>, name: seq<byte>): (r: Option<FlashEntry>)
    ensures r.Some? ==> r.value in es && r.value.name == name
    ensures r.None? ==> forall e :: e in es ==> e.name != name
  {
    if es == [] then None else if es[0].name == name then Some(es[0]) else Lookup(es[1..], name)
  }

  // ---------------------------------------------------------------- printing

  function Header(kind: Kind): (s: seq<byte>)
    ensures 0 < |s| < 32 && s[0] != NEWLINE && s[0] != 0 && SPACE !in s && NEWLINE !in s
  {
    match kind
    case Fwup => Ascii("fwup-ptn")
    case Flash => Ascii("partition")
  }

  /** What follows the size on a line, up to the newline. */
  function Trailer(kind: Kind): (s: seq<byte>)
    ensures SPACE !in s && NEWLINE !in s && (s != [] ==> !IsHex(s[0]))
  {
    match kind
    case Fwup => [0x09, 0x0d]
    case Flash => []
  }

  /** Fields with a space between any two. */
  function Spaced(fields: seq<seq<byte>>): seq<byte>
  {
    if fields == [] then [] else if |fields| == 1 then fields[0] else fields[0] + ([SPACE] + Spaced(fields[1..]))
  }

  function Line(kind: Kind, e: FlashEntry): seq<byte>
  {
    Spaced([Header(kind), e.name, Ascii("base"), Hex05(e.base), Ascii("size"),
        Hex05(e.size) + (Trailer(kind) + [NEWLINE])])
  }

  lemma SpacedCons(f: seq<byte>, rest: seq<seq<byte>>)
    requires rest != []
    ensures Spaced([f] + rest) == f + ([SPACE] + Spaced(rest))
  {
    assert ([f] + rest)[1..] == rest;
  }

  lemma SpacedSix(f0: seq<byte>, f1: seq<byte>, f2: seq<byte>, f3: seq<byte>, f4: seq<byte>, f5: seq<byte>)
    ensures Spaced([f0, f1, f2, f3, f4, f5])
         == f0 + ([SPACE] + (f1 + ([SPACE] + (f2 + ([SPACE] + (f3 + ([SPACE] + (f4 + ([SPACE] + f5)))))))))
  {
    assert Spaced([f5]) == f5;
    assert [f4] + [f5] == [f4, f5] && [f3] + [f4, f5] == [f3, f4, f5] && [f2] + [f3, f4, f5] == [f2, f3, f4, f5];
    assert [f1] + [f2, f3, f4, f5] == [f1, f2, f3, f4, f5] && [f0] + [f1, f2, f3, f4, f5] == [f0, f1, f2, f3, f4, f5];
    hide Spaced;
    SpacedCons(f4, [f5]);
    SpacedCons(f3, [f4, f5]);
    SpacedCons(f2, [f3, f4, f5]);
    SpacedCons(f1, [f2, f3, f4, f5]);
    SpacedCons(f0, [f1, f2, f3, f4, f5]);
  }

  /** A line, written out. */
  lemma LineIs(kind: Kind, e: FlashEntry)
    ensures Line(kind, e)
         == Header(kind) + ([SPACE] + (e.name + ([SPACE] + (Ascii("base") + ([SPACE] + (Hex05(e.base) + ([SPACE] +
            (Ascii("size") + ([SPACE] + (Hex05(e.size) + (Trailer(kind) + [NEWLINE])))))))))))
  {
    hide Spaced, Header, Trailer, Ascii, Hex05;
    SpacedSix(Header(kind), e.name, Ascii("base"), Hex05(e.base), Ascii("size"),
        Hex05(e.size) + (Trailer(kind) + [NEWLINE]));
  }

  function TableText(kind: Kind, es: seq<FlashEntry>): seq<byte>
  {
    if es == [] then [] else Line(kind, es[0]) + TableText(kind, es[1..])
  }

  // ---------------------------------------------------------------- reading one line

  /** The positions of the spaces of a line. */
  function Spaces(buf: seq<byte>, lo: nat, hi: nat): (sp: seq<nat>)
    requires lo <= hi <= |buf|
    ensures forall i :: 0 <= i < |sp| ==> lo <= sp[i] < hi && buf[sp[i]] == SPACE
    ensures forall i, j :: 0 <= i < j < |sp| ==> sp[i] < sp[j]
    decreases hi - lo
  {
    if lo == hi then []
    else if buf[lo] == SPACE then [lo] + Spaces(buf, lo + 1, hi)
    else Spaces(buf, lo + 1, hi)
  }

  /** The C string stored at the front of `raw`. */
  function UpToNul(raw: seq<byte>): (s: seq<byte>)
    ensures |s| <= |raw| && s == raw[..|s|] && 0 !in s
    ensures 0 !in raw ==> s == raw
  {
    if raw == [] || raw[0] == 0 then [] else [raw[0]] + UpToNul(raw[1..])
  }

  /** A name is cut to the 31 bytes its buffer holds. */
  function Clip(name: seq<byte>): (s: seq<byte>)
    ensures |s| <= 31
  {
    if |name| > 31 then name[..31] else name
  }

  datatype LineResult = Entry(entry: FlashEntry) | Cut | Bad

  /**
   * The line `buf[p..e]`: five spaces separate the fields; a line that ends early, right after a space, ends the
   * table.
   */
  function ParseLine(buf: seq<byte>, p: nat, e: nat): LineResult
    requires p <= e <= |buf|
  {
    var sp := Spaces(buf, p, e);
    if |sp| >= 5 then
      Entry(FlashEntry(UpToNul(Clip(buf[sp[0] + 1..sp[1]])),
                       Strtoul(buf, sp[2] + 1) % 0x1_0000_0000,
                       Strtoul(buf, sp[4] + 1) % 0x1_0000_0000))
    else if |sp| > 0 && sp[|sp| - 1] + 1 == e then Cut
    else Bad
  }

  // ---------------------------------------------------------------- reading a table

  /** The first free slot takes the entry. */
  function Insert(slots: seq<Slot>, e: FlashEntry): (r: Option<seq<Slot>>)
    ensures r.Some? ==> |r.value| == |slots|
  {
    if slots == [] then None
    else if slots[0].Free() then Some([Slot(Some(e.name), e.base, e.size)] + slots[1..])
    else match Insert(slots[1..], e)
      case None => None
      case Some(rest) => Some([slots[0]] + rest)
  }

  predicate HasHeader(buf: seq<byte>, hdr: seq<byte>, p: nat)
  {
    p + |hdr| < |buf| && buf[p..p + |hdr|] == hdr
  }

  /** The lines from `p` on that start with the header word. */
  function ParseFrom(buf: seq<byte>, kind: Kind, p: nat, slots: seq<Slot>): (r: Result<seq<Slot>>)
    requires p <= |buf|
    ensures r.Ok? ==> |r.value| == |slots|
    decreases |buf| - p
  {
    var e := IndexOf(buf, NEWLINE, p);
    if !HasHeader(buf, Header(kind), p) || e == |buf| then Ok(slots)
    else match ParseLine(buf, p, e)
      case Bad => Err(BadLine)
      case Cut => Ok(slots)
      case Entry(entry) =>
        match Insert(slots, entry)
        case None => Err(TableFull)
        case Some(more) => ParseFrom(buf, kind, e + 1, more)
  }

  /** A whole table: it has to start with a header word. */
  function ReadTable(buf: seq<byte>, kind: Kind, slots: seq<Slot>): (r: Result<seq<Slot>>)
    requires |buf| == 2048
    ensures r.Ok? ==> |r.value| == |slots|
  {
    if HasHeader(buf, Header(kind), 0) then ParseFrom(buf, kind, 0, slots) else Err(NoHeader)
  }

  // ---------------------------------------------------------------- lines are read back

  predicate NoBreaks(name: seq<byte>) { SPACE !in name && NEWLINE !in name }

  /** A name the tables can carry. */
  predicate Plain(name: seq<byte>) { |name| <= 31 && NoBreaks(name) }

  lemma Parts(buf: seq<byte>, p: nat, x: seq<byte>, y: seq<byte>)
    requires p + |x| + |y| <= |buf| && buf[p..p + |x| + |y|] == x + y
    ensures buf[p..p + |x|] == x && buf[p + |x|..p + |x| + |y|] == y
  {
    assert buf[p..p + |x|] == (x + y)[..|x|];
    assert buf[p + |x|..p + |x| + |y|] == (x + y)[|x|..];
  }

  /** A field without spaces, and the space behind it. */
  lemma Hop(buf: seq<byte>, p: nat, field: seq<byte>, rest: seq<byte>)
    requires p + |field| + 1 + |rest| <= |buf|
    requires buf[p..p + |field| + 1 + |rest|] == field + ([SPACE] + rest)
    requires SPACE !in field
    ensures buf[p..p + |field|] == field && buf[p + |field|] == SPACE
    ensures buf[p + |field| + 1..p + |field| + 1 + |rest|] == rest
    ensures forall hi :: p + |field| < hi <= |buf| ==>
              Spaces(buf, p, hi) == [p + |field|] + Spaces(buf, p + |field| + 1, hi)
  {
    hide Spaces;
    Parts(buf, p, field, [SPACE] + rest);
    Parts(buf, p + |field|, [SPACE], rest);
    assert buf[p + |field|..p + |field| + 1][0] == SPACE;
    forall hi | p + |field| < hi <= |buf|
      ensures Spaces(buf, p, hi) == [p + |field|] + Spaces(buf, p + |field| + 1, hi)
    {
      FirstSpace(buf, p, p + |field|, hi);
    }
  }

  lemma FirstSpace(buf: seq<byte>, lo: nat, mid: nat, hi: nat)
    requires lo <= mid < hi <= |buf| && SPACE !in buf[lo..mid] && buf[mid] == SPACE
    ensures Spaces(buf, lo, hi) == [mid] + Spaces(buf, mid + 1, hi)
  {
    SpacesSkip(buf, lo, mid, hi);
  }

  lemma {:induction false} SpacesSkip(buf: seq<byte>, lo: nat, mid: nat, hi: nat)
    requires lo <= mid <= hi <= |buf| && SPACE !in buf[lo..mid]
    ensures Spaces(buf, lo, hi) == Spaces(buf, mid, hi)
    decreases mid - lo
  {
    if lo == mid {
    } else {
      assert buf[lo..mid][0] == buf[lo];
      assert buf[lo..mid][1..] == buf[lo + 1..mid];
      SpacesSkip(buf, lo + 1, mid, hi);
    }
  }

  lemma TwoFields(buf: seq<byte>, p: nat, f: seq<byte>, g: seq<byte>, rest: seq<byte>) returns (r: nat)
    requires p + |f| + |g| + 2 + |rest| <= |buf|
    requires buf[p..p + |f| + |g| + 2 + |rest|] == f + ([SPACE] + (g + ([SPACE] + rest)))
    requires SPACE !in f && SPACE !in g
    ensures r == p + |f| + |g| + 2
    ensures buf[p..p + |f|] == f && buf[p + |f|] == SPACE && buf[r..r + |rest|] == rest
    ensures forall hi :: r <= hi <= |buf| ==> Spaces(buf, p, hi) == [p + |f|, r - 1] + Spaces(buf, r, hi)
  {
    hide Spaces;
    Hop(buf, p, f, g + ([SPACE] + rest));
    Hop(buf, p + |f| + 1, g, rest);
    r := p + |f| + |g| + 2;
  }

  lemma ThreeFields(buf: seq<byte>, p: nat, f: seq<byte>, g: seq<byte>, h: seq<byte>, rest: seq<byte>) returns (r: nat)
    requires p + |f| + |g| + |h| + 3 + |rest| <= |buf|
    requires buf[p..p + |f| + |g| + |h| + 3 + |rest|] == f + ([SPACE] + (g + ([SPACE] + (h + ([SPACE] + rest)))))
    requires SPACE !in f && SPACE !in g && SPACE !in h
    ensures r == p + |f| + |g| + |h| + 3
    ensures buf[p..p + |f|] == f && buf[p + |f| + 1..p + |f| + 1 + |g|] == g && buf[r..r + |rest|] == rest
    ensures forall hi :: r <= hi <= |buf| ==>
              Spaces(buf, p, hi) == [p + |f|, p + |f| + 1 + |g|, r - 1] + Spaces(buf, r, hi)
  {
    hide Spaces;
    Hop(buf, p, f, g + ([SPACE] + (h + ([SPACE] + rest))));
    r := TwoFields(buf, p + |f| + 1, g, h, rest);
  }

  lemma LastField(buf: seq<byte>, p: nat, size: seq<byte>, trailer: seq<byte>) returns (q: nat, nl: nat)
    requires p + |size| + |trailer| + 1 <= |buf|
    requires buf[p..p + |size| + |trailer| + 1] == size + (trailer + [NEWLINE])
    requires SPACE !in size && SPACE !in trailer
    ensures q == p + |size| && nl == q + |trailer|
    ensures buf[p..q] == size && buf[q..nl] == trailer && buf[nl] == NEWLINE
    ensures Spaces(buf, p, nl) == []
  {
    q, nl := p + |size|, p + |size| + |trailer|;
    Parts(buf, p, size, trailer + [NEWLINE]);
    Parts(buf, q, trailer, [NEWLINE]);
    assert buf[nl..nl + 1][0] == NEWLINE;
    SpacesSkip(buf, p, q, nl);
    SpacesSkip(buf, q, nl, nl);
  }

  lemma SixFields(buf: seq<byte>, p: nat, f0: seq<byte>, f1: seq<byte>, f2: seq<byte>, f3: seq<byte>, f4: seq<byte>,
                  f5: seq<byte>, tail: seq<byte>)
    returns (p1: nat, p2: nat, p3: nat, p4: nat, p5: nat, q: nat, nl: nat)
    requires var n := |f0| + |f1| + |f2| + |f3| + |f4| + |f5| + |tail| + 6;
             && p + n <= |buf|
             && buf[p..p + n] == f0 + ([SPACE] + (f1 + ([SPACE] + (f2 + ([SPACE] + (f3 + ([SPACE] +
                                 (f4 + ([SPACE] + (f5 + (tail + [NEWLINE])))))))))))
    requires SPACE !in f0 && SPACE !in f1 && SPACE !in f2 && SPACE !in f3 && SPACE !in f4 && SPACE !in f5
        && SPACE !in tail
    ensures p1 == p + |f0| + 1 && p2 == p1 + |f1| + 1 && p3 == p2 + |f2| + 1 && p4 == p3 + |f3| + 1
    ensures p5 == p4 + |f4| + 1 && q == p5 + |f5| && nl == q + |tail| < |buf|
    ensures buf[p..p1 - 1] == f0 && buf[p1..p2 - 1] == f1 && buf[p3..p4 - 1] == f3 && buf[p4 - 1] == SPACE
    ensures buf[p5..q] == f5 && buf[q..nl] == tail && buf[nl] == NEWLINE
    ensures Spaces(buf, p, nl) == [p1 - 1, p2 - 1, p3 - 1, p4 - 1, p5 - 1]
  {
    hide Spaces;
    var l5 := f5 + (tail + [NEWLINE]);
    var l3 := f3 + ([SPACE] + (f4 + ([SPACE] + l5)));
    assert |l5| == |f5| + |tail| + 1 && |l3| == |f3| + |f4| + 2 + |l5|;
    p3 := ThreeFields(buf, p, f0, f1, f2, l3);
    p5 := TwoFields(buf, p3, f3, f4, l5);
    q, nl := LastField(buf, p5, f5, tail);
    p1, p2, p4 := p + |f0| + 1, p + |f0| + 1 + |f1| + 1, p3 + |f3| + 1;
  }

  /** Where the fields of a printed line are, and the spaces between them. */
  lemma LineFields(buf: seq<byte>, kind: Kind, p: nat, e: FlashEntry)
    returns (p1: nat, p2: nat, p3: nat, p4: nat, p5: nat, q: nat, nl: nat)
    requires p + |Line(kind, e)| < |buf| && buf[p..p + |Line(kind, e)|] == Line(kind, e)
    requires SPACE !in e.name
    ensures p + |Header(kind)| + 1 == p1 < p2 < p3 < p4 < p5 <= q <= nl == p + |Line(kind, e)| - 1
    ensures buf[p..p1 - 1] == Header(kind)
    ensures p2 == p1 + |e.name| + 1 && buf[p1..p2 - 1] == e.name
    ensures p4 == p3 + |Hex05(e.base)| + 1 && buf[p3..p4 - 1] == Hex05(e.base) && buf[p4 - 1] == SPACE
    ensures q == p5 + |Hex05(e.size)| && buf[p5..q] == Hex05(e.size)
    ensures nl == q + |Trailer(kind)| && buf[q..nl] == Trailer(kind) && buf[nl] == NEWLINE
    ensures Spaces(buf, p, nl) == [p1 - 1, p2 - 1, p3 - 1, p4 - 1, p5 - 1]
  {
    hide Hex05, Header, Trailer, Spaces, Ascii;
    WordsHaveNoSpace();
    LineIs(kind, e);
    Hex05IsOneWord(e.base);
    Hex05IsOneWord(e.size);
    p1, p2, p3, p4, p5, q, nl := SixFields(buf, p, Header(kind), e.name, Ascii("base"), Hex05(e.base),
                                           Ascii("size"), Hex05(e.size), Trailer(kind));
  }

  /** A printed line ends at its newline and is read back, its name cut to 31 bytes. */
  lemma LineReadBack(buf: seq<byte>, kind: Kind, p: nat, e: FlashEntry)
    requires p + |Line(kind, e)| < |buf| && buf[p..p + |Line(kind, e)|] == Line(kind, e)
    requires NoBreaks(e.name) && 0 !in e.name
    ensures HasHeader(buf, Header(kind), p)
    ensures |Line(kind, e)| > 0 && IndexOf(buf, NEWLINE, p) == p + |Line(kind, e)| - 1
    ensures ParseLine(buf, p, p + |Line(kind, e)| - 1) == Entry(e.(name := Clip(e.name)))
  {
    hide Hex05, Header, Trailer, Strtoul, Spaces, Line, IndexOf, ParseLine, Clip, UpToNul;
    var p1, p2, p3, p4, p5, q, nl := LineFields(buf, kind, p, e);
    StrtoulOfHex05(buf, p3, e.base);
    SizeEnds(buf, kind, q);
    StrtoulOfHex05(buf, p5, e.size);
    NewlineIsFirst(buf, kind, p, e, nl);
    FieldsParsed(buf, p, nl, e, p1, p2, p3, p4, p5);
  }

  lemma FieldsParsed(buf: seq<byte>, p: nat, nl: nat, e: FlashEntry, p1: nat, p2: nat, p3: nat, p4: nat, p5: nat)
    requires p < p1 < p2 < p3 < p4 < p5 <= nl <= |buf|
    requires Spaces(buf, p, nl) == [p1 - 1, p2 - 1, p3 - 1, p4 - 1, p5 - 1]
    requires buf[p1..p2 - 1] == e.name && 0 !in e.name
    requires Strtoul(buf, p3) == e.base && Strtoul(buf, p5) == e.size
    ensures ParseLine(buf, p, nl) == Entry(e.(name := Clip(e.name)))
  {
    hide Strtoul, Spaces, Clip, UpToNul;
    ClipHasNoNul(e.name);
    var sp := Spaces(buf, p, nl);
    assert |sp| == 5 && sp[0] + 1 == p1 && sp[1] == p2 - 1 && sp[2] + 1 == p3 && sp[4] + 1 == p5;
  }

  lemma ClipHasNoNul(name: seq<byte>)
    requires 0 !in name
    ensures UpToNul(Clip(name)) == Clip(name)
  {}

  lemma WordsHaveNoSpace()
    ensures |Ascii("base")| == 4 && |Ascii("size")| == 4
    ensures SPACE !in Ascii("base") && SPACE !in Ascii("size")
    ensures NEWLINE !in Ascii("base") && NEWLINE !in Ascii("size")
  {}

  lemma SizeEnds(buf: seq<byte>, kind: Kind, q: nat)
    requires q + |Trailer(kind)| < |buf|
    requires buf[q..q + |Trailer(kind)|] == Trailer(kind) && buf[q + |Trailer(kind)|] == NEWLINE
    ensures !IsHex(buf[q])
  {
    if Trailer(kind) != [] {
      assert buf[q..q + |Trailer(kind)|][0] == buf[q];
    }
  }

  lemma NewlineIsFirst(buf: seq<byte>, kind: Kind, p: nat, e: FlashEntry, nl: nat)
    requires nl == p + |Line(kind, e)| - 1 && nl < |buf| && buf[p..nl + 1] == Line(kind, e)
    requires NoBreaks(e.name)
    ensures IndexOf(buf, NEWLINE, p) == nl
  {
    hide Hex05, Header, Trailer, Ascii, IndexOf;
    WordsHaveNoSpace();
    LineBreaksOnlyAtEnd(kind, e);
    var line := Line(kind, e);
    forall k | p <= k < nl
      ensures buf[k] != NEWLINE
    {
      assert buf[k] == line[k - p] && line[k - p] in line[..|line| - 1];
    }
    assert buf[nl] == line[|line| - 1];
  }

  lemma LineBreaksOnlyAtEnd(kind: Kind, e: FlashEntry)
    requires NoBreaks(e.name)
    ensures var line := Line(kind, e);
            |line| > 0 && line[|line| - 1] == NEWLINE && NEWLINE !in line[..|line| - 1]
  {
    hide Hex05, Header, Trailer, Ascii;
    WordsHaveNoSpace();
    Hex05IsOneWord(e.base);
    Hex05IsOneWord(e.size);
    var l5 := Hex05(e.size) + Trailer(kind);
    var l4 := WithSpace(Ascii("size"), l5);
    var l3 := WithSpace(Hex05(e.base), l4);
    var l2 := WithSpace(Ascii("base"), l3);
    var l1 := WithSpace(e.name, l2);
    var l0 := WithSpace(Header(kind), l1);
    LineIs(kind, e);
    assert Line(kind, e) == l0 + [NEWLINE];
  }

  lemma WithSpace(f: seq<byte>, rest: seq<byte>) returns (s: seq<byte>)
    requires NEWLINE !in f && NEWLINE !in rest
    ensures s == f + ([SPACE] + rest) && NEWLINE !in s
  {
    s := f + ([SPACE] + rest);
  }

  // ---------------------------------------------------------------- tables are read back

  /** An array of `n` slots whose first ones hold `es`. */
  function Filled(es: seq<FlashEntry>, n: nat): (slots: seq<Slot>)
    requires |es| <= n
    ensures |slots| == n
  {
    seq(n, i requires 0 <= i < n => if i < |es| then Slot(Some(es[i].name), es[i].base, es[i].size) else FREE)
  }

  /** Insertion into the first free slot appends. */
  lemma {:induction false} InsertAppends(es: seq<FlashEntry>, n: nat, e: FlashEntry)
    requires |es| <= n
    ensures Insert(Filled(es, n), e) == if |es| < n then Some(Filled(es + [e], n)) else None
    decreases n
  {
    if n == 0 {
    } else if es == [] {
      assert es + [e] == [e] && Filled([], n)[0].Free();
      assert Filled([e], n) == [Slot(Some(e.name), e.base, e.size)] + Filled([], n)[1..];
    } else {
      InsertAppends(es[1..], n - 1, e);
      assert Filled(es, n)[1..] == Filled(es[1..], n - 1);
      if |es| < n {
        assert Filled(es + [e], n) == [Filled(es, n)[0]] + Filled(es[1..] + [e], n - 1);
      }
    }
  }

  function ClipAll(es: seq<FlashEntry>): (r: seq<FlashEntry>)
    ensures |r| == |es|
    ensures forall i :: 0 <= i < |es| ==> r[i] == es[i].(name := Clip(es[i].name))
  {
    seq(|es|, i requires 0 <= i < |es| => es[i].(name := Clip(es[i].name)))
  }

  ghost predicate Readable(es: seq<FlashEntry>)
  {
    forall e :: e in es ==> NoBreaks(e.name) && 0 !in e.name
  }

  function ClipEntry(e: FlashEntry): FlashEntry { e.(name := Clip(e.name)) }

  lemma LineIsAdded(buf: seq<byte>, kind: Kind, p: nat, e: FlashEntry, done: seq<FlashEntry>, n: nat)
    requires p + |Line(kind, e)| < |buf| && buf[p..p + |Line(kind, e)|] == Line(kind, e)
    requires NoBreaks(e.name) && 0 !in e.name && |done| <= n
    ensures ParseFrom(buf, kind, p, Filled(done, n))
         == if |done| < n then ParseFrom(buf, kind, p + |Line(kind, e)|, Filled(done + [ClipEntry(e)], n))
            else Err(TableFull)
  {
    hide Line, Header, IndexOf, ParseLine, NoBreaks, Insert, Filled, Clip, HasHeader;
    LineReadBack(buf, kind, p, e);
    InsertAppends(done, n, ClipEntry(e));
  }

  /** The lines printed from `p` on are added to the slots, names cut to 31 bytes, up to the zero byte behind them. */
  lemma {:induction false} TextReadBack(buf: seq<byte>, kind: Kind, p: nat, es: seq<FlashEntry>, done: seq<FlashEntry>,
                                        n: nat)
    requires p + |TableText(kind, es)| < |buf| && buf[p..p + |TableText(kind, es)|] == TableText(kind, es)
    requires buf[p + |TableText(kind, es)|] == 0
    requires Readable(es) && |done| <= n
    ensures ParseFrom(buf, kind, p, Filled(done, n))
         == if |done| + |es| <= n then Ok(Filled(done + ClipAll(es), n)) else Err(TableFull)
    decreases |es|
  {
    hide Line, ParseFrom, Filled, ClipAll, TableText, Readable, ClipEntry;
    if es == [] {
      NothingToRead(kind, done);
      NoMoreLines(buf, kind, p, Filled(done, n));
    } else {
      var line, rest := Line(kind, es[0]), TableText(kind, es[1..]);
      OneMoreToRead(kind, es, done);
      Parts(buf, p, line, rest);
      LineIsAdded(buf, kind, p, es[0], done, n);
      if |done| < n {
        TextReadBack(buf, kind, p + |line|, es[1..], done + [ClipEntry(es[0])], n);
      }
    }
  }

  lemma NothingToRead(kind: Kind, done: seq<FlashEntry>)
    ensures TableText(kind, []) == [] && done + ClipAll([]) == done
  {}

  lemma OneMoreToRead(kind: Kind, es: seq<FlashEntry>, done: seq<FlashEntry>)
    requires es != [] && Readable(es)
    ensures TableText(kind, es) == Line(kind, es[0]) + TableText(kind, es[1..])
    ensures NoBreaks(es[0].name) && 0 !in es[0].name && Readable(es[1..])
    ensures done + ClipAll(es) == done + [ClipEntry(es[0])] + ClipAll(es[1..])
  {
    hide Line, NoBreaks, ClipAll, ClipEntry;
    assert es[0] in es && forall e :: e in es[1..] ==> e in es;
    ClipFirst(es);
    Associates(done, [ClipEntry(es[0])], ClipAll(es[1..]));
  }

  lemma ClipFirst(es: seq<FlashEntry>)
    requires es != []
    ensures ClipAll(es) == [ClipEntry(es[0])] + ClipAll(es[1..])
  {
    hide Clip;
  }

  lemma Associates<T>(x: seq<T>, y: seq<T>, z: seq<T>)
    ensures x + (y + z) == x + y + z
  {}

  lemma NoMoreLines(buf: seq<byte>, kind: Kind, p: nat, slots: seq<Slot>)
    requires p < |buf| && buf[p] == 0
    ensures ParseFrom(buf, kind, p, slots) == Ok(slots)
  {
    NoLineAtNul(buf, kind, p);
  }

  lemma NoLineAtNul(buf: seq<byte>, kind: Kind, p: nat)
    requires p < |buf| && buf[p] == 0
    ensures !HasHeader(buf, Header(kind), p)
  {
    if p + |Header(kind)| <= |buf| {
      assert buf[p..p + |Header(kind)|][0] == 0;
    }
  }

  /** `buf` starts with the printed table and the zero byte snprintf leaves behind it. */
  ghost predicate Holds(buf: seq<byte>, kind: Kind, es: seq<FlashEntry>)
  {
    && |buf| == 2048
    && |TableText(kind, es)| < 2048
    && buf[..|TableText(kind, es)|] == TableText(kind, es)
    && buf[|TableText(kind, es)|] == 0
  }

  /** Reading a printed table gives its entries, names cut to 31 bytes, if the array has a slot for each. */
  lemma ReadPrinted(buf: seq<byte>, kind: Kind, es: seq<FlashEntry>, n: nat)
    requires Holds(buf, kind, es) && es != [] && Readable(es)
    ensures ReadTable(buf, kind, Filled([], n)) == if |es| <= n then Ok(Filled(ClipAll(es), n)) else Err(TableFull)
  {
    hide Line, ParseFrom, Filled, Clip, Header, HasHeader;
    assert TableText(kind, es) == Line(kind, es[0]) + TableText(kind, es[1..]);
    Parts(buf, 0, Line(kind, es[0]), TableText(kind, es[1..]));
    LineReadBack(buf, kind, 0, es[0]);
    TextReadBack(buf, kind, 0, es, [], n);
    assert [] + ClipAll(es) == ClipAll(es);
  }

  // ---------------------------------------------------------------- exactly which tables survive

  ghost predicate PlainSlots(slots: seq<Slot>)
  {
    forall s :: s in slots ==> s.name.Some? ==> Plain(s.name.value) && 0 !in s.name.value
  }

  /** Whatever the buffer holds, a name that is read has no space, no newline, no zero byte, and at most 31 bytes. */
  lemma {:induction false} ParsedNamesArePlain(buf: seq<byte>, kind: Kind, p: nat, slots: seq<Slot>)
    requires p <= |buf| && PlainSlots(slots)
    ensures ParseFrom(buf, kind, p, slots).Ok? ==> PlainSlots(ParseFrom(buf, kind, p, slots).value)
    decreases |buf| - p
  {
    hide ParseLine, HasHeader, Insert;
    var e := IndexOf(buf, NEWLINE, p);
    if e == |buf| {
    } else {
      var line := ParseLine(buf, p, e);
      if line.Entry? && Insert(slots, line.entry).Some? {
        ParsedNameIsPlain(buf, p, e);
        InsertKeepsPlain(slots, line.entry);
        ParsedNamesArePlain(buf, kind, e + 1, Insert(slots, line.entry).value);
      }
    }
  }

  lemma ParsedNameIsPlain(buf: seq<byte>, p: nat, e: nat)
    requires p <= e <= |buf| && forall k :: p <= k < e ==> buf[k] != NEWLINE
    requires ParseLine(buf, p, e).Entry?
    ensures Plain(ParseLine(buf, p, e).entry.name) && 0 !in ParseLine(buf, p, e).entry.name
  {
    hide Strtoul, Spaces, Clip, UpToNul;
    var sp := Spaces(buf, p, e);
    NoSpaceBetween(buf, p, e);
    CutNameIsPlain(buf[sp[0] + 1..sp[1]]);
  }

  lemma CutNameIsPlain(raw: seq<byte>)
    requires SPACE !in raw && NEWLINE !in raw
    ensures Plain(UpToNul(Clip(raw)))
  {
    assert forall c :: c in UpToNul(Clip(raw)) ==> c in raw;
  }

  lemma {:induction false} NoSpaceBetween(buf: seq<byte>, lo: nat, hi: nat)
    requires lo <= hi <= |buf|
    ensures var sp := Spaces(buf, lo, hi);
            && (|sp| >= 1 ==> SPACE !in buf[lo..sp[0]])
            && (|sp| >= 2 ==> SPACE !in buf[sp[0] + 1..sp[1]])
    decreases hi - lo
  {
    if lo == hi {
    } else {
      NoSpaceBetween(buf, lo + 1, hi);
      var sp := Spaces(buf, lo, hi);
      if buf[lo] != SPACE && |sp| >= 1 {
        assert buf[lo..sp[0]] == [buf[lo]] + buf[lo + 1..sp[0]];
      }
    }
  }

  lemma {:induction false} InsertKeepsPlain(slots: seq<Slot>, e: FlashEntry)
    requires PlainSlots(slots) && Plain(e.name) && 0 !in e.name
    requires Insert(slots, e).Some?
    ensures PlainSlots(Insert(slots, e).value)
  {
    hide Plain;
    if slots[0].Free() {
    } else {
      assert PlainSlots(slots[1..]);
      InsertKeepsPlain(slots[1..], e);
    }
  }

  lemma NothingPrinted(buf: seq<byte>, kind: Kind, slots: seq<Slot>)
    requires Holds(buf, kind, [])
    ensures ReadTable(buf, kind, slots) == Err(NoHeader)
  {
    NoLineAtNul(buf, kind, 0);
  }

  /**
   * A printed table comes back as it was exactly when it has an entry and every name has at most 31 bytes and no space
   * or newline. Names are C strings, and the table has to have been printed completely.
   */
  lemma TableRoundTrip(buf: seq<byte>, kind: Kind, es: seq<FlashEntry>, n: nat)
    requires Holds(buf, kind, es) && |es| <= n
    requires forall e :: e in es ==> 0 !in e.name
    ensures ReadTable(buf, kind, Filled([], n)) == Ok(Filled(es, n))
            <==> es != [] && forall e :: e in es ==> Plain(e.name)
  {
    hide ParseFrom, TableText, HasHeader, ReadTable;
    if es == [] {
      NothingPrinted(buf, kind, Filled([], n));
    } else {
      if forall e :: e in es ==> Plain(e.name) {
        ReadPrinted(buf, kind, es, n);
        assert ClipAll(es) == es;
      }
      if ReadTable(buf, kind, Filled([], n)) == Ok(Filled(es, n)) {
        TablesHavePlainNames(buf, kind, n);
        forall e | e in es
          ensures Plain(e.name)
        {
          var i :| 0 <= i < |es| && es[i] == e;
          assert Filled(es, n)[i] in Filled(es, n);
        }
      }
    }
  }

  lemma TablesHavePlainNames(buf: seq<byte>, kind: Kind, n: nat)
    requires |buf| == 2048
    ensures ReadTable(buf, kind, Filled([], n)).Ok? ==> PlainSlots(ReadTable(buf, kind, Filled([], n)).value)
  {
    hide ParseFrom, HasHeader;
    assert PlainSlots(Filled([], n));
    ParsedNamesArePlain(buf, kind, 0, Filled([], n));
  }

  // ---------------------------------------------------------------- the parse stays inside its buffer

  lemma {:induction false} SpacesInside(text: seq<byte>, behind: seq<byte>, lo: nat, hi: nat)
    requires lo <= hi <= |text|
    ensures Spaces(text + behind, lo, hi) == Spaces(text, lo, hi)
    decreases hi - lo
  {
    if lo == hi {
    } else {
      SpacesInside(text, behind, lo + 1, hi);
    }
  }

  /** With a zero byte at the end of the buffer, no number on a line is read from what lies behind it. */
  lemma LineStaysInside(text: seq<byte>, behind: seq<byte>, p: nat, e: nat)
    requires p <= e < |text| && text[|text| - 1] == 0
    ensures ParseLine(text + behind, p, e) == ParseLine(text, p, e)
  {
    hide Spaces, Strtoul, Clip, UpToNul;
    SpacesInside(text, behind, p, e);
    var sp := Spaces(text, p, e);
    if |sp| >= 5 {
      StrtoulStaysInside(text, behind, sp[2] + 1);
      StrtoulStaysInside(text, behind, sp[4] + 1);
      assert (text + behind)[sp[0] + 1..sp[1]] == text[sp[0] + 1..sp[1]];
    }
  }

  /** The parse with `behind` in memory after the buffer, where strtoul, which is not told its length, could go on. */
  function ParseInMemory(text: seq<byte>, behind: seq<byte>, kind: Kind, p: nat, slots: seq<Slot>): Result<seq<Slot>>
    requires p <= |text|
    decreases |text| - p
  {
    var e := IndexOf(text, NEWLINE, p);
    if !HasHeader(text, Header(kind), p) || e == |text| then Ok(slots)
    else match ParseLine(text + behind, p, e)
      case Bad => Err(BadLine)
      case Cut => Ok(slots)
      case Entry(entry) =>
        match Insert(slots, entry)
        case None => Err(TableFull)
        case Some(more) => ParseInMemory(text, behind, kind, e + 1, more)
  }

  /** The zero at byte 2047 keeps a whole parse inside: it does not depend on what lies behind the buffer. */
  lemma {:induction false} TableStaysInside(text: seq<byte>, behind: seq<byte>, kind: Kind, p: nat, slots: seq<Slot>)
    requires |text| == 2048 && text[2047] == 0 && p <= 2048
    ensures ParseInMemory(text, behind, kind, p, slots) == ParseFrom(text, kind, p, slots)
    decreases 2048 - p
  {
    hide ParseLine, Insert, HasHeader;
    var e := IndexOf(text, NEWLINE, p);
    if !HasHeader(text, Header(kind), p) || e == |text| {
    } else {
      LineStaysInside(text, behind, p, e);
      if ParseLine(text, p, e).Entry? && Insert(slots, ParseLine(text, p, e).entry).Some? {
        TableStaysInside(text, behind, kind, e + 1, Insert(slots, ParseLine(text, p, e).entry).value);
      }
    }
  }
}
