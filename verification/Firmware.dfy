/** What packing, extracting and converting promise together. */
module Firmware {
  import opened Bytes
  import opened Results
  import opened PartitionTable
  import opened TableReader
  import opened Factory
  import opened Convert
  import Rfc = Md5Rfc

  // ---------------------------------------------------------------- the factory image describes itself

  /**
   * `image` holds the table and the data of an accepted list of parts where a factory image has them; what is in front
   * of the table and behind its terminator may be anything.
   */
  ghost predicate PackedInto(board: Board, parts: seq<Part>, image: seq<byte>)
  {
    && Check(board.flash, parts, 0x800, 0x800) == None && |ImageTable(parts)| < 0x800
    && |image| == FactoryLength(parts)
    && image[0x1014..0x1014 + |Terminated(ImageTable(parts))|] == Terminated(ImageTable(parts))
    && image[0x1814..] == AllData(parts)
  }

  /** The block of the table is blank. */
  ghost predicate BlankTable(image: seq<byte>)
  {
    |image| >= 0x1814 && image[0x1014..0x1814] == Fill(0x800, 0xff)
  }

  /** A factory image is a packed one, with the right length, checksum, vendor information and table block. */
  lemma FactoryImageIsPacked(board: Board, parts: seq<Part>)
    requires VendorInside(board, parts) && Check(board.flash, parts, 0x800, 0x800) == None
    ensures FactoryImage(board, parts).Ok? && |ImageTable(parts)| < 0x800
    ensures var image := FactoryImage(board, parts).value;
            && PackedInto(board, parts, image)
            && image[..4] == BigEndian(|image| % 0x1_0000_0000)
            && image[4..0x14] == Rfc.Digest(SALT + Hashed(image[0x14..]))
            && image[0x14..0x1014] == VendorBlock(board.vendor)
            && image[0x1014..0x1814] == TableBlock(board.vendor, parts)
  {
    hide Rfc.Digest, BigEndian, VendorBlock, AllData, Check, TableText, Entries, Background;
    CheckBoundsTable(board.flash, parts, 0x800, 0x800);
    var image, payload := FactoryImage(board, parts).value, Payload(board, parts);
    var block := TableBlock(board.vendor, parts);
    assert image[0x14..] == payload;
    assert image[0x14..0x1014] == payload[..0x1000];
    assert image[0x1014..0x1814] == payload[0x1000..0x1800] == block;
    assert image[0x1814..] == payload[0x1800..];
    var t := Terminated(ImageTable(parts));
    assert image[0x1014..0x1014 + |t|] == image[0x1014..0x1814][..|t|] == block[..|t|] == t;
  }

  /** The block of the table is the documented one exactly if the vendor text leaves what is behind the table blank. */
  lemma TableBlockIsDocumented(board: Board, parts: seq<Part>)
    requires VendorInside(board, parts) && Check(board.flash, parts, 0x800, 0x800) == None
    ensures FactoryImage(board, parts).Ok? && |ImageTable(parts)| < 0x800
    ensures FactoryImage(board, parts).value[0x1014..0x1814] == DocumentedTable(parts)
            <==> VendorLeaves(board.vendor, |Terminated(ImageTable(parts))|)
  {
    hide FactoryImage, TableBlock, VendorBlock, Background, Rfc.Digest, BigEndian, Check, ImageTable, DocumentedTable,
      VendorLeaves;
    FactoryImageIsPacked(board, parts);
    DocumentedTableBlock(board.vendor, parts);
  }

  /** Without parts the block stays blank exactly if the vendor text leaves all of it. */
  lemma NoPartsBlankTable(board: Board)
    requires VendorInside(board, [])
    ensures FactoryImage(board, []).Ok?
    ensures BlankTable(FactoryImage(board, []).value) <==> VendorLeaves(board.vendor, 0)
  {
    hide FactoryImage, Rfc.Digest, BigEndian, VendorLeaves;
    assert ImageTable([]) == [];
    TableBlockIsDocumented(board, []);
    assert DocumentedTable([]) == Fill(0x800, 0xff);
  }

  /**
   * What the header of a factory image says. The length field is the length exactly below 4 GiB, the checksum is one of
   * everything behind it exactly for 0x14 bytes more, and the data is there in any case.
   */
  lemma FactoryIsConsistent(board: Board, parts: seq<Part>)
    requires VendorInside(board, parts) && Check(board.flash, parts, 0x800, 0x800) == None
    ensures FactoryImage(board, parts).Ok?
    ensures var image := FactoryImage(board, parts).value;
            && (FromBigEndian(image[..4]) == |image| <==> |image| < 0x1_0000_0000)
            && image[4..0x14] == Rfc.Digest(SALT + Hashed(image[0x14..]))
            && (Hashed(image[0x14..]) == image[0x14..] <==> |image| < 0x1_0000_0014)
            && image[0x1814..] == AllData(parts)
  {
    hide Rfc.Digest, BigEndian, FromBigEndian, Payload, ImageTable, TableBlock, AllData, FactoryImage, Check,
      VendorBlock, Hashed;
    FactoryImageIsPacked(board, parts);
    BigEndianRoundTrip(|FactoryImage(board, parts).value| % 0x1_0000_0000);
  }

  // ---------------------------------------------------------------- where the entries lead

  /** Each entry starts where the one before it ends, and the last one ends at `end`. */
  predicate Tiles(es: seq<FlashEntry>, base: nat, end: nat)
  {
    if es == [] then base == end
    else es[0].base == base && Tiles(es[1..], base + es[0].size, end)
  }

  /** Every part starts where a 32-bit base can point. */
  predicate Starts(parts: seq<Part>, base: nat)
  {
    parts == [] || (base < 0x1_0000_0000 && Starts(parts[1..], base + |parts[0].data|))
  }

  /** Every part has a length that a 32-bit size can say. */
  ghost predicate SizesSayable(parts: seq<Part>) { forall p :: p in parts ==> |p.data| < 0x1_0000_0000 }

  /**
   * Every entry has the size of its part, and the entries tile the data area of the image, without gap or overlap,
   * exactly when every part starts where a 32-bit base can point.
   */
  lemma {:induction false} EntriesTile(parts: seq<Part>, base: nat)
    requires SizesSayable(parts)
    ensures forall i :: 0 <= i < |parts| ==> Entries(parts, base)[i].size == |parts[i].data|
    ensures Tiles(Entries(parts, base), base, base + |AllData(parts)|) <==> Starts(parts, base)
  {
    hide Tiles, EntryOf;
    if parts == [] {
      TilesNothing(base);
    } else {
      var first, next := EntryOf(parts[0], base), base + |parts[0].data|;
      assert parts[0] in parts && forall p :: p in parts[1..] ==> p in parts;
      EntryNumbers(parts[0], base);
      EntriesTile(parts[1..], next);
      TilesFrom(first, Entries(parts[1..], next), base, base + |AllData(parts)|);
      assert Entries(parts, base) == [first] + Entries(parts[1..], next);
    }
  }

  lemma EntryNumbers(p: Part, base: nat)
    requires |p.data| < 0x1_0000_0000
    ensures EntryOf(p, base).size == |p.data|
    ensures EntryOf(p, base).base == base <==> base < 0x1_0000_0000
  {}

  lemma TilesNothing(base: nat)
    ensures Tiles([], base, base)
  {}

  lemma TilesFrom(first: FlashEntry, rest: seq<FlashEntry>, base: nat, end: nat)
    ensures Tiles([first] + rest, base, end) <==> first.base == base && Tiles(rest, base + first.size, end)
  {
    assert ([first] + rest)[1..] == rest;
  }

  /** No accepted part is too large for a 32-bit size. */
  lemma {:induction false} SizesFit(flash: seq<FlashEntry>, parts: seq<Part>, base: nat, room: nat)
    requires Check(flash, parts, base, room) == None
    ensures SizesSayable(parts)
  {
    hide Line, Lookup;
    if parts == [] {
    } else {
      var line := Line(Fwup, EntryOf(parts[0], base));
      SizesFit(flash, parts[1..], base + |parts[0].data|, room - |line|);
      assert parts == [parts[0]] + parts[1..];
    }
  }

  /** Every part with data starts where a 32-bit base can point. */
  ghost predicate StartsFit(parts: seq<Part>, base: nat)
  {
    parts == [] || ((parts[0].data == [] || base < 0x1_0000_0000) && StartsFit(parts[1..], base + |parts[0].data|))
  }

  /** An image of up to 4 GiB has no other parts. */
  lemma {:induction false} SmallImagesFit(parts: seq<Part>, base: nat)
    requires base + |AllData(parts)| <= 0x1_0000_0000
    ensures StartsFit(parts, base)
  {
    if parts == [] {
    } else {
      SmallImagesFit(parts[1..], base + |parts[0].data|);
    }
  }

  /** Every entry of the table leads to the bytes of its part. */
  ghost predicate EntriesLead(image: seq<byte>, parts: seq<Part>, base: nat)
  {
    forall i :: 0 <= i < |parts| ==> Region(image, Entries(parts, base)[i]) == Some(parts[i].data)
  }

  lemma FirstLeads(image: seq<byte>, parts: seq<Part>, base: nat)
    requires parts != []
    ensures EntriesLead(image, parts, base)
            <==> (&& Region(image, EntryOf(parts[0], base)) == Some(parts[0].data)
                  && EntriesLead(image, parts[1..], base + |parts[0].data|))
  {
    hide Region, EntryOf;
    var first, rest := EntryOf(parts[0], base), Entries(parts[1..], base + |parts[0].data|);
    assert Entries(parts, base) == [first] + rest;
    if EntriesLead(image, parts, base) {
      assert Region(image, Entries(parts, base)[0]) == Some(parts[0].data);
      forall i | 0 <= i < |parts[1..]|
        ensures Region(image, rest[i]) == Some(parts[1..][i].data)
      {
        assert Entries(parts, base)[i + 1] == rest[i];
      }
    }
  }

  /** `image` ends with the data of the parts, the first of them at table offset `base`, and sizes can be said. */
  ghost predicate DataFrom(image: seq<byte>, parts: seq<Part>, base: nat)
  {
    && SizesSayable(parts) && |image| == FIRMWARE_OFFSET + base + |AllData(parts)|
    && image[FIRMWARE_OFFSET + base..] == AllData(parts)
  }

  lemma FirstPart(image: seq<byte>, parts: seq<Part>, base: nat)
    requires parts != [] && DataFrom(image, parts, base)
    ensures EntryOf(parts[0], base).size == |parts[0].data| && Region(image, EntryOf(parts[0], base)).Some?
    ensures DataFrom(image, parts[1..], base + |parts[0].data|)
    ensures parts[0].data == [] || base < 0x1_0000_0000 ==>
              Region(image, EntryOf(parts[0], base)) == Some(parts[0].data)
  {
    var d, start := parts[0].data, FIRMWARE_OFFSET + base;
    assert parts[0] in parts && forall p :: p in parts[1..] ==> p in parts;
    hide SizesSayable;
    assert AllData(parts) == d + AllData(parts[1..]);
    assert image[start..start + |d|] == image[start..][..|d|];
    assert image[start + |d|..] == image[start..][|d|..];
    if d == [] {
      var anywhere := base % 0x1_0000_0000 + FIRMWARE_OFFSET;
      assert anywhere <= |image| && image[anywhere..anywhere] == [];
    }
  }

  lemma ImageEndsWithData(board: Board, parts: seq<Part>, image: seq<byte>)
    requires PackedInto(board, parts, image)
    ensures DataFrom(image, parts, 0x800)
  {
    hide AllData, Check, ImageTable;
    SizesFit(board.flash, parts, 0x800, 0x800);
  }

  /** Entries of parts that all start where a base can point lead to them. */
  lemma {:induction false} FittingEntriesLead(image: seq<byte>, parts: seq<Part>, base: nat)
    requires DataFrom(image, parts, base) && StartsFit(parts, base)
    ensures EntriesLead(image, parts, base)
    decreases |parts|
  {
    hide DataFrom, Region, EntryOf, EntriesLead;
    if parts == [] {
      NothingLeads(image, base);
    } else {
      FirstPart(image, parts, base);
      FittingEntriesLead(image, parts[1..], base + |parts[0].data|);
      FirstLeads(image, parts, base);
    }
  }

  lemma NothingLeads(image: seq<byte>, base: nat)
    ensures EntriesLead(image, [], base)
  {}

  /** Parts of the same names and lengths. */
  ghost predicate SameShape(parts: seq<Part>, other: seq<Part>)
  {
    && |parts| == |other|
    && forall i :: 0 <= i < |parts| ==> parts[i].name == other[i].name && |parts[i].data| == |other[i].data|
  }

  /** Their tables are the same, and so is what is said of them. */
  lemma {:induction false} ShapeDecides(parts: seq<Part>, other: seq<Part>, base: nat)
    requires SameShape(parts, other)
    ensures Entries(parts, base) == Entries(other, base) && |AllData(parts)| == |AllData(other)|
    ensures StartsFit(parts, base) <==> StartsFit(other, base)
  {
    if parts == [] {
    } else {
      assert parts[0].name == other[0].name && |parts[0].data| == |other[0].data|;
      ShapeDecides(parts[1..], other[1..], base + |parts[0].data|);
    }
  }

  lemma {:induction false} ShapeIsChecked(flash: seq<FlashEntry>, parts: seq<Part>, other: seq<Part>, base: nat,
                                          room: nat)
    requires SameShape(parts, other)
    ensures Check(flash, parts, base, room) == Check(flash, other, base, room)
    decreases |parts|
  {
    hide Line, Lookup;
    if parts == [] {
    } else {
      assert parts[0].name == other[0].name && |parts[0].data| == |other[0].data|;
      var line := Line(Fwup, EntryOf(parts[0], base));
      if |line| < room {
        ShapeIsChecked(flash, parts[1..], other[1..], base + |parts[0].data|, room - |line|);
      }
    }
  }

  /** The parts can be packed, and every entry of the table of the factory image leads to the bytes of its part. */
  ghost predicate Leads(board: Board, parts: seq<Part>)
  {
    FactoryImage(board, parts).Ok? && EntriesLead(FactoryImage(board, parts).value, parts, 0x800)
  }

  lemma {:induction false} EntryAt(parts: seq<Part>, base: nat, i: nat)
    requires i < |parts|
    ensures Entries(parts, base)[i] == EntryOf(parts[i], base + |AllData(parts[..i])|)
  {
    hide EntryOf;
    if i == 0 {
    } else {
      EntryAt(parts[1..], base + |parts[0].data|, i - 1);
      assert parts[..i][1..] == parts[1..][..i - 1];
    }
  }

  /** A part with data that starts too far behind. */
  lemma {:induction false} FirstBadStart(parts: seq<Part>, base: nat) returns (i: nat)
    requires !StartsFit(parts, base)
    ensures i < |parts| && parts[i].data != [] && base + |AllData(parts[..i])| >= 0x1_0000_0000
  {
    if parts[0].data != [] && base >= 0x1_0000_0000 {
      i := 0;
    } else {
      i := FirstBadStart(parts[1..], base + |parts[0].data|);
      assert parts[..i + 1][1..] == parts[1..][..i];
      i := i + 1;
    }
  }

  /** The parts with another first byte in part `i`. */
  function Changed(parts: seq<Part>, i: nat): (other: seq<Part>)
    requires i < |parts| && parts[i].data != []
    ensures |other| == |parts| && other[..i] == parts[..i]
    ensures |other[i].data| == |parts[i].data| && other[i].data[0] != parts[i].data[0]
  {
    var d := parts[i].data;
    parts[i := Part(parts[i].name, d[0 := if d[0] == 0 then 1 else 0])]
  }

  lemma ChangedShape(parts: seq<Part>, i: nat)
    requires i < |parts| && parts[i].data != []
    ensures SameShape(parts, Changed(parts, i))
  {}

  /** In front of part `i` that makes no difference to the image, behind its vendor information at least. */
  lemma FrontStays(board: Board, parts: seq<Part>, i: nat, at: nat)
    requires VendorInside(board, parts) && Check(board.flash, parts, 0x800, 0x800) == None
    requires i < |parts| && parts[i].data != []
    requires FIRMWARE_OFFSET <= at < FIRMWARE_OFFSET + 0x800 + |AllData(parts[..i])|
    ensures var x, y := FactoryImage(board, parts), FactoryImage(board, Changed(parts, i));
            x.Ok? && y.Ok? && |x.value| == |y.value| > at && x.value[at] == y.value[at]
  {
    hide FactoryImage, Check, Rfc.Digest, BigEndian, VendorBlock, TableText, Entries, Background, Changed, AllData,
      SameShape, PackedInto;
    var other := Changed(parts, i);
    ChangedShape(parts, i);
    ShapeDecides(parts, other, 0x800);
    ShapeIsChecked(board.flash, parts, other, 0x800, 0x800);
    var x := ImageAt(board, parts, i, at);
    var y := ImageAt(board, other, i, at);
  }

  /** The byte of an image in front of part `i`. */
  lemma ImageAt(board: Board, parts: seq<Part>, i: nat, at: nat) returns (b: byte)
    requires VendorInside(board, parts) && Check(board.flash, parts, 0x800, 0x800) == None && i < |parts|
    requires FIRMWARE_OFFSET <= at < FIRMWARE_OFFSET + 0x800 + |AllData(parts[..i])|
    ensures FactoryImage(board, parts).Ok? && |ImageTable(parts)| < 0x800 && at < |FactoryImage(board, parts).value|
    ensures b == FactoryImage(board, parts).value[at]
    ensures b == if at < 0x1814 then TableBlock(board.vendor, parts)[at - 0x1014]
                 else AllData(parts[..i])[at - 0x1814]
  {
    hide FactoryImage, Check, Rfc.Digest, BigEndian, VendorBlock, TableBlock, AllData, ImageTable;
    FactoryImageIsPacked(board, parts);
    var image := FactoryImage(board, parts).value;
    assert parts == parts[..i] + parts[i..];
    AllDataConcat(parts[..i], parts[i..]);
    b := image[at];
    if at < 0x1814 {
      assert b == image[0x1014..0x1814][at - 0x1014];
    } else {
      assert b == image[0x1814..][at - 0x1814];
    }
  }

  /**
   * The bases of the table are exact: whatever the parts contain, every entry leads to the bytes of its part, if and
   * only if every part with data starts where a 32-bit base can point.
   */
  lemma BasesAreExact(board: Board, parts: seq<Part>)
    requires VendorInside(board, parts) && Check(board.flash, parts, 0x800, 0x800) == None
    ensures StartsFit(parts, 0x800) <==> forall other :: SameShape(parts, other) ==> Leads(board, other)
  {
    hide FactoryImage, Check, SameShape, StartsFit, EntriesLead, PackedInto;
    if StartsFit(parts, 0x800) {
      forall other | SameShape(parts, other)
        ensures Leads(board, other)
      {
        ShapeDecides(parts, other, 0x800);
        ShapeIsChecked(board.flash, parts, other, 0x800, 0x800);
        FactoryImageIsPacked(board, other);
        ImageEndsWithData(board, other, FactoryImage(board, other).value);
        FittingEntriesLead(FactoryImage(board, other).value, other, 0x800);
      }
    } else {
      var i := FirstBadStart(parts, 0x800);
      ChangedShape(parts, i);
      ShapeIsItself(parts);
      BothCannotLead(board, parts, i);
    }
  }

  lemma ShapeIsItself(parts: seq<Part>)
    ensures SameShape(parts, parts)
  {}

  /** The entry of a part that starts too far behind leads in front of it, where its bytes are not. */
  lemma BothCannotLead(board: Board, parts: seq<Part>, i: nat)
    requires VendorInside(board, parts) && Check(board.flash, parts, 0x800, 0x800) == None
    requires i < |parts| && parts[i].data != [] && 0x800 + |AllData(parts[..i])| >= 0x1_0000_0000
    ensures !(Leads(board, parts) && Leads(board, Changed(parts, i)))
  {
    hide FactoryImage, Check, Changed, SameShape, AllData;
    var other, start := Changed(parts, i), 0x800 + |AllData(parts[..i])|;
    ChangedShape(parts, i);
    ShapeDecides(parts, other, 0x800);
    EntryAt(parts, 0x800, i);
    var at := FIRMWARE_OFFSET + start % 0x1_0000_0000;
    FrontStays(board, parts, i, at);
    if Leads(board, parts) {
      FirstByte(FactoryImage(board, parts).value, parts, i);
    }
    if Leads(board, other) {
      FirstByte(FactoryImage(board, other).value, other, i);
    }
  }

  lemma {:induction false} FirstByte(image: seq<byte>, parts: seq<Part>, i: nat)
    requires EntriesLead(image, parts, 0x800) && i < |parts| && parts[i].data != []
    ensures var at := Entries(parts, 0x800)[i].base + FIRMWARE_OFFSET;
            at < |image| && image[at] == parts[i].data[0]
  {
    hide Entries;
    assert Region(image, Entries(parts, 0x800)[i]) == Some(parts[i].data);
  }

  // ---------------------------------------------------------------- reading the table of an image

  ghost predicate Names(parts: seq<Part>, ok: seq<byte> -> bool)
  {
    forall p :: p in parts ==> ok(p.name)
  }

  lemma {:induction false} EntryNames(parts: seq<Part>, base: nat)
    ensures forall i :: 0 <= i < |parts| ==> Entries(parts, base)[i].name == parts[i].name
  {
    if parts == [] {
    } else {
      EntryNames(parts[1..], base + |parts[0].data|);
    }
  }

  /** The window the table of a packed image is read from holds the printed entries, whatever the stack held. */
  lemma WindowOfImage(board: Board, parts: seq<Part>, image: seq<byte>, junk: TableBuffer)
    requires PackedInto(board, parts, image) && parts != []
    ensures Holds(Window(image, FIRMWARE_OFFSET, junk), Fwup, Entries(parts, 0x800))
  {
    hide TableText, Window, AllData, Check;
    var text, w := ImageTable(parts), Window(image, FIRMWARE_OFFSET, junk);
    TextNotEmpty(Fwup, Entries(parts, 0x800));
    var t := Terminated(text);
    assert t == text + [0];
    WindowHoldsFile(image, FIRMWARE_OFFSET, junk, |text|);
    SubSlice(image, 0x1014, t, 0, |text|);
    if |t| < 2048 {
      WindowHoldsFile(image, FIRMWARE_OFFSET, junk, |t|);
      assert w[|text|] == w[..|t|][|text|] == 0;
    }
  }

  lemma TextNotEmpty(kind: Kind, es: seq<FlashEntry>)
    requires es != []
    ensures TableText(kind, es) != []
  {
    LineIsNotEmpty(kind, es[0]);
  }

  /** No table is read from a blank block. */
  lemma NoPartsNoTable(image: seq<byte>, junk: TableBuffer, n: nat)
    requires BlankTable(image)
    ensures ReadTable(Window(image, FIRMWARE_OFFSET, junk), Fwup, Filled([], n)) == Err(NoHeader)
  {
    hide Window;
    var w := Window(image, FIRMWARE_OFFSET, junk);
    assert w[0] == image[0x1014..0x1814][0] == 0xff;
  }

  // ---------------------------------------------------------------- packing and extracting

  /** Each part as the file of its name. */
  function FilesOf(parts: seq<Part>): (r: seq<OutFile>)
    ensures |r| == |parts|
    ensures forall i :: 0 <= i < |parts| ==> r[i] == OutFile(Inside(parts[i].name), parts[i].data)
  {
    seq(|parts|, i requires 0 <= i < |parts| => OutFile(Inside(parts[i].name), parts[i].data))
  }

  lemma {:induction false} FreeSlotsHaveNoFiles(image: seq<byte>, n: nat, junk: seq<Chunk>, open: Opener)
    requires |junk| == n
    ensures SlotFiles(image, Filled([], n), junk, open) == Extraction(None, [])
    decreases n
  {
    if n == 0 {
    } else {
      assert Filled([], n)[1..] == Filled([], n - 1);
      FreeSlotsHaveNoFiles(image, n - 1, junk[1..], open);
    }
  }

  /** The first slot in use, if its file can be opened and the image holds its bytes. */
  lemma FirstFile(image: seq<byte>, slots: seq<Slot>, junk: seq<Chunk>, open: Opener, e: FlashEntry, target: Target)
    requires |junk| == |slots| > 0 && slots[0] == Slot(Some(e.name), e.base, e.size) && open(e.name) == Some(target)
    requires Region(image, e).Some?
    ensures SlotFiles(image, slots, junk, open)
         == After([OutFile(target, Region(image, e).value)], SlotFiles(image, slots[1..], junk[1..], open))
  {
    hide Region, Copied;
    RegionIsCopied(image, e, junk[0]);
  }

  lemma FilledFirst(e: FlashEntry, es: seq<FlashEntry>, n: nat)
    requires |es| < n
    ensures Filled([e] + es, n)[0] == Slot(Some(e.name), e.base, e.size)
    ensures Filled([e] + es, n)[1..] == Filled(es, n - 1)
  {}

  lemma FilesOfFirst(parts: seq<Part>)
    requires parts != []
    ensures FilesOf(parts) == [OutFile(Inside(parts[0].name), parts[0].data)] + FilesOf(parts[1..])
  {}

  /** Copying every entry of the table out gives the parts back exactly if every entry leads to its part. */
  lemma {:induction false} SlotsGiveParts(image: seq<byte>, parts: seq<Part>, base: nat, n: nat, junk: seq<Chunk>,
                                          open: Opener)
    requires DataFrom(image, parts, base) && |parts| <= n == |junk|
    requires Writable(open) && Names(parts, Component)
    ensures SlotFiles(image, Filled(Entries(parts, base), n), junk, open) == Extraction(None, FilesOf(parts))
            <==> EntriesLead(image, parts, base)
    decreases |parts|
  {
    hide Region, DataFrom, AllData, Component, EntryOf, SlotFiles, Filled, FilesOf, EntriesLead;
    if parts == [] {
      FreeSlotsHaveNoFiles(image, n, junk, open);
      NothingLeads(image, base);
      assert FilesOf(parts) == [];
    } else {
      FirstPart(image, parts, base);
      FirstLeads(image, parts, base);
      var e, next := EntryOf(parts[0], base), base + |parts[0].data|;
      EntryName(parts[0], base);
      assert Component(parts[0].name);
      SlotsGiveParts(image, parts[1..], next, n - 1, junk[1..], open);
      FilledFirst(e, Entries(parts[1..], next), n);
      FirstFile(image, Filled(Entries(parts, base), n), junk, open, e, Inside(parts[0].name));
      FilesOfFirst(parts);
    }
  }

  lemma EntryName(p: Part, base: nat) ensures EntryOf(p, base).name == p.name {}

  /** Whatever is extracted, a file of the directory has a proper name, and one that a table can carry. */
  lemma {:induction false} FilesComeFromSlots(image: seq<byte>, slots: seq<Slot>, junk: seq<Chunk>, open: Opener)
    requires |junk| == |slots| && Writable(open) && PlainSlots(slots)
    ensures |SlotFiles(image, slots, junk, open).files| <= |slots|
    ensures forall f :: f in SlotFiles(image, slots, junk, open).files && f.target.Inside? ==>
              Plain(f.target.file) && Component(f.target.file)
  {
    hide Copied, Plain, Component;
    if slots == [] {
    } else {
      assert slots[0] in slots && forall s :: s in slots[1..] ==> s in slots;
      FilesComeFromSlots(image, slots[1..], junk[1..], open);
      if slots[0].name.Some? && open(slots[0].name.value).Some? && open(slots[0].name.value).value.Inside? {
        EndOfName(slots[0].name.value, open(slots[0].name.value).value.file);
      }
    }
  }

  lemma EndOfName(name: seq<byte>, file: seq<byte>)
    requires Plain(name) && |file| <= |name| && name[|name| - |file|..] == file
    ensures Plain(file)
  {
    assert forall c :: c in file ==> c in name;
  }

  lemma TableReadsBack(w: seq<byte>, es: seq<FlashEntry>, n: nat)
    requires Holds(w, Fwup, es) && es != [] && |es| <= n
    requires forall i :: 0 <= i < |es| ==> Plain(es[i].name) && 0 !in es[i].name
    ensures ReadTable(w, Fwup, Filled([], n)) == Ok(Filled(es, n))
  {
    hide Holds, ReadTable, Filled;
    TableRoundTrip(w, Fwup, es, n);
  }

  /** The lists of parts that survive packing and extracting. */
  ghost predicate Extractable(parts: seq<Part>)
  {
    parts != [] && |parts| <= 16 && Names(parts, Plain) && Names(parts, Component)
  }

  /**
   * Extracting an image gives back every part packed into it, name and bytes, in order, exactly when there are 1 to 16
   * parts, every name is a proper file name of at most 31 bytes without space or newline, and every entry leads to its
   * part, as it does if every part with data starts where a 32-bit base can point. Part names are C strings, and in an
   * image without parts the table block is blank.
   */
  lemma PackThenExtract(board: Board, parts: seq<Part>, image: seq<byte>, table: TableBuffer, junk: seq<Chunk>,
                        open: Opener)
    requires PackedInto(board, parts, image) && (parts == [] ==> BlankTable(image))
    requires |junk| == 16 && Writable(open)
    requires Names(parts, name => 0 !in name)
    ensures Extracted(image, table, junk, open) == Extraction(None, FilesOf(parts))
            <==> Extractable(parts) && EntriesLead(image, parts, 0x800)
    ensures StartsFit(parts, 0x800) ==> EntriesLead(image, parts, 0x800)
  {
    hide PackedInto, Window, Holds, DataFrom, Plain, Component, SlotFiles, ReadTable, Filled, Entries, StartsFit,
      Writable, EntriesLead, Names;
    ImageEndsWithData(board, parts, image);
    if StartsFit(parts, 0x800) {
      FittingEntriesLead(image, parts, 0x800);
    }
    if parts == [] {
      NoPartsNoTable(image, table, 16);
    } else {
      var w, es := Window(image, FIRMWARE_OFFSET, table), Entries(parts, 0x800);
      WindowOfImage(board, parts, image, table);
      if Extracted(image, table, junk, open) == Extraction(None, FilesOf(parts)) {
        TablesHavePlainNames(w, Fwup, 16);
        FilesComeFromSlots(image, ReadTable(w, Fwup, Filled([], 16)).value, junk, open);
        FileNames(parts);
      }
      if Extractable(parts) {
        EntriesArePlain(parts);
        TableReadsBack(w, es, 16);
        SlotsGiveParts(image, parts, 0x800, 16, junk, open);
      }
    }
  }

  lemma EntriesArePlain(parts: seq<Part>)
    requires Names(parts, Plain) && Names(parts, name => 0 !in name)
    ensures forall i :: 0 <= i < |parts| ==>
              Plain(Entries(parts, 0x800)[i].name) && 0 !in Entries(parts, 0x800)[i].name
  {
    hide Plain, Entries;
    EntryNames(parts, 0x800);
    forall i | 0 <= i < |parts|
      ensures Plain(Entries(parts, 0x800)[i].name) && 0 !in Entries(parts, 0x800)[i].name
    {
      assert parts[i] in parts;
    }
  }

  lemma FileNames(parts: seq<Part>)
    requires forall f :: f in FilesOf(parts) && f.target.Inside? ==> Plain(f.target.file) && Component(f.target.file)
    ensures Names(parts, Plain) && Names(parts, Component)
  {
    hide Plain, Component;
    forall p | p in parts
      ensures Plain(p.name) && Component(p.name)
    {
      var i :| 0 <= i < |parts| && parts[i] == p;
      assert FilesOf(parts)[i] in FilesOf(parts);
    }
  }

  /** The parts can be packed, and extracting the factory image gives them back. */
  ghost predicate ComesBack(board: Board, parts: seq<Part>, table: TableBuffer, junk: seq<Chunk>, open: Opener)
    requires |junk| == 16
  {
    && FactoryImage(board, parts).Ok?
    && Extracted(FactoryImage(board, parts).value, table, junk, open) == Extraction(None, FilesOf(parts))
  }

  /**
   * Whatever the parts contain, they come back, if and only if there are 1 to 16 parts with proper names that a table
   * can carry, and every part with data starts where a 32-bit base can point.
   */
  lemma ExtractionIsExact(board: Board, parts: seq<Part>, table: TableBuffer, junk: seq<Chunk>, open: Opener)
    requires VendorInside(board, parts) && Check(board.flash, parts, 0x800, 0x800) == None
    requires parts == [] ==> VendorLeaves(board.vendor, 0)
    requires |junk| == 16 && Writable(open)
    requires Names(parts, name => 0 !in name)
    ensures (forall other :: SameShape(parts, other) ==> ComesBack(board, other, table, junk, open))
            <==> Extractable(parts) && StartsFit(parts, 0x800)
  {
    hide FactoryImage, Check, SameShape, StartsFit, Leads, Extractable, Names, ComesBack, Writable, VendorLeaves;
    forall other | SameShape(parts, other)
      ensures ComesBack(board, other, table, junk, open) <==> Extractable(parts) && Leads(board, other)
    {
      ShapeIsChecked(board.flash, parts, other, 0x800, 0x800);
      ShapeDecides(parts, other, 0x800);
      ShapeNames(parts, other);
      PackedComesBack(board, other, table, junk, open);
    }
    BasesAreExact(board, parts);
    ShapeIsItself(parts);
  }

  lemma PackedComesBack(board: Board, parts: seq<Part>, table: TableBuffer, junk: seq<Chunk>, open: Opener)
    requires VendorInside(board, parts) && Check(board.flash, parts, 0x800, 0x800) == None
    requires parts == [] ==> VendorLeaves(board.vendor, 0)
    requires |junk| == 16 && Writable(open)
    requires Names(parts, name => 0 !in name)
    ensures ComesBack(board, parts, table, junk, open) <==> Extractable(parts) && Leads(board, parts)
  {
    hide FactoryImage, Check, StartsFit, Extractable, Names, Extracted, Writable, VendorLeaves, EntriesLead,
      PackedInto, BlankTable;
    FactoryImageIsPacked(board, parts);
    if parts == [] {
      NoPartsBlankTable(board);
    }
    PackThenExtract(board, parts, FactoryImage(board, parts).value, table, junk, open);
  }

  lemma ShapeNames(parts: seq<Part>, other: seq<Part>)
    requires SameShape(parts, other)
    ensures Extractable(parts) <==> Extractable(other)
    ensures Names(parts, name => 0 !in name) ==> Names(other, name => 0 !in name)
  {
    hide Plain, Component;
    SameNames(parts, other, Plain);
    SameNames(parts, other, Component);
    SameNames(parts, other, name => 0 !in name);
  }

  lemma SameNames(parts: seq<Part>, other: seq<Part>, ok: seq<byte> -> bool)
    requires SameShape(parts, other)
    ensures Names(parts, ok) <==> Names(other, ok)
  {
    forall p | p in parts
      ensures exists q :: q in other && q.name == p.name
    {
      var i :| 0 <= i < |parts| && parts[i] == p;
      assert other[i] in other;
    }
    forall q | q in other
      ensures exists p :: p in parts && p.name == q.name
    {
      var i :| 0 <= i < |other| && other[i] == q;
      assert parts[i] in parts;
    }
  }

  // ---------------------------------------------------------------- the extracted directory

  /** The output directory: a file of the same name is overwritten. */
  function Directory(files: seq<OutFile>): map<seq<byte>, seq<byte>>
  {
    if files == [] then map[]
    else
      var front, last := Directory(files[..|files| - 1]), files[|files| - 1];
      if last.target.Inside? then front[last.target.file := last.data] else front
  }

  lemma {:induction false} DirectoryOf(parts: seq<Part>)
    requires forall i, j :: 0 <= i < j < |parts| ==> parts[i].name != parts[j].name
    ensures forall p :: p in parts ==>
        p.name in Directory(FilesOf(parts)) && Directory(FilesOf(parts))[p.name] == p.data
    ensures forall name :: name in Directory(FilesOf(parts)) ==> exists p :: p in parts && p.name == name
  {
    if parts == [] {
    } else {
      var front, last := parts[..|parts| - 1], parts[|parts| - 1];
      DirectoryOf(front);
      assert FilesOf(parts)[..|parts| - 1] == FilesOf(front);
      assert parts == front + [last];
      assert Directory(FilesOf(parts)) == Directory(FilesOf(front))[last.name := last.data];
      hide Directory;
      forall p | p in parts
        ensures p.name in Directory(FilesOf(parts)) && Directory(FilesOf(parts))[p.name] == p.data
      {
        var i :| 0 <= i < |parts| && parts[i] == p;
        if i < |parts| - 1 {
          assert front[i] == p;
        }
      }
    }
  }

  /** If no two parts share a name, the directory holds a file for every part, with its bytes, and no other. */
  lemma DirectoryHoldsParts(board: Board, parts: seq<Part>, image: seq<byte>, table: TableBuffer, junk: seq<Chunk>,
                            open: Opener)
    requires PackedInto(board, parts, image) && EntriesLead(image, parts, 0x800) && Extractable(parts)
    requires |junk| == 16 && Writable(open)
    requires Names(parts, name => 0 !in name)
    requires forall i, j :: 0 <= i < j < |parts| ==> parts[i].name != parts[j].name
    ensures Extracted(image, table, junk, open).failure == None
    ensures var d := Directory(Extracted(image, table, junk, open).files);
            && (forall p :: p in parts ==> p.name in d && d[p.name] == p.data)
            && (forall name :: name in d ==> exists p :: p in parts && p.name == name)
  {
    hide PackedInto, StartsFit, EntriesLead, Extracted, Writable;
    PackThenExtract(board, parts, image, table, junk, open);
    DirectoryOf(parts);
  }

}
