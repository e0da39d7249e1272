/** Inputs for which the code does not do what its documentation and messages lead one to expect, one lemma for each. */
module Shortfalls {
  import opened Bytes
  import opened Results
  import opened Text
  import opened PartitionTable
  import opened TableReader
  import opened Factory
  import opened Sysupgrade
  import opened Convert
  import opened Firmware
  import opened Routes
  import Device = ArcherC7
  import DnsName
  import DnsAnswers
  import CopyWithDeadline
  import Rfc = Md5Rfc

  // ---------------------------------------------------------------- packing and extracting

  /** A directory without subdirectories. */
  function PlainDirectory(): Opener
  {
    name => if Component(name) then Some(Inside(name)) else None
  }

  lemma PlainDirectoryIsWritable()
    ensures Writable(PlainDirectory())
  {}

  /** A board with one partition of `size` bytes for each of the names. */
  function NamedBoard(names: seq<seq<byte>>, size: uint32): Board
  {
    Board(None, seq(|names|, i requires 0 <= i < |names| => FlashEntry(names[i], 0, size)), [], [])
  }

  /** For each name a part with the same data. */
  function NamedParts(names: seq<seq<byte>>, data: seq<byte>): (parts: seq<Part>)
    ensures |parts| == |names|
    ensures forall i :: 0 <= i < |names| ==> parts[i] == Part(names[i], data)
  {
    seq(|names|, i requires 0 <= i < |names| => Part(names[i], data))
  }

  lemma {:induction false} LookupNamed(flash: seq<FlashEntry>, i: nat, size: uint32)
    requires i < |flash| && forall e :: e in flash ==> e.size == size
    ensures Lookup(flash, flash[i].name).Some? && Lookup(flash, flash[i].name).value.size == size
  {
    if i == 0 || flash[0].name == flash[i].name {
      assert flash[0] in flash;
    } else {
      assert forall e :: e in flash[1..] ==> e in flash;
      LookupNamed(flash[1..], i - 1, size);
    }
  }

  /** The parts of a board of up to 17 short names are accepted and packed. */
  lemma NamedPacked(names: seq<seq<byte>>, data: seq<byte>, size: uint32)
    requires |names| <= 17 && (forall n: seq<byte> :: n in names ==> |n| <= 32) && |data| <= size
    ensures var board, parts := NamedBoard(names, size), NamedParts(names, data);
            FactoryImage(board, parts).Ok? && PackedInto(board, parts, FactoryImage(board, parts).value)
  {
    hide Check, FactoryImage, PackedInto, Lookup;
    var board, parts := NamedBoard(names, size), NamedParts(names, data);
    forall p | p in parts
      ensures |p.name| <= 32 && Lookup(board.flash, p.name).Some? && |p.data| <= Lookup(board.flash, p.name).value.size
    {
      var i :| 0 <= i < |parts| && parts[i] == p;
      NamedLooked(names, data, size, i);
    }
    Device.PartsAccepted(board.flash, parts, 0x800, 0x800, 32);
    FactoryImageIsPacked(board, parts);
  }

  lemma NamedLooked(names: seq<seq<byte>>, data: seq<byte>, size: uint32, i: nat)
    requires i < |names| && |names[i]| <= 32 && |data| <= size
    ensures var flash, p := NamedBoard(names, size).flash, NamedParts(names, data)[i];
            && |p.name| <= 32 && Lookup(flash, p.name).Some? && |p.data| <= Lookup(flash, p.name).value.size
  {
    hide Lookup;
    LookupNamed(NamedBoard(names, size).flash, i, size);
  }

  /** Parts of no data, with up to 17 short names, are packed; what extracting makes of them. */
  ghost predicate Lost(names: seq<seq<byte>>, table: TableBuffer, junk: seq<Chunk>, open: Opener)
    requires |junk| == 16
  {
    var image := FactoryImage(NamedBoard(names, 0), NamedParts(names, []));
    image.Ok? && Extracted(image.value, table, junk, open) != Extraction(None, FilesOf(NamedParts(names, [])))
  }

  lemma NotExtractable(names: seq<seq<byte>>, table: TableBuffer, junk: seq<Chunk>, open: Opener)
    requires |names| <= 17 && (forall n: seq<byte> :: n in names ==> |n| <= 32 && 0 !in n)
    requires |junk| == 16 && Writable(open) && !Extractable(NamedParts(names, []))
    ensures Lost(names, table, junk, open)
  {
    hide Extracted, FactoryImage, PackedInto, StartsFit, EntriesLead, Extractable, Writable;
    NamedPacked(names, [], 0);
    var parts := NamedParts(names, []);
    if parts == [] {
      NoPartsBlankTable(NamedBoard(names, 0));
    }
    assert Names(parts, name => 0 !in name);
    PackThenExtract(NamedBoard(names, 0), parts, FactoryImage(NamedBoard(names, 0), parts).value, table, junk, open);
  }

  /** An image of no parts. */
  lemma NothingIsNotExtracted(table: TableBuffer, junk: seq<Chunk>, open: Opener)
    requires |junk| == 16 && Writable(open)
    ensures Lost([], table, junk, open)
  {
    NotExtractable([], table, junk, open);
  }

  /** Names with a space, with a newline, of 32 bytes, and names that are not names of files. */
  lemma BadNamesAreNotExtracted(name: seq<byte>, table: TableBuffer, junk: seq<Chunk>, open: Opener)
    requires |junk| == 16 && Writable(open)
    requires name in [Ascii("a b"), [0x61, 0x0a, 0x62], Fill(32, 0x61), [], Ascii("."), Ascii(".."), Ascii("./a")]
    ensures Lost([name], table, junk, open)
  {
    hide Lost, Ascii, Plain, Component, Writable;
    var parts := NamedParts([name], []);
    assert parts[0] in parts && parts[0].name == name;
    assert !(Plain(name) && Component(name)) && |name| <= 32 && 0 !in name by { BadNames(name); }
    NotExtractable([name], table, junk, open);
  }

  lemma BadNames(name: seq<byte>)
    requires name in [Ascii("a b"), [0x61, 0x0a, 0x62], Fill(32, 0x61), [], Ascii("."), Ascii(".."), Ascii("./a")]
    ensures !(Plain(name) && Component(name)) && |name| <= 32 && 0 !in name
  {
    assert Ascii("a b")[1] == SPACE && Ascii("./a")[1] == 0x2f;
    assert Ascii(".") == [0x2e] && Ascii("..") == [0x2e, 0x2e];
  }

  function Letters(): (names: seq<seq<byte>>)
    ensures |names| == 17
    ensures forall n: seq<byte> :: n in names ==> |n| == 1 && 0 !in n
  {
    seq(17, i requires 0 <= i < 17 => [0x61 + i as byte])
  }

  /** Seventeen parts, of the names "a" to "q". */
  lemma SeventeenAreNotExtracted(table: TableBuffer, junk: seq<Chunk>, open: Opener)
    requires |junk| == 16 && Writable(open)
    ensures Lost(Letters(), table, junk, open)
  {
    hide Lost, Plain, Component, Writable;
    NotExtractable(Letters(), table, junk, open);
  }

  // ---------------------------------------------------------------- beyond 4 GiB

  function LargePartBoard(): Board { NamedBoard([[0x61]], 0xffff_ffff) }
  function LargePart(): seq<Part> { NamedParts([[0x61]], Fill(0xffff_ffff, 0)) }

  lemma LargePartIsPacked()
    ensures VendorInside(LargePartBoard(), LargePart()) && FactoryLength(LargePart()) >= 0x1_0000_0014
    ensures Check(LargePartBoard().flash, LargePart(), 0x800, 0x800) == None
  {
    hide FactoryImage, Check, PackedInto;
    NamedPacked([[0x61]], Fill(0xffff_ffff, 0), 0xffff_ffff);
    CheckedIfPacked(LargePartBoard(), LargePart());
    OnePart(LargePart());
  }

  /** One part of 2^32 - 1 bytes makes an image longer than its length field can say ... */
  lemma LengthFieldOverflows()
    ensures var image := FactoryImage(LargePartBoard(), LargePart());
            image.Ok? && FromBigEndian(image.value[..4]) != |image.value|
  {
    hide FactoryImage, Check, FromBigEndian, LargePartBoard, LargePart, Rfc.Digest, Hashed;
    LargePartIsPacked();
    FactoryIsConsistent(LargePartBoard(), LargePart());
  }

  /** ... and a checksum of a front part of what it is to cover. */
  lemma ChecksumStops()
    ensures var image := FactoryImage(LargePartBoard(), LargePart());
            && image.Ok? && image.value[4..0x14] == Rfc.Digest(SALT + Hashed(image.value[0x14..]))
            && Hashed(image.value[0x14..]) != image.value[0x14..]
  {
    hide FactoryImage, Check, FromBigEndian, LargePartBoard, LargePart, Rfc.Digest, Hashed;
    LargePartIsPacked();
    FactoryIsConsistent(LargePartBoard(), LargePart());
  }

  lemma CheckedIfPacked(board: Board, parts: seq<Part>)
    requires FactoryImage(board, parts).Ok?
    ensures VendorInside(board, parts) && Check(board.flash, parts, 0x800, 0x800) == None
  {
    hide Check, Payload, Rfc.Digest, BigEndian;
  }

  lemma OnePart(parts: seq<Part>)
    requires |parts| == 1
    ensures |AllData(parts)| == |parts[0].data|
  {
    assert parts[1..] == [];
  }

  /** Two partitions, and a part of 2^32 - 1 bytes in front of a part of one byte. */
  function LargeBoard(): Board { Board(None, [FlashEntry([0x61], 0, 0xffff_ffff), FlashEntry([0x62], 0, 1)], [], []) }
  function LargeParts(): seq<Part> { [Part([0x61], Fill(0xffff_ffff, 0)), Part([0x62], [0])] }

  lemma LargeAccepted()
    ensures Check(LargeBoard().flash, LargeParts(), 0x800, 0x800) == None
  {
    hide Check;
    var flash := LargeBoard().flash;
    assert flash[1..] == [FlashEntry([0x62], 0, 1)];
    assert Lookup(flash, [0x61]) == Some(flash[0]) && Lookup(flash, [0x62]) == Some(flash[1]);
    Device.PartsAccepted(flash, LargeParts(), 0x800, 0x800, 1);
  }

  lemma SecondEntry()
    ensures Entries(LargeParts(), 0x800)[1] == FlashEntry([0x62], 0x7ff, 1)
  {
    hide LargeParts, Entries;
    LargeIs();
    TwoEntries(LargeParts());
  }

  /** The table entry of part `i` leads to other bytes than those of the part. */
  ghost predicate Misplaced(board: Board, parts: seq<Part>, i: nat)
  {
    && i < |parts| && FactoryImage(board, parts).Ok?
    && Region(FactoryImage(board, parts).value, Entries(parts, 0x800)[i]) != Some(parts[i].data)
  }

  /** The second part is accepted, starts behind 4 GiB, and its entry leads to a byte of the table block instead. */
  lemma PartBehind4GiB()
    ensures Misplaced(LargeBoard(), LargeParts(), 1)
  {
    hide Check, FactoryImage, PackedInto, LargeBoard, LargeParts, Entries, VendorBlock, TableBlock, Rfc.Digest,
      BigEndian, ImageTable;
    LargeIs();
    LargeAccepted();
    FactoryImageIsPacked(LargeBoard(), LargeParts());
    LastTableByte(LargeParts(), FactoryImage(LargeBoard(), LargeParts()).value);
    SecondEntry();
  }

  lemma LargeIs()
    ensures LargeBoard().vendor == None && |LargeParts()| == 2
    ensures LargeParts()[0].name == [0x61] && |LargeParts()[0].data| == 0xffff_ffff
    ensures LargeParts()[1] == Part([0x62], [0])
  {}

  /** A table of two short names leaves the last byte of its block blank. */
  lemma LastTableByte(parts: seq<Part>, image: seq<byte>)
    requires |parts| == 2 && |parts[0].name| <= 1 && |parts[1].name| <= 1
    requires |image| >= 0x1814 && |ImageTable(parts)| < 0x800 && image[0x1014..0x1814] == TableBlock(None, parts)
    ensures image[0x1813..0x1814] == [0xff]
  {
    hide Background, ImageTable;
    DocumentedTableBlock(None, parts);
    ShortTable(parts);
    var block := TableBlock(None, parts);
    assert block[0x7ff] == 0xff;
    assert image[0x1813] == image[0x1014..0x1814][0x7ff];
  }

  lemma TwoEntries(parts: seq<Part>)
    requires |parts| == 2
    ensures Entries(parts, 0x800) == [EntryOf(parts[0], 0x800), EntryOf(parts[1], 0x800 + |parts[0].data|)]
  {
    assert parts[1..][0] == parts[1] && parts[1..][1..] == [];
  }

  lemma ShortTable(parts: seq<Part>)
    requires |parts| == 2 && |parts[0].name| <= 1 && |parts[1].name| <= 1
    ensures |Terminated(ImageTable(parts))| <= 101
  {
    hide TableText;
    TwoEntries(parts);
    var es := Entries(parts, 0x800);
    Device.TextIsShort(Fwup, es, 1);
  }

  // ---------------------------------------------------------------- vendor text

  /** A vendor text of 6140 characters, and one partition. */
  function TalkativeBoard(): Board { Board(Some(Fill(0x17fc, 0x78)), [FlashEntry([0x61], 0, 0)], [], []) }

  /** With one part of no data, its end is in the table block of the image. */
  lemma LongVendorText()
    ensures var image, parts := FactoryImage(TalkativeBoard(), NamedParts([[0x61]], [])), NamedParts([[0x61]], []);
            image.Ok? && |ImageTable(parts)| < 0x800 && image.value[0x1014..0x1814] != DocumentedTable(parts)
  {
    hide FactoryImage, Check, ImageTable, DocumentedTable;
    var board, parts := TalkativeBoard(), NamedParts([[0x61]], []);
    assert Lookup(board.flash, [0x61]) == Some(board.flash[0]);
    Device.PartsAccepted(board.flash, parts, 0x800, 0x800, 1);
    OnePart(parts);
    TableBlockIsDocumented(board, parts);
    OneLine(parts);
    assert board.vendor.value[0x17fb] == 0x78;
  }

  lemma OneLine(parts: seq<Part>)
    requires |parts| == 1 && |parts[0].name| <= 1
    ensures |Terminated(ImageTable(parts))| <= 51
  {
    hide TableText, Entries;
    EntryNames(parts, 0x800);
    Device.TextIsShort(Fwup, Entries(parts, 0x800), 1);
  }

  // ---------------------------------------------------------------- conversion

  /** An image without a kernel, in an array with room for more entries: the search meets an empty entry's null name. */
  lemma MissingPartitionIsNullName()
    ensures Find(Filled([FlashEntry(FileSystem(), 0, 0)], MAX_PARTITIONS), OsImage()) == Err(NullName)
  {
    hide Filled, OsImage, FileSystem;
    Device.Names1();
    Device.Names2();
    FindInFilled([FlashEntry(FileSystem(), 0, 0)], MAX_PARTITIONS, OsImage());
  }

  /** A device that names one partition as the first and the last to upgrade. */
  lemma OneUpgradedPartition(parts: seq<Part>)
    ensures SysupgradeImage(Board(None, [FlashEntry(OsImage(), 0, 0x1000)], OsImage(), OsImage()), parts)
         == Err(SysupgradeRangeMissing)
  {}

  // ---------------------------------------------------------------- kernel and file system apart, or a large partition

  /** The kernel's partition has `size` bytes, the file system's starts at `base`. */
  predicate Spread(size: uint32, base: uint32) { 0x1000 + size <= base <= 0xe000_0000 }

  function SpreadLayout(size: uint32, base: uint32): seq<FlashEntry>
  {
    [ FlashEntry(OsImage(), 0x1000, size),
      FlashEntry(FileSystem(), base, 0x1000),
      FlashEntry(LayoutName(), 0xf000_0000, 0x1000) ]
  }

  function SpreadBoard(size: uint32, base: uint32): Board
  {
    Board(None, SpreadLayout(size, base), OsImage(), FileSystem())
  }

  lemma SpreadText(size: uint32, base: uint32)
    ensures |TableText(Flash, SpreadLayout(size, base))| < 2044
  {
    hide TableText, OsImage, FileSystem, LayoutName;
    Device.Names1();
    Device.Names2();
    Device.Names4();
    Device.TextIsShort(Flash, SpreadLayout(size, base), 15);
  }

  /** Its printed layout, and a kernel and a file system of one byte each. */
  function SpreadParts(size: uint32, base: uint32): (parts: seq<Part>)
    ensures |parts| == 3
  {
    SpreadText(size, base);
    [Part(LayoutName(), LayoutData(SpreadLayout(size, base))), Part(OsImage(), [1]), Part(FileSystem(), [2])]
  }

  ghost predicate Usable(board: Board, parts: seq<Part>)
  {
    && |parts| == 3 && board.vendor == None && Distinct(board.flash) && |board.flash| == 3
    && Check(board.flash, parts, 0x800, 0x800) == None
    && PartNamed(parts, LayoutName()) == Some(parts[0]) && PartNamed(parts, OsImage()) == Some(parts[1])
    && PartNamed(parts, FileSystem()) == Some(parts[2])
    && Range(board) == Some((0, 1)) && Upgraded(board) == [board.flash[0], board.flash[1]]
  }

  lemma SpreadDistinct(size: uint32, base: uint32)
    ensures Distinct(SpreadLayout(size, base))
    ensures OsImage() != FileSystem() && OsImage() != LayoutName() && FileSystem() != LayoutName()
  {
    hide OsImage, FileSystem, LayoutName;
    Device.Names1();
    Device.Names2();
    Device.Names4();
  }

  lemma SpreadIsUsable(size: uint32, base: uint32)
    requires size > 0
    ensures Usable(SpreadBoard(size, base), SpreadParts(size, base))
  {
    hide TableText, LayoutData, OsImage, FileSystem, LayoutName, Check, Lookup, LastIndex, PartNamed;
    var board, parts := SpreadBoard(size, base), SpreadParts(size, base);
    SpreadDistinct(size, base);
    Device.Names1();
    Device.Names2();
    Device.Names4();
    LastIndexDistinct(board.flash, 0);
    LastIndexDistinct(board.flash, 1);
    PartNamedFirst(parts, 0);
    PartNamedFirst(parts, 1);
    PartNamedFirst(parts, 2);
    LookupFirst(board.flash, 0);
    LookupFirst(board.flash, 1);
    LookupFirst(board.flash, 2);
    Device.PartsAccepted(board.flash, parts, 0x800, 0x800, 15);
    assert board.flash[0..2] == [board.flash[0], board.flash[1]];
  }

  lemma SpreadIsConvertible(size: uint32, base: uint32)
    requires size > 0 && Spread(size, base)
    ensures Convertible(SpreadBoard(size, base), SpreadParts(size, base))
  {
    hide TableText, LayoutData, OsImage, FileSystem, LayoutName, Check, Range, PartNamed, Plain, Upgraded;
    SpreadIsUsable(size, base);
    SpreadText(size, base);
    Device.Names1();
    Device.Names2();
    Device.Names4();
  }

  /** The image the parts are packed into. */
  ghost predicate Packs(board: Board, parts: seq<Part>)
  {
    FactoryImage(board, parts).Ok? && PackedInto(board, parts, FactoryImage(board, parts).value) && Leads(board, parts)
  }

  ghost predicate SmallData(parts: seq<Part>) { forall p :: p in parts ==> |p.data| <= 0x800 }

  lemma SpreadIsSmall(size: uint32, base: uint32)
    ensures SmallData(SpreadParts(size, base))
  {
    hide TableText, OsImage, FileSystem, LayoutName, LayoutData;
  }

  lemma SpreadIsPacked(size: uint32, base: uint32)
    requires size > 0
    ensures Packs(SpreadBoard(size, base), SpreadParts(size, base))
  {
    hide SpreadBoard, SpreadParts, PartNamed, Range, FactoryImage, PackedInto, StartsFit, Upgraded, Check, EntriesLead,
      DataFrom;
    var board, parts := SpreadBoard(size, base), SpreadParts(size, base);
    SpreadIsUsable(size, base);
    FactoryImageIsPacked(board, parts);
    SpreadIsSmall(size, base);
    Device.DataLength(parts, 0x800);
    SmallImagesFit(parts, 0x800);
    ImageEndsWithData(board, parts, FactoryImage(board, parts).value);
    FittingEntriesLead(FactoryImage(board, parts).value, parts, 0x800);
  }

  /** What the conditions of the two routes are about. */
  ghost predicate Measured(board: Board, parts: seq<Part>, size: nat, base: nat)
  {
    && Range(board).Some? && board.last == FileSystem() && |Upgraded(board)| == 2
    && Upgraded(board)[0].name == OsImage() && Upgraded(board)[0].base == 0x1000 && Upgraded(board)[0].size == size
    && Upgraded(board)[1].base == base && Upgraded(board)[1].size == 0x1000
    && PartNamed(parts, OsImage()).Some? && |PartNamed(parts, OsImage()).value.data| == 1
    && PartNamed(parts, FileSystem()).Some? && |PartNamed(parts, FileSystem()).value.data| == 1
  }

  lemma SpreadIsMeasured(size: uint32, base: uint32)
    requires size > 0
    ensures Measured(SpreadBoard(size, base), SpreadParts(size, base), size, base)
  {
    hide LayoutData, OsImage, FileSystem, LayoutName, TableText, Check, PartNamed, Range, Upgraded;
    SpreadIsUsable(size, base);
  }

  /** How the two routes end for a board and parts. */
  ghost predicate RoutesDiffer(board: Board, parts: seq<Part>, junk: Junk, pad: nat)
  {
    var image, sysupgrade := FactoryImage(board, parts), SysupgradeImage(board, parts);
    image.Ok? && sysupgrade.Ok? && Converted(image.value, junk) != Ok(sysupgrade.value + Fill(pad, 0xff))
  }

  /** Behind the kernel of such a device the flash is blank. */
  lemma GapIsBlank(board: Board, parts: seq<Part>, size: nat, base: nat)
    requires Measured(board, parts, size, base) && 0x1000 + size < base && 0 < size
    ensures FlashByte(Upgraded(board), parts, 0x1000 + size, 0xff) == 0xff
  {
    hide PartNamed, Range, Upgraded, OsImage, FileSystem;
    var run := Upgraded(board);
    assert run == [run[0], run[1]] && run[1..] == [run[1]];
    NothingBefore(run[1..], parts, 0x1000 + size, 0xff);
  }

  /** The two routes differ exactly if there is a gap, or the kernel's partition has more than 2^31 bytes to pad. */
  lemma SpreadDiffers(size: uint32, base: uint32, junk: Junk)
    requires size > 0 && Spread(size, base)
    ensures RoutesDiffer(SpreadBoard(size, base), SpreadParts(size, base), junk, 0xfff)
            <==> 0x1000 + size < base || size > 0x8000_0001
  {
    hide Converted, SysupgradeImage, Convertible, PartNamed, Range, OsImage, FileSystem, FactoryImage, PackedInto,
      EntriesLead, Upgraded, FlashByte, SpreadBoard, SpreadParts;
    var board, parts := SpreadBoard(size, base), SpreadParts(size, base);
    SpreadIsPacked(size, base);
    SpreadIsConvertible(size, base);
    SpreadIsMeasured(size, base);
    if 0x1000 + size < base {
      GapIsBlank(board, parts, size, base);
    }
    RoutesAgree(board, parts, FactoryImage(board, parts).value, junk);
  }

  /** With 0x1000 bytes between the partitions the converted file has zeros where the sysupgrade image has 0xff. */
  lemma GapsDiffer(junk: Junk)
    ensures RoutesDiffer(SpreadBoard(0x1000, 0x3000), SpreadParts(0x1000, 0x3000), junk, 0xfff)
  {
    hide RoutesDiffer, SpreadBoard, SpreadParts;
    SpreadDiffers(0x1000, 0x3000, junk);
  }

  /** With 2^31 + 1 bytes to pad behind the kernel the last of them is missing. */
  lemma PaddingStops(junk: Junk)
    ensures RoutesDiffer(SpreadBoard(0x8000_0002, 0x8000_1002), SpreadParts(0x8000_0002, 0x8000_1002), junk, 0xfff)
  {
    hide RoutesDiffer, SpreadBoard, SpreadParts;
    SpreadDiffers(0x8000_0002, 0x8000_1002, junk);
  }

  // ---------------------------------------------------------------- names and answers

  /** One of the labels of the name "a..b" is empty. */
  lemma EmptyLabelInside()
    ensures [] in DnsName.Labels([0x61, 0x2e, 0x2e, 0x62])
  {
    hide DnsName.Labels, DnsName.Encoded;
    var one, two, three: seq<byte> := [0x61], [0x61, 0x2e], [0x61, 0x2e, 0x2e];
    var name: seq<byte> := [0x61, 0x2e, 0x2e, 0x62];
    assert two == one + [0x2e] && three == two + [0x2e] && name == three + [0x62];
    DnsName.LabelsStep(one, 0x2e);
    DnsName.LabelsStep(two, 0x2e);
    DnsName.LabelsStep(three, 0x62);
    var ls, empty := DnsName.Labels(name), DnsName.Labels(two)[|DnsName.Labels(two)| - 1];
    assert ls[..|ls| - 1] == DnsName.Labels(two);
    assert empty in ls;
  }

  /** The name is not decoded, and the receiver takes the empty label for the end of the question. */
  lemma EmptyLabel(rest: seq<byte>)
    ensures var name: seq<byte> := [0x61, 0x2e, 0x2e, 0x62];
            && DnsName.Decode(DnsName.Question(name), 0)
               != Some((DnsName.Labels(name), |DnsName.Question(name)| - 4))
            && DnsAnswers.SkipQuestion(DnsName.Question(name) + rest) != Some(|DnsName.Question(name)|)
  {
    hide DnsName.Decode, DnsName.Question, DnsName.Labels, DnsName.Joined, DnsAnswers.SkipQuestion;
    var name: seq<byte> := [0x61, 0x2e, 0x2e, 0x62];
    EmptyLabelInside();
    NotALabel();
    DnsName.NameRoundTrip(name);
    DnsAnswers.QuestionSkipped(name, rest);
  }

  lemma NotALabel()
    ensures !DnsName.GoodLabel([]) && !DnsAnswers.Visible([])
  {}

  /** An owner of one label of two letters: the loop stops at the first of them. */
  lemma LettersAreNotSkipped(d: seq<byte>)
    requires |d| >= 4 && d[..4] == [2, 0x61, 0x62, 0]
    ensures DnsAnswers.SkipOwner(d, 0) == Some(3)
  {
    assert d[0] == d[..4][0] == 2 && d[1] == d[..4][1] == 0x61;
  }

  /** Nine address records, of the root, do not fit: the ninth is written behind the eight slots. */
  lemma NineRecords()
    ensures DnsAnswers.Answers(DnsAnswers.AllSerialized(NineAnswers()), 0, 9, [])
         == DnsAnswers.Stopped(DnsAnswers.Outside)
  {
    hide DnsAnswers.Answers, DnsAnswers.AllSerialized, DnsAnswers.Addresses, DnsAnswers.Skippable;
    RootIsSkippable();
    NineAddresses(NineAnswers());
    DnsAnswers.AnswersRead(DnsAnswers.AllSerialized(NineAnswers()), 0, NineAnswers(), []);
  }

  function RootAddress(): DnsAnswers.Answer
  {
    DnsAnswers.Answer(DnsAnswers.Owner([], DnsAnswers.Root), 1, 1, 0, [127, 0, 0, 1])
  }

  function NineAnswers(): (answers: seq<DnsAnswers.Answer>)
    ensures |answers| == 9
    ensures forall a :: a in answers ==> a == RootAddress()
  {
    seq(9, _ => RootAddress())
  }

  lemma RootIsSkippable()
    ensures DnsAnswers.Skippable(DnsAnswers.Owner([], DnsAnswers.Root))
  {
    DnsName.EncodedNone();
  }

  lemma {:induction false} NineAddresses(answers: seq<DnsAnswers.Answer>)
    requires forall a :: a in answers ==> a == RootAddress()
    ensures |DnsAnswers.Addresses(answers)| == |answers|
  {
    if answers == [] {
    } else {
      assert answers[0] in answers && forall a :: a in answers[1..] ==> a in answers;
      NineAddresses(answers[1..]);
    }
  }

  // ---------------------------------------------------------------- copying

  /** Without a timer the first poll completes the copy of a non-empty stream with nothing copied. */
  method CopyWithoutTimer() returns (r: CopyWithDeadline.Outcome, sink: seq<byte>)
    ensures r == CopyWithDeadline.Complete(0) && sink == []
  {
    var unread: seq<byte>;
    ghost var expired;
    r, sink, unread, expired := CopyWithDeadline.Run([1, 2, 3], 10, false, 0, [CopyWithDeadline.Wakeup(1, [])]);
  }
}
