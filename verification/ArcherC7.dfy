/**
 * A device of the tool's list for which both routes can be taken: the ARCHER-C7-V4, with its whole layout and all its
 * parts.
 */
module ArcherC7 {
  import opened Bytes
  import opened Results
  import opened Text
  import opened PartitionTable
  import opened TableReader
  import opened Factory
  import opened Sysupgrade
  import opened Convert
  import opened Firmware
  import opened Routes

  // ---------------------------------------------------------------- tables of short names fit

  /** A line is at most 49 bytes longer than the name on it. */
  lemma LineIsShort(kind: Kind, e: FlashEntry)
    ensures |Line(kind, e)| <= |e.name| + 49
  {
    hide Hex;
    LineIs(kind, e);
    HexLength(e.base);
    HexLength(e.size);
    assert |Header(kind)| <= 9 && |Trailer(kind)| <= 2 && |Ascii("base")| == 4 && |Ascii("size")| == 4;
  }

  lemma {:induction false} TextIsShort(kind: Kind, es: seq<FlashEntry>, width: nat)
    requires forall e :: e in es ==> |e.name| <= width
    ensures |TableText(kind, es)| <= (width + 49) * |es|
  {
    hide Line;
    if es == [] {
    } else {
      assert es[0] in es && forall e :: e in es[1..] ==> e in es;
      LineIsShort(kind, es[0]);
      OneLess(width + 49, |es|);
      TextIsShort(kind, es[1..], width);
    }
  }

  /** Parts that have a partition, fit it, and have names short enough for the table, are packed. */
  lemma {:induction false} PartsAccepted(flash: seq<FlashEntry>, parts: seq<Part>, base: nat, room: nat, width: nat)
    requires forall p :: p in parts ==>
               |p.name| <= width && Lookup(flash, p.name).Some? && |p.data| <= Lookup(flash, p.name).value.size
    requires (width + 49) * |parts| < room
    ensures Check(flash, parts, base, room) == None
    decreases |parts|
  {
    hide Line, Lookup, EntryOf;
    if parts == [] {
    } else {
      var p, line := parts[0], Line(Fwup, EntryOf(parts[0], base));
      assert p in parts && forall q :: q in parts[1..] ==> q in parts;
      EntryName(p, base);
      LineIsShort(Fwup, EntryOf(p, base));
      RoomLeft(width + 49, |parts|, room, |line|);
      PartsAccepted(flash, parts[1..], base + |p.data|, room - |line|, width);
    }
  }

  lemma RoomLeft(w: nat, n: nat, room: nat, used: nat)
    requires n > 0 && w * n < room && used <= w
    ensures used < room && w * (n - 1) < room - used
  {
    OneLess(w, n);
    assert w * (n - 1) >= 0;
  }

  lemma OneLess(w: nat, n: nat)
    requires n > 0
    ensures w * n == w * (n - 1) + w
  {}

  // ---------------------------------------------------------------- the layout

  function FactoryBoot(): seq<byte> { Ascii("factory-boot") }
  function FsUboot(): seq<byte> { Ascii("fs-uboot") }
  function DefaultMac(): seq<byte> { Ascii("default-mac") }
  function Pin(): seq<byte> { Ascii("pin") }
  function DeviceId(): seq<byte> { Ascii("device-id") }
  function ProductInfo(): seq<byte> { Ascii("product-info") }
  function Sysconf(): seq<byte> { Ascii("sysconf") }
  function SupportList(): seq<byte> { Ascii("support-list") }
  function SoftVersion(): seq<byte> { Ascii("soft-version") }
  function ExtraPara(): seq<byte> { Ascii("extra-para") }
  function Identity(): seq<byte> { Ascii("identity") }
  function Radio(): seq<byte> { Ascii("radio") }

  function FlashLayout(): (flash: seq<FlashEntry>)
    ensures |flash| == 15
  {
    [ FlashEntry(FactoryBoot(), 0x00000, 0x20000),
      FlashEntry(FsUboot(), 0x20000, 0x20000),
      FlashEntry(OsImage(), 0x40000, 0xa00000),
      FlashEntry(FileSystem(), 0xa40000, 0x4c0000),
      FlashEntry(DefaultMac(), 0xf00000, 0x00200),
      FlashEntry(Pin(), 0xf00200, 0x00200),
      FlashEntry(DeviceId(), 0xf00400, 0x00100),
      FlashEntry(ProductInfo(), 0xf00500, 0x0fb00),
      FlashEntry(Sysconf(), 0xf10000, 0xb0000),
      FlashEntry(LayoutName(), 0xfc0000, 0x10000),
      FlashEntry(SupportList(), 0xfd0000, 0x0a000),
      FlashEntry(SoftVersion(), 0xfda000, 0x00100),
      FlashEntry(ExtraPara(), 0xfda100, 0x01000),
      FlashEntry(Identity(), 0xfdb100, 0x01000),
      FlashEntry(Radio(), 0xff0000, 0x10000) ]
  }

  function Device(): Board { Board(None, FlashLayout(), OsImage(), FileSystem()) }

  /** Length and first two characters tell the names apart. */
  function Key(name: seq<byte>): nat
  {
    if |name| < 2 then 0 else |name| * 0x10000 + name[0] as nat * 0x100 + name[1] as nat
  }

  const KEYS: seq<nat> := [0xc6661, 0x86673, 0x86f73, 0xb6669, 0xb6465, 0x37069, 0x96465, 0xc7072, 0x77379, 0xf7061,
                           0xc7375, 0xc736f, 0xa6578, 0x86964, 0x57261]

  predicate Proper(name: seq<byte>) { |name| <= 15 && Plain(name) && 0 !in name && Component(name) }

  ghost predicate IsName(name: seq<byte>, i: nat)
    requires i < 15
  {
    Key(name) == KEYS[i] && Proper(name)
  }

  lemma Names1()
    ensures IsName(FactoryBoot(), 0)
    ensures IsName(FsUboot(), 1)
    ensures IsName(OsImage(), 2)
  {}

  lemma Names2()
    ensures IsName(FileSystem(), 3)
    ensures IsName(DefaultMac(), 4)
    ensures IsName(Pin(), 5)
  {}

  lemma Names3()
    ensures IsName(DeviceId(), 6)
    ensures IsName(ProductInfo(), 7)
    ensures IsName(Sysconf(), 8)
  {}

  lemma Names4()
    ensures IsName(LayoutName(), 9)
    ensures IsName(SupportList(), 10)
    ensures IsName(SoftVersion(), 11)
  {}

  lemma Names5()
    ensures IsName(ExtraPara(), 12)
    ensures IsName(Identity(), 13)
    ensures IsName(Radio(), 14)
  {}

  ghost predicate Keyed(flash: seq<FlashEntry>)
  {
    |flash| == 15 && forall i :: 0 <= i < 15 ==> Key(flash[i].name) == KEYS[i] && Proper(flash[i].name)
  }

  lemma LayoutNames()
    ensures Keyed(FlashLayout())
  {
    hide Key, Proper, FactoryBoot, FsUboot, OsImage, FileSystem, DefaultMac, Pin, DeviceId, ProductInfo, Sysconf,
      LayoutName, SupportList, SoftVersion, ExtraPara, Identity, Radio;
    Names1();
    Names2();
    Names3();
    Names4();
    Names5();
  }

  lemma KeysDiffer()
    ensures forall i, j :: 0 <= i < j < 15 ==> KEYS[i] != KEYS[j]
  {}

  lemma LayoutDistinct()
    ensures Distinct(FlashLayout()) && |FlashLayout()| == 15
  {
    hide Key, FactoryBoot, FsUboot, OsImage, FileSystem, DefaultMac, Pin, DeviceId, ProductInfo, Sysconf, LayoutName,
      SupportList, SoftVersion, ExtraPara, Identity, Radio;
    LayoutNames();
    KeysDiffer();
  }

  // ---------------------------------------------------------------- the parts

  /**
   * What the tool packs besides the layout; a kernel image, a file system, and small partitions of whatever contents.
   */
  datatype Contents =
    Contents(soft: seq<byte>, support: seq<byte>, os: seq<byte>, extra: seq<byte>, identity: seq<byte>,
             sysconf: seq<byte>, fs: seq<byte>)

  /** Everything fits its partition. */
  predicate Fit(c: Contents)
  {
    && |c.soft| <= 0x100 && |c.support| <= 0xa000 && |c.os| <= 0xa00000 && |c.extra| <= 0x1000
    && |c.identity| <= 0x1000 && |c.sysconf| <= 0xb0000 && |c.fs| <= 0x4c0000
  }

  lemma LayoutFits()
    ensures |TableText(Flash, FlashLayout())| < 2044
  {
    hide TableText, FlashLayout;
    LayoutNames();
    LayoutDistinct();
    forall e | e in FlashLayout()
      ensures |e.name| <= 15
    {
      var i :| 0 <= i < |FlashLayout()| && FlashLayout()[i] == e;
      assert Proper(FlashLayout()[i].name);
    }
    TextIsShort(Flash, FlashLayout(), 15);
  }

  function ImageParts(c: Contents): (parts: seq<Part>)
    ensures |parts| == 8
  {
    LayoutFits();
    [ Part(LayoutName(), LayoutData(FlashLayout())),
      Part(SoftVersion(), c.soft),
      Part(SupportList(), c.support),
      Part(OsImage(), c.os),
      Part(ExtraPara(), c.extra),
      Part(Identity(), c.identity),
      Part(Sysconf(), c.sysconf),
      Part(FileSystem(), c.fs) ]
  }

  /** Where the partition of each part is in the layout. */
  const PLACES: seq<nat> := [9, 11, 10, 2, 12, 13, 8, 3]

  lemma PlacesDiffer()
    ensures |PLACES| == 8 && forall i, j :: 0 <= i < j < 8 ==> PLACES[i] != PLACES[j]
    ensures forall i :: 0 <= i < 8 ==> PLACES[i] < 15
  {}

  /** Each part has its partition, and fits. */
  ghost predicate Placed(parts: seq<Part>, flash: seq<FlashEntry>)
  {
    && |parts| == 8 && |flash| == 15
    && forall i :: 0 <= i < 8 ==> parts[i].name == flash[PLACES[i]].name && |parts[i].data| <= flash[PLACES[i]].size
  }

  lemma PartsPlaced(c: Contents)
    requires Fit(c)
    ensures Placed(ImageParts(c), FlashLayout())
  {
    hide LayoutData, TableText, FactoryBoot, FsUboot, OsImage, FileSystem, DefaultMac, Pin, DeviceId, ProductInfo,
      Sysconf, LayoutName, SupportList, SoftVersion, ExtraPara, Identity, Radio;
  }

  ghost predicate Differ(parts: seq<Part>)
  {
    && (forall i, j :: 0 <= i < j < |parts| ==> parts[i].name != parts[j].name)
    && forall p :: p in parts ==> Proper(p.name)
  }

  lemma PartsDiffer(c: Contents)
    requires Fit(c)
    ensures Differ(ImageParts(c))
  {
    hide FlashLayout, ImageParts, Proper, Key;
    PartsPlaced(c);
    LayoutDistinct();
    LayoutNames();
    PlacesDiffer();
    forall i, j | 0 <= i < j < 8
      ensures ImageParts(c)[i].name != ImageParts(c)[j].name
    {
      assert PLACES[i] != PLACES[j];
    }
  }

  ghost predicate Passes(flash: seq<FlashEntry>, parts: seq<Part>) { Check(flash, parts, 0x800, 0x800) == None }

  lemma Accepted(c: Contents)
    requires Fit(c)
    ensures Passes(FlashLayout(), ImageParts(c))
  {
    hide FlashLayout, ImageParts, Lookup, Check, Key;
    PartsPlaced(c);
    PartsDiffer(c);
    LayoutDistinct();
    PlacesDiffer();
    forall p | p in ImageParts(c)
      ensures |p.name| <= 15 && Lookup(FlashLayout(), p.name).Some?
          && |p.data| <= Lookup(FlashLayout(), p.name).value.size
    {
      var i :| 0 <= i < 8 && ImageParts(c)[i] == p;
      LookupFirst(FlashLayout(), PLACES[i]);
    }
    PartsAccepted(FlashLayout(), ImageParts(c), 0x800, 0x800, 15);
  }

  /** The parts and partitions conversion looks at. */
  ghost predicate Known(parts: seq<Part>, flash: seq<FlashEntry>, c: Contents)
  {
    && |parts| == 8 && |flash| == 15 && |TableText(Flash, flash)| < 2044
    && parts[0] == Part(LayoutName(), LayoutData(flash))
    && parts[3] == Part(OsImage(), c.os) && parts[7] == Part(FileSystem(), c.fs)
    && flash[2] == FlashEntry(OsImage(), 0x40000, 0xa00000) && flash[3] == FlashEntry(FileSystem(), 0xa40000, 0x4c0000)
  }

  lemma PartsOf(c: Contents)
    ensures Known(ImageParts(c), FlashLayout(), c)
  {
    hide LayoutData, TableText, FactoryBoot, FsUboot, OsImage, FileSystem, DefaultMac, Pin, DeviceId, ProductInfo,
      Sysconf, LayoutName, SupportList, SoftVersion, ExtraPara, Identity, Radio;
    LayoutFits();
  }

  ghost predicate Found(parts: seq<Part>)
  {
    && |parts| == 8 && PartNamed(parts, OsImage()) == Some(parts[3])
    && PartNamed(parts, FileSystem()) == Some(parts[7]) && PartNamed(parts, LayoutName()) == Some(parts[0])
  }

  lemma PartsFound(c: Contents)
    requires Fit(c)
    ensures Found(ImageParts(c))
  {
    hide FlashLayout, ImageParts, PartNamed, LayoutData, OsImage, FileSystem, LayoutName, TableText;
    PartsDiffer(c);
    PartsOf(c);
    PartNamedFirst(ImageParts(c), 3);
    PartNamedFirst(ImageParts(c), 7);
    PartNamedFirst(ImageParts(c), 0);
  }

  ghost predicate Copies(board: Board, first: FlashEntry, last: FlashEntry)
  {
    Range(board).Some? && Upgraded(board) == [first, last]
  }

  lemma DeviceRange()
    ensures Copies(Device(), FlashEntry(OsImage(), 0x40000, 0xa00000), FlashEntry(FileSystem(), 0xa40000, 0x4c0000))
  {
    hide LastIndex, FlashLayout, OsImage, FileSystem, LayoutName, LayoutData, TableText, ImageParts;
    LayoutDistinct();
    PartsOf(Contents([], [], [], [], [], [], []));
    LastIndexDistinct(FlashLayout(), 2);
    LastIndexDistinct(FlashLayout(), 3);
    var flash := FlashLayout();
    assert flash[2..4] == [flash[2], flash[3]];
  }

  lemma DeviceIsConvertible(c: Contents)
    requires Fit(c)
    ensures Convertible(Device(), ImageParts(c))
  {
    hide TableText, OsImage, FileSystem, LayoutName, PartNamed, Range, LayoutData, FlashLayout, ImageParts, Plain,
      Upgraded;
    LayoutFits();
    LayoutNames();
    LayoutDistinct();
    PartsDiffer(c);
    PartsFound(c);
    PartsOf(c);
    DeviceRange();
    forall e | e in FlashLayout()
      ensures Plain(e.name) && 0 !in e.name
    {
      var i :| 0 <= i < |FlashLayout()| && FlashLayout()[i] == e;
      assert Proper(FlashLayout()[i].name);
    }
  }

  lemma {:induction false} DataLength(parts: seq<Part>, bound: nat)
    requires forall p :: p in parts ==> |p.data| <= bound
    ensures |AllData(parts)| <= bound * |parts|
  {
    if parts == [] {
    } else {
      assert parts[0] in parts && forall p :: p in parts[1..] ==> p in parts;
      OneLess(bound, |parts|);
      DataLength(parts[1..], bound);
    }
  }

  lemma ImageIsPacked(c: Contents)
    requires Fit(c)
    ensures FactoryImage(Device(), ImageParts(c)).Ok?
    ensures PackedInto(Device(), ImageParts(c), FactoryImage(Device(), ImageParts(c)).value)
    ensures EntriesLead(FactoryImage(Device(), ImageParts(c)).value, ImageParts(c), 0x800)
  {
    hide Check, FlashLayout, ImageParts, FactoryImage, PackedInto, StartsFit, EntriesLead, DataFrom;
    Accepted(c);
    FactoryImageIsPacked(Device(), ImageParts(c));
    SmallParts(c);
    DataLength(ImageParts(c), 0xa00000);
    SmallImagesFit(ImageParts(c), 0x800);
    ImageEndsWithData(Device(), ImageParts(c), FactoryImage(Device(), ImageParts(c)).value);
    FittingEntriesLead(FactoryImage(Device(), ImageParts(c)).value, ImageParts(c), 0x800);
  }

  ghost predicate Small(parts: seq<Part>) { forall p :: p in parts ==> |p.data| <= 0xa00000 }

  lemma SmallParts(c: Contents)
    requires Fit(c)
    ensures Small(ImageParts(c))
  {
    hide LayoutData, TableText, FactoryBoot, FsUboot, OsImage, FileSystem, DefaultMac, Pin, DeviceId, ProductInfo,
      Sysconf, LayoutName, SupportList, SoftVersion, ExtraPara, Identity, Radio;
  }

  /** Converting a factory image gives the padded sysupgrade image, and extracting it gives the parts. */
  ghost predicate Works(board: Board, parts: seq<Part>, pad: nat, junk: Junk, table: TableBuffer, chunks: seq<Chunk>,
                        open: Opener)
    requires |chunks| == 16
  {
    var image, sysupgrade := FactoryImage(board, parts), SysupgradeImage(board, parts);
    && image.Ok? && sysupgrade.Ok?
    && Converted(image.value, junk) == Ok(sysupgrade.value + Fill(pad, 0xff))
    && Extracted(image.value, table, chunks, open) == Extraction(None, FilesOf(parts))
  }

  /** For every contents that fit, the parts are accepted and both ways back work. */
  lemma ArcherC7Works(c: Contents, junk: Junk, table: TableBuffer, chunks: seq<Chunk>, open: Opener)
    requires Fit(c) && |chunks| == 16 && Writable(open)
    ensures Works(Device(), ImageParts(c), 0x4c0000 - |c.fs|, junk, table, chunks, open)
  {
    hide Converted, Extracted, SysupgradeImage, Convertible, PartNamed, Range, LayoutData, OsImage, FileSystem,
      LayoutName, TableText, FactoryImage, PackedInto, ImageParts, FlashLayout, StartsFit, EntriesLead, Writable,
          Upgraded, Plain,
      Component;
    var parts := ImageParts(c);
    ImageIsPacked(c);
    DeviceIsConvertible(c);
    PartsFound(c);
    PartsOf(c);
    DeviceRange();
    PartsDiffer(c);
    var image := FactoryImage(Device(), parts).value;
    RoutesAgree(Device(), parts, image, junk);
    PackThenExtract(Device(), parts, image, table, chunks, open);
  }
}
