/** How packing, extracting and converting end, and why, for inputs that do not get through as well. */
module Outcomes {
  import opened Bytes
  import opened Results
  import opened PartitionTable
  import opened TableReader
  import opened Factory
  import opened Sysupgrade
  import opened Files
  import opened Convert
  import opened Firmware
  import opened Routes
  import opened Formats
  import Rfc = Md5Rfc

  // ---------------------------------------------------------------- packing

  ghost predicate NoPartition(flash: seq<FlashEntry>, p: Part) { forall e :: e in flash ==> e.name != p.name }

  /** The first partition of the part's name is too small. */
  ghost predicate TooSmall(flash: seq<FlashEntry>, p: Part)
  {
    exists j :: 0 <= j < |flash| && flash[j].name == p.name && |p.data| > flash[j].size
             && forall k :: 0 <= k < j ==> flash[k].name != p.name
  }

  /** Packing stops at part `m`: it has no partition, or too small a one, or the table is full with its line. */
  ghost predicate Stops(flash: seq<FlashEntry>, parts: seq<Part>, m: nat)
    requires m < |parts|
  {
    NoPartition(flash, parts[m]) || TooSmall(flash, parts[m]) || |ImageTable(parts[..m + 1])| >= 2048
  }

  ghost function StopOf(flash: seq<FlashEntry>, p: Part): Failure
  {
    if NoPartition(flash, p) then FlashEntryMissing
    else if TooSmall(flash, p) then PartitionTooBig
    else TableOverflow
  }

  lemma {:induction false} LookupDecides(flash: seq<FlashEntry>, p: Part)
    ensures Lookup(flash, p.name) == None <==> NoPartition(flash, p)
    ensures Lookup(flash, p.name) != None ==> (TooSmall(flash, p) <==> |p.data| > Lookup(flash, p.name).value.size)
  {
    if flash == [] {
    } else if flash[0].name == p.name {
      assert flash[0] in flash;
      if TooSmall(flash, p) {
        var j :| 0 <= j < |flash| && flash[j].name == p.name && |p.data| > flash[j].size
              && forall k :: 0 <= k < j ==> flash[k].name != p.name;
        assert j == 0;
      }
    } else {
      LookupDecides(flash[1..], p);
      NotFirst(flash, p);
    }
  }

  lemma NotFirst(flash: seq<FlashEntry>, p: Part)
    requires flash != [] && flash[0].name != p.name
    ensures NoPartition(flash, p) <==> NoPartition(flash[1..], p)
    ensures TooSmall(flash, p) <==> TooSmall(flash[1..], p)
  {
    var rest := flash[1..];
    assert forall e :: e in flash ==> e == flash[0] || e in rest;
    hide TooSmall;
    SmallBehind(flash, p);
  }

  lemma SmallBehind(flash: seq<FlashEntry>, p: Part)
    requires flash != [] && flash[0].name != p.name
    ensures TooSmall(flash, p) <==> TooSmall(flash[1..], p)
  {
    var rest := flash[1..];
    if TooSmall(flash, p) {
      var j :| 0 <= j < |flash| && flash[j].name == p.name && |p.data| > flash[j].size
            && forall k :: 0 <= k < j ==> flash[k].name != p.name;
      assert rest[j - 1] == flash[j] && forall k :: 0 <= k < j - 1 ==> rest[k] == flash[k + 1];
    }
    if TooSmall(rest, p) {
      var j :| 0 <= j < |rest| && rest[j].name == p.name && |p.data| > rest[j].size
            && forall k :: 0 <= k < j ==> rest[k].name != p.name;
      assert flash[j + 1] == rest[j] && forall k :: 0 < k < j + 1 ==> flash[k] == rest[k - 1];
    }
  }

  /** Part `m` is the first one from `i` on that stops the packing. */
  ghost predicate StopsFirst(flash: seq<FlashEntry>, parts: seq<Part>, i: nat, m: nat)
  {
    i <= m < |parts| && Stops(flash, parts, m) && forall n :: i <= n < m ==> !Stops(flash, parts, n)
  }

  /** The check from part `i` on, with the front packed. */
  ghost predicate CheckedFrom(flash: seq<FlashEntry>, parts: seq<Part>, i: nat)
    requires i <= |parts| && |ImageTable(parts[..i])| < 2048
  {
    var r := Check(flash, parts[i..], 0x800 + |AllData(parts[..i])|, 0x800 - |ImageTable(parts[..i])|);
    && (r == None <==> forall m :: i <= m < |parts| ==> !Stops(flash, parts, m))
    && forall m: nat :: StopsFirst(flash, parts, i, m) ==> r == Some(StopOf(flash, parts[m]))
  }

  lemma {:induction false} CheckFrom(flash: seq<FlashEntry>, parts: seq<Part>, i: nat)
    requires i <= |parts| && |ImageTable(parts[..i])| < 2048
    ensures CheckedFrom(flash, parts, i)
    decreases |parts| - i
  {
    hide Line, Lookup, Entries, TableText, AllData, NoPartition, TooSmall;
    if i < |parts| {
      var p := parts[i];
      assert parts[i..][0] == p && parts[i..][1..] == parts[i + 1..];
      assert parts[..i + 1] == parts[..i] + [p];
      LookupDecides(flash, p);
      EntriesSnoc(parts[..i], p, 0x800);
      AllDataSnoc(parts[..i], p);
      TextSnoc(Fwup, Entries(parts[..i], 0x800), EntryOf(p, 0x800 + |AllData(parts[..i])|));
      if !Stops(flash, parts, i) {
        CheckFrom(flash, parts, i + 1);
      }
    }
  }

  /** Packing succeeds exactly if no part stops it, and the first part that does decides the failure. */
  lemma PackingOutcome(flash: seq<FlashEntry>, parts: seq<Part>)
    ensures Check(flash, parts, 0x800, 0x800) == None <==> forall m :: 0 <= m < |parts| ==> !Stops(flash, parts, m)
    ensures forall m: nat :: StopsFirst(flash, parts, 0, m) ==>
              Check(flash, parts, 0x800, 0x800) == Some(StopOf(flash, parts[m]))
  {
    hide Check, StopOf, Stops, StopsFirst;
    assert parts[..0] == [] && parts[0..] == parts && ImageTable([]) == [] && AllData([]) == [];
    CheckFrom(flash, parts, 0);
  }

  /** The vendor text ends behind the image. */
  ghost predicate VendorTooLong(board: Board, parts: seq<Part>)
  {
    board.vendor != None && 0x18 + |board.vendor.value| > 0x1814 + |AllData(parts)|
  }

  /**
   * There is a factory image exactly if the vendor text ends inside it, which is looked at first, and no part stops.
   */
  lemma FactoryOutcome(board: Board, parts: seq<Part>)
    ensures VendorTooLong(board, parts) ==> FactoryImage(board, parts) == Err(OutsideBuffer)
    ensures !VendorTooLong(board, parts) ==>
              && (FactoryImage(board, parts).Ok? <==> forall m :: 0 <= m < |parts| ==> !Stops(board.flash, parts, m))
              && forall m: nat :: StopsFirst(board.flash, parts, 0, m) ==>
                   FactoryImage(board, parts) == Err(StopOf(board.flash, parts[m]))
    ensures FactoryImage(board, parts).Ok? ==> |FactoryImage(board, parts).value| == 0x1814 + |AllData(parts)|
  {
    hide Check, StopOf, Stops, StopsFirst, Payload, BigEndian, Rfc.Digest, AllData;
    PackingOutcome(board.flash, parts);
  }

  // ---------------------------------------------------------------- extracting

  /** No table is read from an image that does not have "fwup-ptn" where its table is to be. */
  lemma NoTable(image: seq<byte>, table: TableBuffer, chunks: seq<Chunk>, open: Opener, junk: Junk)
    requires |chunks| == 16 && |image| >= 0x101c
    requires image[0x1014..0x101c] != [0x66, 0x77, 0x75, 0x70, 0x2d, 0x70, 0x74, 0x6e]
    ensures Extracted(image, table, chunks, open) == Extraction(Some(NoHeader), [])
    ensures Converted(image, junk) == Err(NoHeader)
  {
    hide ReadTable, Window, Filled;
    WindowHoldsFile(image, FIRMWARE_OFFSET, table, 8);
    WindowHoldsFile(image, FIRMWARE_OFFSET, junk.fwup, 8);
    TableHeader(Window(image, FIRMWARE_OFFSET, table), Filled([], 16));
    TableHeader(Window(image, FIRMWARE_OFFSET, junk.fwup), Filled([], MAX_PARTITIONS));
  }

  /** Names a table can carry. */
  ghost predicate Carried(parts: seq<Part>) { forall p :: p in parts ==> Plain(p.name) && 0 !in p.name }

  lemma EntriesCarried(parts: seq<Part>)
    requires Carried(parts)
    ensures forall i :: 0 <= i < |parts| ==>
              Plain(Entries(parts, 0x800)[i].name) && 0 !in Entries(parts, 0x800)[i].name
  {
    hide Plain, Entries;
    EntryNames(parts, 0x800);
    forall i | 0 <= i < |parts|
      ensures Plain(Entries(parts, 0x800)[i].name) && 0 !in Entries(parts, 0x800)[i].name
    {
      assert parts[i] in parts;
    }
  }

  /** The table of a packed image in an array of `n` slots. */
  lemma TableRead(board: Board, parts: seq<Part>, image: seq<byte>, junk: TableBuffer, n: nat)
    requires PackedInto(board, parts, image) && parts != [] && Carried(parts)
    ensures ReadTable(Window(image, FIRMWARE_OFFSET, junk), Fwup, Filled([], n))
         == if |parts| <= n then Ok(Filled(Entries(parts, 0x800), n)) else Err(TableFull)
  {
    hide PackedInto, Window, Holds, Plain, ReadTable, Filled, Entries;
    var es, w := Entries(parts, 0x800), Window(image, FIRMWARE_OFFSET, junk);
    WindowOfImage(board, parts, image, junk);
    EntriesCarried(parts);
    PlainIsReadable(es);
    ReadPrinted(w, Fwup, es, n);
    assert ClipAll(es) == es;
  }

  lemma PlainIsReadable(es: seq<FlashEntry>)
    requires forall i :: 0 <= i < |es| ==> Plain(es[i].name) && 0 !in es[i].name
    ensures Readable(es) && ClipAll(es) == es
  {}

  /** More than 16 parts are too many to extract, more than 32 too many to convert; nothing is written. */
  lemma TooManyParts(board: Board, parts: seq<Part>, image: seq<byte>, table: TableBuffer, chunks: seq<Chunk>,
                     open: Opener, junk: Junk)
    requires PackedInto(board, parts, image) && Carried(parts) && |chunks| == 16
    ensures |parts| > 16 ==> Extracted(image, table, chunks, open) == Extraction(Some(TableFull), [])
    ensures |parts| > 32 ==> Converted(image, junk) == Err(TableFull)
  {
    hide PackedInto, Window, ReadTable, Filled, Entries, Carried;
    if parts != [] {
      TableRead(board, parts, image, table, 16);
      TableRead(board, parts, image, junk.fwup, MAX_PARTITIONS);
    }
  }

  /** The files of the first `i` parts, where opening their names leads. */
  ghost predicate OpenedUpTo(parts: seq<Part>, open: Opener, i: nat, files: seq<OutFile>)
  {
    && i == |files| <= |parts|
    && (forall j :: 0 <= j < i ==> open(parts[j].name) == Some(files[j].target) && files[j].data == parts[j].data)
    && (i < |parts| ==> open(parts[i].name) == None)
  }

  /** The first name that cannot be opened ends an extraction, with the files in front of it written. */
  lemma FirstUnopened(board: Board, parts: seq<Part>, image: seq<byte>, table: TableBuffer, chunks: seq<Chunk>,
                      open: Opener, files: seq<OutFile>)
    requires PackedInto(board, parts, image) && Carried(parts) && 0 < |parts| <= 16 && |chunks| == 16
    requires EntriesLead(image, parts, 0x800) && OpenedUpTo(parts, open, |files|, files)
    ensures Extracted(image, table, chunks, open)
         == Extraction(if |files| == |parts| then None else Some(CannotOpen), files)
  {
    hide PackedInto, Window, ReadTable, Filled, Entries, Carried, EntriesLead, OpenedUpTo, SlotFiles;
    TableRead(board, parts, image, table, 16);
    FilesUpTo(image, parts, 0x800, 16, chunks, open, files);
  }

  lemma {:induction false} FilesUpTo(image: seq<byte>, parts: seq<Part>, base: nat, n: nat, junk: seq<Chunk>,
                                     open: Opener, files: seq<OutFile>)
    requires EntriesLead(image, parts, base) && |parts| <= n == |junk| && OpenedUpTo(parts, open, |files|, files)
    ensures SlotFiles(image, Filled(Entries(parts, base), n), junk, open)
         == Extraction(if |files| == |parts| then None else Some(CannotOpen), files)
    decreases |parts|
  {
    hide Region, AllData, EntryOf, Filled, EntriesLead;
    if parts == [] {
      FreeSlotsHaveNoFiles(image, n, junk, open);
      assert files == [];
    } else {
      FirstLeads(image, parts, base);
      var e, next := EntryOf(parts[0], base), base + |parts[0].data|;
      EntryName(parts[0], base);
      FilledFirst(e, Entries(parts[1..], next), n);
      if files != [] {
        hide SlotFiles;
        assert OpenedUpTo(parts[1..], open, |files[1..]|, files[1..]);
        FilesUpTo(image, parts[1..], next, n - 1, junk[1..], open, files[1..]);
        FirstFile(image, Filled(Entries(parts, base), n), junk, open, e, files[0].target);
        assert files == [files[0]] + files[1..];
      }
    }
  }

  // ---------------------------------------------------------------- converting

  lemma {:induction false} NotListed(parts: seq<Part>, base: nat, name: seq<byte>)
    ensures Lookup(Entries(parts, base), name) == None <==> PartNamed(parts, name) == None
    decreases |parts|
  {
    if parts == [] {
    } else {
      var next := base + |parts[0].data|;
      NotListed(parts[1..], next, name);
      assert Entries(parts, base)[1..] == Entries(parts[1..], next);
    }
  }

  /**
   * A table without a kernel, a file system or a layout is the end of a conversion: by a null name, or by a message.
   */
  lemma MissingPart(board: Board, parts: seq<Part>, image: seq<byte>, junk: Junk)
    requires PackedInto(board, parts, image) && Carried(parts) && 0 < |parts| <= 32
    requires PartNamed(parts, OsImage()) == None || PartNamed(parts, FileSystem()) == None
          || PartNamed(parts, LayoutName()) == None
    ensures Converted(image, junk) == Err(if |parts| < 32 then NullName else NotFound)
  {
    hide PackedInto, Window, ReadTable, Filled, Entries, Carried, PartNamed, Lookup, Find, OsImage, FileSystem,
      LayoutName;
    TableRead(board, parts, image, junk.fwup, MAX_PARTITIONS);
    var es := Entries(parts, 0x800);
    NotListed(parts, 0x800, OsImage());
    NotListed(parts, 0x800, FileSystem());
    NotListed(parts, 0x800, LayoutName());
    FindInFilled(es, MAX_PARTITIONS, OsImage());
    FindInFilled(es, MAX_PARTITIONS, FileSystem());
    FindInFilled(es, MAX_PARTITIONS, LayoutName());
  }

  /** The parts that are looked up, with a layout of `flash`. */
  ghost predicate Complete(parts: seq<Part>, flash: seq<FlashEntry>)
  {
    && Carried(parts) && 0 < |parts| <= 32 && PartNamed(parts, OsImage()) != None
        && PartNamed(parts, FileSystem()) != None
    && |TableText(Flash, flash)| < 2044
    && PartNamed(parts, LayoutName()) == Some(Part(LayoutName(), LayoutData(flash)))
  }

  /**
   * A layout without a kernel or a file system ends a conversion in the same way; an empty one, and one of more than 32
   * entries, cannot be read.
   */
  lemma MissingPartition(board: Board, parts: seq<Part>, image: seq<byte>, junk: Junk, flash: seq<FlashEntry>)
    requires PackedInto(board, parts, image) && EntriesLead(image, parts, 0x800) && Complete(parts, flash)
    requires forall e :: e in flash ==> Plain(e.name) && 0 !in e.name
    ensures flash == [] ==> Converted(image, junk) == Err(NoHeader)
    ensures |flash| > 32 ==> Converted(image, junk) == Err(TableFull)
    ensures 0 < |flash| <= 32 && (Lookup(flash, OsImage()) == None || Lookup(flash, FileSystem()) == None) ==>
              Converted(image, junk) == Err(if |flash| < 32 then NullName else NotFound)
  {
    hide PackedInto, Window, ReadTable, Filled, Entries, PartNamed, Find, FindFlash, OsImage, FileSystem, Region,
      LayoutName, EntriesLead, TableText, LayoutData, Holds, FindFwup, Plain, Converted, Carried;
    TableRead(board, parts, image, junk.fwup, MAX_PARTITIONS);
    FwupTableFound(image, parts);
    var fwup := FindFwup(Filled(Entries(parts, 0x800), MAX_PARTITIONS)).value;
    LayoutReadBack(image, fwup.table, flash, junk.flash);
    LayoutRead(Window(image, FIRMWARE_OFFSET + fwup.table.base + 4, junk.flash), flash);
    SecondTable(image, junk, Filled(Entries(parts, 0x800), MAX_PARTITIONS), fwup);
    if |flash| <= 32 && (Lookup(flash, OsImage()) == None || Lookup(flash, FileSystem()) == None) {
      NotInFlash(flash);
    }
  }

  lemma NotInFlash(flash: seq<FlashEntry>)
    requires |flash| <= 32 && (Lookup(flash, OsImage()) == None || Lookup(flash, FileSystem()) == None)
    ensures FindFlash(Filled(flash, 32)) == Err(if |flash| < 32 then NullName else NotFound)
  {
    hide Find, Filled, Lookup, OsImage, FileSystem;
    FindInFilled(flash, 32, OsImage());
    FindInFilled(flash, 32, FileSystem());
  }

  /** What is wrong with the second table ends a conversion. */
  lemma SecondTable(image: seq<byte>, junk: Junk, slots: seq<Slot>, fwup: FwupEntries)
    requires ReadTable(Window(image, FIRMWARE_OFFSET, junk.fwup), Fwup, Filled([], 32)) == Ok(slots)
    requires FindFwup(slots) == Ok(fwup)
    ensures var r := ReadTable(Window(image, FIRMWARE_OFFSET + fwup.table.base + 4, junk.flash), Flash, Filled([], 32));
            && (r.Err? ==> Converted(image, junk) == Err(r.error))
            && (r.Ok? && FindFlash(r.value).Err? ==> Converted(image, junk) == Err(FindFlash(r.value).error))
  {
    hide ReadTable, Window, Filled, FindFwup, FindFlash, RegionCopied, Assembled;
  }

  lemma LayoutRead(w: seq<byte>, flash: seq<FlashEntry>)
    requires Holds(w, Flash, flash) && forall e :: e in flash ==> Plain(e.name) && 0 !in e.name
    ensures ReadTable(w, Flash, Filled([], 32))
         == if flash == [] then Err(NoHeader) else if |flash| <= 32 then Ok(Filled(flash, 32)) else Err(TableFull)
  {
    hide ReadTable, Filled, Holds, Plain;
    if flash == [] {
      NothingPrinted(w, Flash, Filled([], 32));
    } else {
      PlainIsReadable(flash);
      ReadPrinted(w, Flash, flash, 32);
    }
  }

  /** Where the file ends, a copy repeats what the buffer held 4096 bytes before, and at first whatever it held. */
  lemma {:induction false} Leftovers(file: seq<byte>, pos: nat, size: nat, buf: Chunk, k: nat)
    requires k < size && pos + k >= |file|
    ensures Copied(file, pos, size, buf)[k] == if k < 4096 then buf[k] else Copied(file, pos, size, buf)[k - 4096]
    decreases size
  {
    hide Refilled, Available;
    if size < 4096 {
      RefilledBytes(file, pos, size, buf);
    } else {
      RefilledBytes(file, pos, 4096, buf);
      if k >= 4096 {
        Leftovers(file, pos + |Available(file, pos, 4096)|, size - 4096, Refilled(file, pos, 4096, buf), k - 4096);
      }
    }
  }

  lemma RefilledBytes(file: seq<byte>, pos: nat, n: nat, buf: Chunk)
    requires n <= 4096
    ensures forall k :: 0 <= k < 4096 && pos + k >= |file| ==> Refilled(file, pos, n, buf)[k] == buf[k]
    ensures |Available(file, pos, n)| < n ==> pos + |Available(file, pos, n)| >= |file|
  {}

  /** How many bytes pad `used` bytes to `size`: the difference is one of 32-bit numbers, and write_ff stops at 2^31. */
  function Pad(size: uint32, used: uint32): nat
  {
    var n := if used <= size then size - used else size + 0x1_0000_0000 - used;
    if n <= 0x8000_0000 then n else 0x8000_0000
  }

  /** The distance of two bases, one of 32-bit numbers. */
  function Distance(from: uint32, to: uint32): nat { if from <= to then to - from else to + 0x1_0000_0000 - from }

  /**
   * The converted file for any entries, fitting or not: the padded file system at the distance of the bases, over the
   * padded kernel, with zeros in between.
   */
  lemma AnyAssembledBytes(os: seq<byte>, fs: seq<byte>, e: FlashEntry, e': FlashEntry)
    requires |os| < 0x1_0000_0000 && |fs| < 0x1_0000_0000
    ensures var c, end, at := Assembled(os, fs, e, e'), |os| + Pad(e.size, |os|), Distance(e.base, e'.base);
            var n := |fs| + Pad(e'.size, |fs|);
            && |c| == (if n == 0 || at + n < end then end else at + n)
            && forall k :: 0 <= k < |c| ==>
                 c[k] == if at <= k < at + n then (if k - at < |fs| then fs[k - at] else 0xff)
                         else if k < |os| then os[k] else if k < end then 0xff else 0
  {
    hide Store;
    PadIs(e.size, |os|);
    PadIs(e'.size, |fs|);
    DistanceIs(e.base, e'.base);
  }

  lemma PadIs(size: uint32, used: uint32)
    ensures FfCount((size - used) % 0x1_0000_0000) == Pad(size, used)
  {}

  lemma DistanceIs(from: uint32, to: uint32)
    ensures (to - from) % 0x1_0000_0000 == Distance(from, to)
  {}
}
