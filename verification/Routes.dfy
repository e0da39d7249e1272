/**
 * Two routes to a sysupgrade image: generating it from the parts, and converting the factory image of the same parts.
 */
module Routes {
  import opened Bytes
  import opened Results
  import opened PartitionTable
  import opened TableReader
  import opened Factory
  import opened Sysupgrade
  import opened Files
  import opened Convert
  import opened Firmware

  // ---------------------------------------------------------------- searches in lists without repetition

  /** No two entries of the layout share a name. */
  ghost predicate Distinct(flash: seq<FlashEntry>)
  {
    forall i, j :: 0 <= i < j < |flash| ==> flash[i].name != flash[j].name
  }

  lemma {:induction false} LookupFirst(flash: seq<FlashEntry>, i: nat)
    requires i < |flash| && forall j :: 0 <= j < i ==> flash[j].name != flash[i].name
    ensures Lookup(flash, flash[i].name) == Some(flash[i])
  {
    if i == 0 {
    } else {
      LookupFirst(flash[1..], i - 1);
    }
  }

  lemma {:induction false} LastIndexDistinct(flash: seq<FlashEntry>, i: nat)
    requires Distinct(flash) && i < |flash|
    ensures LastIndex(flash, flash[i].name) == Some(i)
  {
    if i == |flash| - 1 {
    } else {
      LastIndexDistinct(flash[..|flash| - 1], i);
    }
  }

  lemma {:induction false} PartNamedFirst(parts: seq<Part>, i: nat)
    requires i < |parts| && forall j :: 0 <= j < i ==> parts[j].name != parts[i].name
    ensures PartNamed(parts, parts[i].name) == Some(parts[i])
  {
    if i == 0 {
    } else {
      PartNamedFirst(parts[1..], i - 1);
    }
  }

  // ---------------------------------------------------------------- reading both tables

  /** A search of the table finds the first part of a name, and its entry leads to its bytes. */
  lemma {:induction false} PartFound(image: seq<byte>, parts: seq<Part>, base: nat, name: seq<byte>)
    requires EntriesLead(image, parts, base) && PartNamed(parts, name).Some?
    ensures Lookup(Entries(parts, base), name).Some?
    ensures Region(image, Lookup(Entries(parts, base), name).value) == Some(PartNamed(parts, name).value.data)
    ensures Lookup(Entries(parts, base), name).value.size == |PartNamed(parts, name).value.data|
    decreases |parts|
  {
    hide EntriesLead, EntryOf;
    FirstLeads(image, parts, base);
    EntryName(parts[0], base);
    if parts[0].name == name {
    } else {
      var next := base + |parts[0].data|;
      PartFound(image, parts[1..], next, name);
      assert Entries(parts, base)[1..] == Entries(parts[1..], next);
    }
  }

  /** The flash layout is read back from inside the partition-table part. */
  lemma LayoutReadBack(image: seq<byte>, table: FlashEntry, flash: seq<FlashEntry>, junk: TableBuffer)
    requires |TableText(Flash, flash)| < 2044 && Region(image, table) == Some(LayoutData(flash))
    ensures Holds(Window(image, FIRMWARE_OFFSET + table.base + 4, junk), Flash, flash)
  {
    hide TableText, Window;
    var text, at := TableText(Flash, flash), FIRMWARE_OFFSET + table.base + 4;
    var n := |text| + 1;
    WindowHoldsFile(image, at, junk, n);
    SubSlice(image, at - 4, LayoutData(flash), 4, 4 + n);
    assert LayoutData(flash)[4..4 + n] == text + [0];
    var w := Window(image, at, junk);
    assert w[..n] == text + [0];
    assert w[..|text|] == w[..n][..|text|] == text;
    assert w[|text|] == w[..n][|text|] == 0;
  }

  /** Where the file system is in that run. */
  ghost predicate FileSystemAt(board: Board, m: nat)
    requires Range(board).Some?
  {
    0 < m < |Upgraded(board)| && Upgraded(board)[m].name == FileSystem()
  }

  /**
   * A device and a list of parts for which both routes can be taken: the run of upgraded partitions starts with the
   * kernel, contains the file system and does not overlap, the parts include both, the last of the run, and the
   * printed layout, and the tables can carry the names.
   */
  ghost predicate Convertible(board: Board, parts: seq<Part>)
  {
    && Distinct(board.flash) && |board.flash| <= 32 && |parts| <= 32
    && (forall e :: e in board.flash ==> Plain(e.name) && 0 !in e.name)
    && (forall p :: p in parts ==> Plain(p.name) && 0 !in p.name)
    && board.first == OsImage() && Range(board).Some? && Sorted(Upgraded(board))
    && PartNamed(parts, OsImage()).Some? && PartNamed(parts, FileSystem()).Some? && PartNamed(parts, board.last).Some?
    && |TableText(Flash, board.flash)| < 2044
    && PartNamed(parts, LayoutName()) == Some(Part(LayoutName(), LayoutData(board.flash)))
  }

  /** The three searches of the table of an image. */
  lemma FwupTableFound(image: seq<byte>, parts: seq<Part>)
    requires EntriesLead(image, parts, 0x800) && |parts| <= MAX_PARTITIONS
    requires PartNamed(parts, OsImage()).Some? && PartNamed(parts, FileSystem()).Some?
    requires PartNamed(parts, LayoutName()).Some?
    ensures var r := FindFwup(Filled(Entries(parts, 0x800), MAX_PARTITIONS));
            && r.Ok?
            && Region(image, r.value.os) == Some(PartNamed(parts, OsImage()).value.data)
            && Region(image, r.value.fs) == Some(PartNamed(parts, FileSystem()).value.data)
            && Region(image, r.value.table) == Some(PartNamed(parts, LayoutName()).value.data)
  {
    hide Filled, Entries, Lookup, PartNamed, Region, EntriesLead, Find, OsImage, FileSystem, LayoutName;
    var es := Entries(parts, 0x800);
    FindInFilled(es, MAX_PARTITIONS, OsImage());
    FindInFilled(es, MAX_PARTITIONS, FileSystem());
    FindInFilled(es, MAX_PARTITIONS, LayoutName());
    PartFound(image, parts, 0x800, OsImage());
    PartFound(image, parts, 0x800, FileSystem());
    PartFound(image, parts, 0x800, LayoutName());
  }

  /** The two searches of the flash layout. */
  lemma FlashTableFound(board: Board, m: nat)
    requires Distinct(board.flash) && |board.flash| <= MAX_PARTITIONS && Range(board).Some?
    requires board.first == OsImage() && FileSystemAt(board, m)
    ensures FindFlash(Filled(board.flash, MAX_PARTITIONS)) == Ok((Upgraded(board)[0], Upgraded(board)[m]))
  {
    hide Filled, Lookup, Find, OsImage, FileSystem, Range;
    FindInFilled(board.flash, MAX_PARTITIONS, OsImage());
    FindInFilled(board.flash, MAX_PARTITIONS, FileSystem());
    RangeEnds(board);
    LookupFirst(board.flash, Range(board).value.0);
    LookupFirst(board.flash, Range(board).value.0 + m);
  }

  /** Both tables of a convertible image are read, and every entry leads to the right bytes. */
  lemma BothTablesRead(board: Board, parts: seq<Part>, image: seq<byte>, junk: Junk, m: nat)
    requires PackedInto(board, parts, image) && EntriesLead(image, parts, 0x800) && Convertible(board, parts)
    requires FileSystemAt(board, m)
    ensures Converted(image, junk)
         == Ok(Assembled(PartNamed(parts, OsImage()).value.data, PartNamed(parts, FileSystem()).value.data,
                         Upgraded(board)[0], Upgraded(board)[m]))
  {
    hide PackedInto, Window, Holds, EntriesLead, Plain, ReadTable, Filled, Entries, Assembled, PartNamed, Range,
      Region, OsImage, FileSystem, LayoutName, FindFwup, FindFlash, TableText, LayoutData, Distinct, Copied, Sorted,
      Upgraded;
    ConvertibleNames(board, parts);
    var es, w := Entries(parts, 0x800), Window(image, FIRMWARE_OFFSET, junk.fwup);
    WindowOfImage(board, parts, image, junk.fwup);
    EntryNames(parts, 0x800);
    TableReadsBack(w, es, MAX_PARTITIONS);
    FwupTableFound(image, parts);
    var fwup := FindFwup(Filled(es, MAX_PARTITIONS)).value;
    LayoutReadBack(image, fwup.table, board.flash, junk.flash);
    var w' := Window(image, FIRMWARE_OFFSET + fwup.table.base + 4, junk.flash);
    TableRoundTrip(w', Flash, board.flash, MAX_PARTITIONS);
    FlashTableFound(board, m);
    RegionIsCopied(image, fwup.os, junk.os);
    RegionIsCopied(image, fwup.fs, junk.fs);
  }

  lemma ConvertibleNames(board: Board, parts: seq<Part>)
    requires Convertible(board, parts)
    ensures parts != [] && board.flash != []
  {}

  // ---------------------------------------------------------------- what the flash holds

  /** `n` bytes of the flash from `origin` on, with the parts in it. */
  function Slice(entries: seq<FlashEntry>, parts: seq<Part>, origin: nat, n: nat): (s: seq<byte>)
    ensures |s| == n
    ensures forall k :: 0 <= k < n ==> s[k] == FlashByte(entries, parts, origin + k, 0xff)
  {
    seq(n, k requires 0 <= k < n => FlashByte(entries, parts, origin + k, 0xff))
  }

  /** No part covers an address in front of all entries. */
  lemma {:induction false} NothingBefore(entries: seq<FlashEntry>, parts: seq<Part>, address: nat, blank: byte)
    requires forall e :: e in entries ==> address < e.base
    ensures FlashByte(entries, parts, address, blank) == blank
    decreases |entries|
  {
    hide PartNamed;
    if entries == [] {
    } else {
      assert entries[0] in entries;
      NothingBefore(entries[1..], parts, address, blank);
    }
  }

  /** From the base of entry `m` on, the entries in front of it do not matter. */
  lemma {:induction false} SkipTo(entries: seq<FlashEntry>, parts: seq<Part>, m: nat, address: nat, blank: byte)
    requires m < |entries| && Sorted(entries) && PartsFit(entries, parts) && entries[m].base <= address
    ensures FlashByte(entries, parts, address, blank) == FlashByte(entries[m..], parts, address, blank)
    decreases m
  {
    hide PartNamed;
    if m == 0 {
      assert entries[0..] == entries;
    } else {
      assert entries[0] in entries && entries[0].base + entries[0].size <= entries[m].base;
      SkipTo(entries[1..], parts, m - 1, address, blank);
      assert entries[1..][m - 1..] == entries[m..];
    }
  }

  /** In the partition of an entry of a sorted run, the flash holds its part, and 0xff behind the part. */
  lemma PartitionBytes(entries: seq<FlashEntry>, parts: seq<Part>, m: nat, address: nat)
    requires m < |entries| && Sorted(entries) && PartsFit(entries, parts)
    requires PartNamed(parts, entries[m].name).Some?
    requires entries[m].base <= address < entries[m].base + entries[m].size
    ensures var d := PartNamed(parts, entries[m].name).value.data;
            FlashByte(entries, parts, address, 0xff)
            == if address < entries[m].base + |d| then d[address - entries[m].base] else 0xff
  {
    hide PartNamed;
    SkipTo(entries, parts, m, address, 0xff);
    var rest := entries[m..];
    assert rest[0] == entries[m];
    forall e | e in rest[1..]
      ensures address < e.base
    {
      var i :| 0 <= i < |rest[1..]| && rest[1..][i] == e;
      assert e == entries[m + 1 + i];
    }
    if address < entries[m].base + |PartNamed(parts, entries[m].name).value.data| {
    } else {
      NothingBefore(rest[1..], parts, address, 0xff);
    }
  }

  // ---------------------------------------------------------------- the two routes

  /** The sizes of kernel and file system, of their partitions, and the distance of these. */
  ghost predicate Fitting(os: seq<byte>, fs: seq<byte>, e: FlashEntry, e': FlashEntry)
  {
    |os| <= e.size && |fs| <= e'.size && e.base + e.size <= e'.base
  }

  lemma StoreBehind(x: seq<byte>, at: nat, y: seq<byte>)
    requires |x| <= at
    ensures |Store(x, at, y)| == if y == [] then |x| else at + |y|
    ensures forall k :: 0 <= k < |Store(x, at, y)| ==>
              Store(x, at, y)[k] == if k < |x| then x[k] else if k < at then 0 else y[k - at]
  {
    hide Store;
  }

  lemma AssembledIs(os: seq<byte>, fs: seq<byte>, e: FlashEntry, e': FlashEntry)
    requires Fitting(os, fs, e, e')
    ensures Assembled(os, fs, e, e') == Store(os + Fill(FfCount(e.size - |os|), 0xff), e'.base - e.base,
                                              fs + Fill(FfCount(e'.size - |fs|), 0xff))
  {
    hide Store;
  }

  /**
   * The bytes of the converted file: the kernel padded, zeros up to the distance of the bases, the file system padded.
   */
  lemma AssembledBytes(os: seq<byte>, fs: seq<byte>, e: FlashEntry, e': FlashEntry)
    requires Fitting(os, fs, e, e')
    ensures var c := Assembled(os, fs, e, e');
            var end, at := |os| + FfCount(e.size - |os|), e'.base - e.base;
            && |c| == (if e'.size == 0 then end else at + |fs| + FfCount(e'.size - |fs|))
            && forall k :: 0 <= k < |c| ==>
                 c[k] == if k < |os| then os[k] else if k < end then 0xff
                         else if k < at then 0 else if k < at + |fs| then fs[k - at] else 0xff
  {
    hide Store, Assembled;
    AssembledIs(os, fs, e, e');
    StoreBehind(os + Fill(FfCount(e.size - |os|), 0xff), e'.base - e.base, fs + Fill(FfCount(e'.size - |fs|), 0xff));
  }

  /** Between the two partitions the flash is all zeros. */
  ghost predicate ZeroGap(run: seq<FlashEntry>, parts: seq<Part>, m: nat)
    requires m < |run|
  {
    forall address :: run[0].base + run[0].size <= address < run[m].base ==> FlashByte(run, parts, address, 0xff) == 0
  }

  /** The kernel and file system partition of a run, and what the flash holds there. */
  ghost predicate Run(run: seq<FlashEntry>, parts: seq<Part>, m: nat, os: seq<byte>, fs: seq<byte>)
  {
    && 0 < m < |run| && Sorted(run) && PartsFit(run, parts)
    && PartNamed(parts, run[0].name).Some? && PartNamed(parts, run[0].name).value.data == os
    && PartNamed(parts, run[m].name).Some? && PartNamed(parts, run[m].name).value.data == fs
  }

  lemma RunFits(run: seq<FlashEntry>, parts: seq<Part>, m: nat, os: seq<byte>, fs: seq<byte>)
    requires Run(run, parts, m, os, fs)
    ensures Fitting(os, fs, run[0], run[m])
  {
    hide PartNamed;
    assert run[0] in run && run[m] in run;
  }

  /** When the converted file is a slice of the flash from the kernel on. */
  ghost predicate SliceCondition(run: seq<FlashEntry>, parts: seq<Part>, m: nat, os: seq<byte>)
    requires m < |run|
  {
    run[m].size == 0 || (run[0].size - |os| <= 0x8000_0000 && ZeroGap(run, parts, m))
  }

  lemma SliceIfZero(run: seq<FlashEntry>, parts: seq<Part>, m: nat, os: seq<byte>, fs: seq<byte>)
    requires Run(run, parts, m, os, fs) && SliceCondition(run, parts, m, os)
    ensures var c := Assembled(os, fs, run[0], run[m]);
            c == Slice(run, parts, run[0].base, |c|)
  {
    hide PartNamed, FlashByte, Assembled, Sorted, PartsFit;
    RunFits(run, parts, m, os, fs);
    AssembledBytes(os, fs, run[0], run[m]);
    var c := Assembled(os, fs, run[0], run[m]);
    forall k | 0 <= k < |c|
      ensures c[k] == FlashByte(run, parts, run[0].base + k, 0xff)
    {
      var address := run[0].base + k;
      if k < run[0].size {
        PartitionBytes(run, parts, 0, address);
      } else if address >= run[m].base {
        PartitionBytes(run, parts, m, address);
      }
    }
  }

  lemma ZeroIfSlice(run: seq<FlashEntry>, parts: seq<Part>, m: nat, os: seq<byte>, fs: seq<byte>)
    requires Run(run, parts, m, os, fs)
    requires var c := Assembled(os, fs, run[0], run[m]);
             c == Slice(run, parts, run[0].base, |c|)
    ensures SliceCondition(run, parts, m, os)
  {
    hide PartNamed, FlashByte, Assembled, Sorted, PartsFit;
    RunFits(run, parts, m, os, fs);
    AssembledBytes(os, fs, run[0], run[m]);
    var e, c := run[0], Assembled(os, fs, run[0], run[m]);
    if run[m].size > 0 {
      if e.size - |os| > 0x8000_0000 {
        var k := |os| + 0x8000_0000;
        assert c[k] == 0;
        PartitionBytes(run, parts, 0, e.base + k);
        assert false;
      }
      forall address | e.base + e.size <= address < run[m].base
        ensures FlashByte(run, parts, address, 0xff) == 0
      {
        assert c[address - e.base] == 0;
      }
    }
  }

  /** The sysupgrade image is a slice of the flash. */
  lemma SysupgradeIsSlice(board: Board, parts: seq<Part>)
    requires Range(board).Some? && PartNamed(parts, board.last).Some?
    requires Sorted(Upgraded(board)) && PartsFit(Upgraded(board), parts)
    ensures var r, run := SysupgradeImage(board, parts), Upgraded(board);
            && r.Ok?
            && |r.value| == run[|run| - 1].base - run[0].base + |PartNamed(parts, board.last).value.data|
            && r.value == Slice(run, parts, run[0].base, |r.value|)
  {
    hide PartNamed, FlashByte, SysupgradeImage, Sorted, PartsFit, Range;
    SysupgradeIsFlashOverlay(board, parts);
  }

  /** A part that was packed fits the flash partition it is named after. */
  lemma {:induction false} PackedPartsFit(flash: seq<FlashEntry>, parts: seq<Part>, base: nat, room: nat,
      name: seq<byte>)
    requires Check(flash, parts, base, room) == None && PartNamed(parts, name).Some?
    ensures Lookup(flash, name).Some? && |PartNamed(parts, name).value.data| <= Lookup(flash, name).value.size
    decreases |parts|
  {
    hide Line, Lookup;
    if parts[0].name == name {
    } else {
      var line := Line(Fwup, EntryOf(parts[0], base));
      PackedPartsFit(flash, parts[1..], base + |parts[0].data|, room - |line|, name);
    }
  }

  lemma ConvertibleFits(board: Board, parts: seq<Part>, image: seq<byte>)
    requires PackedInto(board, parts, image) && Convertible(board, parts)
    ensures PartsFit(Upgraded(board), parts)
  {
    hide Check, PartNamed, Range, Plain, TableText, LayoutData, OsImage, FileSystem;
    var i := Range(board).value.0;
    forall e | e in Upgraded(board) && PartNamed(parts, e.name).Some?
      ensures |PartNamed(parts, e.name).value.data| <= e.size
    {
      var k :| 0 <= k < |Upgraded(board)| && Upgraded(board)[k] == e;
      PackedPartsFit(board.flash, parts, 0x800, 0x800, e.name);
      LookupFirst(board.flash, i + k);
    }
  }

  /** Kernel and file system of a convertible device are a run. */
  lemma ConvertibleRun(board: Board, parts: seq<Part>, image: seq<byte>, m: nat)
    requires PackedInto(board, parts, image) && Convertible(board, parts) && FileSystemAt(board, m)
    ensures Run(Upgraded(board), parts, m,
                PartNamed(parts, OsImage()).value.data, PartNamed(parts, FileSystem()).value.data)
  {
    hide Check, PartNamed, Range, Plain, TableText, LayoutData, OsImage, FileSystem, PackedInto, PartsFit,
      Sorted;
    ConvertibleFits(board, parts, image);
    RangeEnds(board);
  }

  /**
   * Two routes to the same bytes. For a run that ends with the file system, converting a factory image gives the
   * sysupgrade image of the same parts, followed by 0xff up to the end of the flash file system, exactly when neither
   * padding takes write_ff past 2^31 and the kernel's partition ends where the file system's starts, or else the flash
   * between them is all zeros and the file system's partition is not empty.
   */
  lemma RoutesAgree(board: Board, parts: seq<Part>, image: seq<byte>, junk: Junk)
    requires PackedInto(board, parts, image) && EntriesLead(image, parts, 0x800) && Convertible(board, parts)
    requires board.last == FileSystem()
    ensures SysupgradeImage(board, parts).Ok? && Converted(image, junk).Ok?
    ensures var run := Upgraded(board);
            var m := |run| - 1;
            var os, fs := PartNamed(parts, OsImage()).value.data, PartNamed(parts, FileSystem()).value.data;
            && 0 < m && |os| <= run[0].size && |fs| <= run[m].size
            && (Converted(image, junk).value == SysupgradeImage(board, parts).value + Fill(run[m].size - |fs|, 0xff)
                <==>
                && run[0].size - |os| <= 0x8000_0000 && run[m].size - |fs| <= 0x8000_0000
                && (run[0].base + run[0].size == run[m].base || (run[m].size > 0 && ZeroGap(run, parts, m))))
  {
    hide PackedInto, EntriesLead, Converted, SysupgradeImage, Assembled, PartNamed, Range, Plain, TableText, LayoutData,
      OsImage, FileSystem, LayoutName, PartsFit, Sorted, FlashByte, FfCount;
    RangeEnds(board);
    var run := Upgraded(board);
    var m := |run| - 1;
    var os, fs := PartNamed(parts, OsImage()).value.data, PartNamed(parts, FileSystem()).value.data;
    BothTablesRead(board, parts, image, junk, m);
    ConvertibleRun(board, parts, image, m);
    RunFits(run, parts, m, os, fs);
    SysupgradeIsSlice(board, parts);
    PaddedSlice(run, parts, m, os, fs, SysupgradeImage(board, parts).value);
    AgreeExactly(run, parts, m, os, fs);
  }

  /** Behind its data the last partition of a run is blank. */
  lemma PaddedSlice(run: seq<FlashEntry>, parts: seq<Part>, m: nat, os: seq<byte>, fs: seq<byte>, image: seq<byte>)
    requires Run(run, parts, m, os, fs) && Fitting(os, fs, run[0], run[m])
    requires |image| == run[m].base - run[0].base + |fs| && image == Slice(run, parts, run[0].base, |image|)
    ensures image + Fill(run[m].size - |fs|, 0xff)
         == Slice(run, parts, run[0].base, run[m].base - run[0].base + run[m].size)
  {
    hide PartNamed, FlashByte, PartsFit, Sorted;
    var n := run[m].base - run[0].base + run[m].size;
    var padded := image + Fill(run[m].size - |fs|, 0xff);
    forall k | 0 <= k < n
      ensures padded[k] == FlashByte(run, parts, run[0].base + k, 0xff)
    {
      if k >= |image| {
        PartitionBytes(run, parts, m, run[0].base + k);
      }
    }
  }

  /** The converted file is the whole slice exactly when it is a slice and as long as that. */
  lemma AgreeExactly(run: seq<FlashEntry>, parts: seq<Part>, m: nat, os: seq<byte>, fs: seq<byte>)
    requires Run(run, parts, m, os, fs) && Fitting(os, fs, run[0], run[m])
    ensures Assembled(os, fs, run[0], run[m]) == Slice(run, parts, run[0].base, run[m].base - run[0].base + run[m].size)
            <==>
            && run[0].size - |os| <= 0x8000_0000 && run[m].size - |fs| <= 0x8000_0000
            && (run[0].base + run[0].size == run[m].base || (run[m].size > 0 && ZeroGap(run, parts, m)))
  {
    hide PartNamed, FlashByte, PartsFit, Sorted, Assembled;
    AssembledBytes(os, fs, run[0], run[m]);
    var c := Assembled(os, fs, run[0], run[m]);
    if SliceCondition(run, parts, m, os) {
      SliceIfZero(run, parts, m, os, fs);
    }
    if c == Slice(run, parts, run[0].base, |c|) {
      ZeroIfSlice(run, parts, m, os, fs);
    }
  }

  /**
   * For a run that goes on behind the file system, the converted file is a front part of the sysupgrade image exactly
   * when the kernel's padding does not take write_ff past 2^31 and the flash between kernel and file system is all
   * zeros, or the file system's partition is empty.
   */
  lemma ConversionIsFront(board: Board, parts: seq<Part>, image: seq<byte>, junk: Junk, m: nat)
    requires PackedInto(board, parts, image) && EntriesLead(image, parts, 0x800) && Convertible(board, parts)
    requires FileSystemAt(board, m) && m < |Upgraded(board)| - 1
    ensures SysupgradeImage(board, parts).Ok? && Converted(image, junk).Ok?
    ensures Converted(image, junk).value <= SysupgradeImage(board, parts).value
            <==> SliceCondition(Upgraded(board), parts, m, PartNamed(parts, OsImage()).value.data)
  {
    hide PackedInto, EntriesLead, Converted, SysupgradeImage, Assembled, PartNamed, Range, Plain, TableText, LayoutData,
      OsImage, FileSystem, LayoutName, PartsFit, FlashByte;
    var run := Upgraded(board);
    var os, fs := PartNamed(parts, OsImage()).value.data, PartNamed(parts, FileSystem()).value.data;
    BothTablesRead(board, parts, image, junk, m);
    ConvertibleRun(board, parts, image, m);
    RunFits(run, parts, m, os, fs);
    SysupgradeIsSlice(board, parts);
    AssembledBytes(os, fs, run[0], run[m]);
    var c, sys := Assembled(os, fs, run[0], run[m]), SysupgradeImage(board, parts).value;
    assert |c| <= |sys|;
    assert sys[..|c|] == Slice(run, parts, run[0].base, |c|);
    if SliceCondition(run, parts, m, os) {
      SliceIfZero(run, parts, m, os, fs);
    }
    if c <= sys {
      ZeroIfSlice(run, parts, m, os, fs);
    }
  }
}
