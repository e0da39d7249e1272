/**
 * Unpacking: copying partitions out of an image file, extracting all of them, and converting an image for sysupgrade.
 */
module Convert {
  import opened Bytes
  import opened Results
  import opened Text
  import opened PartitionTable
  import opened TableReader
  import opened Files

  /** Where the partition table of an image file starts, and what its bases are relative to. */
  const FIRMWARE_OFFSET: nat := 0x1014

  // ---------------------------------------------------------------- write_partition

  /** The bytes an entry stands for, if the file holds all of them. */
  function Region(file: seq<byte>, e: FlashEntry): Option<seq<byte>>
  {
    var start := e.base + FIRMWARE_OFFSET;
    if start + e.size <= |file| then Some(file[start..start + e.size]) else None
  }

  /** What the uninitialised buffer of write_partition may hold. */
  type Chunk = s: seq<byte> | |s| == 4096 witness seq(4096, _ => 0)

  /** The buffer after a read of `n` bytes at `pos`: what the file does not deliver stays as it was. */
  function Refilled(file: seq<byte>, pos: nat, n: nat, buf: Chunk): Chunk
    requires n <= 4096
  {
    Available(file, pos, n) + buf[|Available(file, pos, n)|..]
  }

  /** The `size` bytes that are copied from `pos` on through the buffer, 4096 at a time. */
  function Copied(file: seq<byte>, pos: nat, size: nat, buf: Chunk): (out: seq<byte>)
    ensures |out| == size
    decreases size
  {
    if size < 4096 then Refilled(file, pos, size, buf)[..size]
    else
      var full := Refilled(file, pos, 4096, buf);
      full + Copied(file, pos + |Available(file, pos, 4096)|, size - 4096, full)
  }

  /** The file's own bytes are copied, as far as it has any; for behind its end they say nothing. */
  lemma {:induction false} CopiedBytes(file: seq<byte>, pos: nat, size: nat, buf: Chunk)
    ensures forall k :: 0 <= k < size && pos + k < |file| ==> Copied(file, pos, size, buf)[k] == file[pos + k]
    decreases size
  {
    if size < 4096 {
    } else {
      var got, full := Available(file, pos, 4096), Refilled(file, pos, 4096, buf);
      CopiedBytes(file, pos + |got|, size - 4096, full);
      assert |got| < 4096 ==> pos + |got| >= |file|;
    }
  }

  /** If the file holds the whole region, it is what is copied, whatever the buffer held. */
  lemma RegionIsCopied(file: seq<byte>, e: FlashEntry, buf: Chunk)
    requires Region(file, e).Some?
    ensures Copied(file, e.base + FIRMWARE_OFFSET, e.size, buf) == Region(file, e).value
  {
    hide Copied;
    CopiedBytes(file, e.base + FIRMWARE_OFFSET, e.size, buf);
  }

  /** One fread and one fwrite through the buffer. */
  method CopyChunk(input: File, output: File, buf: array<byte>, n: nat)
    requires n <= buf.Length == 4096 && input != output
    modifies input`pos, output, buf
    ensures buf[..] == Refilled(input.data, old(input.pos), n, old(buf[..]))
    ensures input.pos == old(input.pos) + |Available(input.data, old(input.pos), n)|
    ensures output.data == Store(old(output.data), old(output.pos), buf[..n]) && output.pos == old(output.pos) + n
  {
    hide Store;
    input.Read(buf, n);
    output.Write(buf[..n]);
  }

  /** `done` is copied, and what the buffer and the rest of the file still give completes `all`. */
  ghost predicate Underway(all: seq<byte>, done: seq<byte>, file: seq<byte>, pos: nat, buf: seq<byte>)
  {
    |buf| == 4096 && |done| <= |all| && done + Copied(file, pos, |all| - |done|, buf) == all
  }

  lemma Start(file: seq<byte>, pos: nat, size: nat, buf: Chunk)
    ensures Underway(Copied(file, pos, size, buf), [], file, pos, buf)
  {
    hide Copied;
    assert [] + Copied(file, pos, size, buf) == Copied(file, pos, size, buf);
  }

  lemma FullChunk(all: seq<byte>, done: seq<byte>, file: seq<byte>, pos: nat, buf: Chunk)
    requires Underway(all, done, file, pos, buf) && |done| + 4096 <= |all|
    ensures var full := Refilled(file, pos, 4096, buf);
            Underway(all, done + full, file, pos + |Available(file, pos, 4096)|, full)
  {
    hide Available, Refilled;
    var full := Refilled(file, pos, 4096, buf);
    Associates(done, full, Copied(file, pos + |Available(file, pos, 4096)|, |all| - |done| - 4096, full));
  }

  lemma LastChunk(all: seq<byte>, done: seq<byte>, file: seq<byte>, pos: nat, buf: Chunk)
    requires Underway(all, done, file, pos, buf) && |all| < |done| + 4096
    ensures done + Refilled(file, pos, |all| - |done|, buf)[..|all| - |done|] == all
  {
    hide Available, Refilled;
  }

  /** `junk` is what the uninitialised buffer holds. */
  method WritePartition(input: File, entry: FlashEntry, output: File, junk: Chunk)
    requires input != output
    modifies input`pos, output
    ensures output.data
         == Store(old(output.data), old(output.pos), Copied(input.data, entry.base + FIRMWARE_OFFSET, entry.size, junk))
    ensures output.pos == old(output.pos) + entry.size
  {
    hide Store, Copied, Refilled, Available, Underway;
    var buf := new byte[4096](i requires 0 <= i < 4096 => junk[i]);
    assert buf[..] == junk;
    input.Seek(entry.base + FIRMWARE_OFFSET);
    ghost var all := Copied(input.data, entry.base + FIRMWARE_OFFSET, entry.size, junk);
    ghost var done: seq<byte> := [];
    var offset := 0;
    StoreNothing(output.data, output.pos);
    Start(input.data, input.pos, entry.size, junk);
    while 4096 + offset <= entry.size
      invariant offset == |done| <= entry.size == |all| && Underway(all, done, input.data, input.pos, buf[..])
      invariant output.data == Store(old(output.data), old(output.pos), done) && output.pos == old(output.pos) + offset
    {
      FullChunk(all, done, input.data, input.pos, buf[..]);
      CopyChunk(input, output, buf, 4096);
      assert buf[..4096] == buf[..];
      StoreStore(old(output.data), old(output.pos), done, buf[..]);
      done := done + buf[..];
      offset := offset + 4096;
    }
    LastChunk(all, done, input.data, input.pos, buf[..]);
    if offset < entry.size {
      offset := entry.size - offset;
      CopyChunk(input, output, buf, offset);
      StoreStore(old(output.data), old(output.pos), done, buf[..offset]);
    } else {
      assert done == all;
    }
  }

  lemma StoreNothing(d: seq<byte>, p: nat)
    ensures Store(d, p, []) == d
  {}

  // ---------------------------------------------------------------- write_ff

  /** A C int compared with or added to a size_t counts modulo 2^64. */
  function AsSize(x: int): nat
    requires -0x8000_0000 <= x < 0x8000_0000
  {
    if x < 0 then x + 0x1_0000_0000_0000_0000 else x
  }

  /** A size_t stored in an int keeps its low 32 bits. */
  function AsInt(n: nat): (x: int)
    ensures -0x8000_0000 <= x < 0x8000_0000
  {
    var low := n % 0x1_0000_0000;
    if low < 0x8000_0000 then low else low - 0x1_0000_0000
  }

  /** How many bytes write_ff writes: as many as asked for, up to the 2^31 its counter can reach. */
  function FfCount(size: nat): nat { if size <= 0x8000_0000 then size else 0x8000_0000 }

  /** The guard of the loop, computed in size_t. */
  predicate MoreToWrite(offset: int, size: nat)
    requires -0x8000_0000 <= offset < 0x8000_0000
  {
    (AsSize(offset) + 4096) % 0x1_0000_0000_0000_0000 < size
  }

  /** offset += sizeof(buf) */
  function Advance(offset: int): (r: int)
    requires -0x8000_0000 <= offset < 0x8000_0000
    ensures -0x8000_0000 <= r < 0x8000_0000
  {
    AsInt((AsSize(offset) + 4096) % 0x1_0000_0000_0000_0000)
  }

  lemma CounterSteps(offset: int, size: uint32)
    requires 0 <= offset < 0x8000_0000 && offset % 4096 == 0
    ensures MoreToWrite(offset, size) <==> offset + 4096 < size
    ensures Advance(offset) == if offset + 4096 < 0x8000_0000 then offset + 4096 else -0x8000_0000
    ensures offset + 4096 <= 0x8000_0000
  {}

  /** Past 2^31 the counter turns negative, which reads as a huge size: the loop ends. */
  lemma CounterWrapped(size: uint32)
    ensures !MoreToWrite(-0x8000_0000, size) && AsSize(-0x8000_0000) >= size
  {}

  /** `n` more bytes of 0xff behind the `written` ones. */
  method WriteSome(output: File, buf: array<byte>, n: nat, ghost data: seq<byte>, ghost pos: nat, ghost written: nat)
    requires buf[..] == Fill(4096, 0xff) && n <= 4096 == buf.Length
    requires output.data == Store(data, pos, Fill(written, 0xff)) && output.pos == pos + written
    modifies output
    ensures output.data == Store(data, pos, Fill(written + n, 0xff)) && output.pos == pos + written + n
  {
    hide Store;
    output.Write(buf[..n]);
    assert buf[..n] == Fill(n, 0xff);
    StoreStore(data, pos, Fill(written, 0xff), Fill(n, 0xff));
    assert Fill(written, 0xff) + Fill(n, 0xff) == Fill(written + n, 0xff);
  }

  method WriteFf(output: File, size: uint32)
    modifies output
    ensures output.data == Store(old(output.data), old(output.pos), Fill(FfCount(size), 0xff))
    ensures output.pos == old(output.pos) + FfCount(size)
  {
    hide Store, MoreToWrite, Advance, AsSize;
    var buf := new byte[4096](_ => 0xff);
    assert buf[..] == Fill(4096, 0xff);
    var offset: int := 0;
    ghost var written := 0;
    StoreNothing(output.data, output.pos);
    assert Fill(0, 0xff) == [];
    CounterWrapped(size);
    while MoreToWrite(offset, size)
      invariant buf[..] == Fill(4096, 0xff)
      invariant written % 4096 == 0 && written <= FfCount(size)
      invariant offset == if written < 0x8000_0000 then written else -0x8000_0000
      invariant output.data == Store(old(output.data), old(output.pos), Fill(written, 0xff))
      invariant output.pos == old(output.pos) + written
      decreases 0x8000_0000 - written
    {
      CounterSteps(offset, size);
      WriteSome(output, buf, 4096, old(output.data), old(output.pos), written);
      written := written + 4096;
      offset := Advance(offset);
    }
    if 0 <= offset {
      CounterSteps(offset, size);
      SizeOfNonNegative(offset);
    }
    if AsSize(offset) < size {
      offset := size - offset;
      WriteSome(output, buf, offset, old(output.data), old(output.pos), written);
    }
  }

  lemma SizeOfNonNegative(x: int)
    requires 0 <= x < 0x8000_0000
    ensures AsSize(x) == x
  {}

  // ---------------------------------------------------------------- extract_firmware

  /** What opening a path below the output directory may lead to. */
  datatype Target = Inside(file: seq<byte>) | Elsewhere(path: seq<byte>)

  /** The outcome of opening "directory/name" for writing, for every name. */
  type Opener = seq<byte> -> Option<Target>

  /** A name that can be the name of a file. */
  predicate Component(name: seq<byte>)
  {
    name != [] && 0x2f !in name && name != [0x2e] && name != [0x2e, 0x2e]
  }

  /**
   * A directory in which files can be written: every proper name is the name of a file, and a path that leads to a
   * file of the directory ends with its name. The directory itself and its parent cannot be opened for writing.
   */
  ghost predicate Writable(open: Opener)
  {
    && (forall name :: Component(name) ==> open(name) == Some(Inside(name)))
    && (forall name :: open(name).Some? && open(name).value.Inside? ==>
          var file := open(name).value.file;
          Component(file) && |file| <= |name| && name[|name| - |file|..] == file)
    && open([]) == None && open([0x2e]) == None && open([0x2e, 0x2e]) == None
  }

  datatype OutFile = OutFile(target: Target, data: seq<byte>)

  /** How an extraction ends, and the files it has written until then. */
  datatype Extraction = Extraction(failure: Option<Failure>, files: seq<OutFile>)

  /** The file written for a slot in use. */
  function SlotFile(image: seq<byte>, slot: Slot, junk: Chunk, open: Opener): Result<OutFile>
  {
    match slot.name
    case None => Err(NullName)
    case Some(name) =>
      match open(name)
      case None => Err(CannotOpen)
      case Some(target) => Ok(OutFile(target, Copied(image, slot.base + FIRMWARE_OFFSET, slot.size, junk)))
  }

  /** The files written for the slots, in order; free slots are passed over. */
  function SlotFiles(image: seq<byte>, slots: seq<Slot>, junk: seq<Chunk>, open: Opener): Extraction
    requires |junk| == |slots|
  {
    if slots == [] then Extraction(None, [])
    else if slots[0].Free() then SlotFiles(image, slots[1..], junk[1..], open)
    else match SlotFile(image, slots[0], junk[0], open)
      case Err(f) => Extraction(Some(f), [])
      case Ok(file) => After([file], SlotFiles(image, slots[1..], junk[1..], open))
  }

  /**
   * The files extracted from an image; the buffers of the table and of the 16 copies hold `table` and `junk` at first.
   */
  function Extracted(image: seq<byte>, table: TableBuffer, junk: seq<Chunk>, open: Opener): Extraction
    requires |junk| == 16
  {
    match ReadTable(Window(image, FIRMWARE_OFFSET, table), Fwup, Filled([], 16))
    case Err(f) => Extraction(Some(f), [])
    case Ok(slots) => SlotFiles(image, slots, junk, open)
  }

  method ExtractFirmware(image: seq<byte>, table: TableBuffer, junk: seq<Chunk>, open: Opener)
    returns (r: Extraction)
    requires |junk| == 16
    ensures r == Extracted(image, table, junk, open)
  {
    hide ReadTable, Window, SlotFiles, Store, Filled;
    var input := new File(image);
    var entries := new Slot[16](_ => FREE);
    FreeIsFilled(entries[..]);
    var failure := ReadPartitionTable(input, FIRMWARE_OFFSET, entries, Fwup, table);
    if failure != None {
      return Extraction(failure, []);
    }
    r := ExtractSlots(input, entries[..], junk, open);
  }

  method ExtractSlots(input: File, slots: seq<Slot>, junk: seq<Chunk>, open: Opener) returns (r: Extraction)
    requires |junk| == |slots|
    modifies input`pos
    ensures r == SlotFiles(input.data, slots, junk, open)
  {
    hide SlotFile;
    var files := [];
    assert slots[0..] == slots && junk[0..] == junk;
    AfterNothing(SlotFiles(input.data, slots, junk, open));
    for i := 0 to |slots|
      invariant SlotFiles(input.data, slots, junk, open)
             == After(files, SlotFiles(input.data, slots[i..], junk[i..], open))
    {
      assert slots[i..][0] == slots[i] && slots[i..][1..] == slots[i + 1..];
      assert junk[i..][0] == junk[i] && junk[i..][1..] == junk[i + 1..];
      if !slots[i].Free() {
        var file := ExtractFirmwarePartition(input, slots[i], junk[i], open);
        if file.Err? {
          assert files + [] == files;
          return Extraction(Some(file.error), files);
        }
        AfterStep(files, file.value, SlotFiles(input.data, slots[i + 1..], junk[i + 1..], open));
        files := files + [file.value];
      }
    }
    assert files + [] == files;
    r := Extraction(None, files);
  }

  /** Opens the file of a slot and copies its bytes. */
  method ExtractFirmwarePartition(input: File, slot: Slot, junk: Chunk, open: Opener) returns (r: Result<OutFile>)
    modifies input`pos
    ensures r == SlotFile(input.data, slot, junk, open)
  {
    hide Store, Copied;
    if slot.name == None {
      return Err(NullName);
    }
    var target := open(slot.name.value);
    if target == None {
      return Err(CannotOpen);
    }
    var output := new File([]);
    WritePartition(input, FlashEntry(slot.name.value, slot.base, slot.size), output, junk);
    StoreIntoEmpty(Copied(input.data, slot.base + FIRMWARE_OFFSET, slot.size, junk));
    r := Ok(OutFile(target.value, output.data));
  }

  /** What an extraction comes to with files written before it. */
  function After(files: seq<OutFile>, r: Extraction): Extraction { Extraction(r.failure, files + r.files) }

  lemma AfterNothing(r: Extraction)
    ensures After([], r) == r
  {
    assert [] + r.files == r.files;
  }

  lemma AfterStep(files: seq<OutFile>, f: OutFile, rest: Extraction)
    ensures After(files + [f], rest) == After(files, After([f], rest))
  {
    assert files + [f] + rest.files == files + ([f] + rest.files);
  }

  lemma StoreIntoEmpty(out: seq<byte>)
    ensures Store([], 0, out) == out
  {}

  lemma FreeIsFilled(slots: seq<Slot>)
    requires forall s :: s in slots ==> s == FREE
    ensures slots == Filled([], |slots|)
  {
    forall i | 0 <= i < |slots|
      ensures slots[i] == Filled([], |slots|)[i]
    {
      assert slots[i] in slots;
    }
  }

  // ---------------------------------------------------------------- convert_firmware

  const MAX_PARTITIONS: nat := 32

  function OsImage(): seq<byte> { Ascii("os-image") }
  function FileSystem(): seq<byte> { Ascii("file-system") }
  function LayoutName(): seq<byte> { Ascii("partition-table") }

  /** The three entries of the firmware table that are used. */
  datatype FwupEntries = FwupEntries(os: FlashEntry, fs: FlashEntry, table: FlashEntry)

  function FindFwup(slots: seq<Slot>): Result<FwupEntries>
  {
    match Find(slots, OsImage())
    case Err(f) => Err(f)
    case Ok(os) =>
      match Find(slots, FileSystem())
      case Err(f) => Err(f)
      case Ok(fs) =>
        match Find(slots, LayoutName())
        case Err(f) => Err(f)
        case Ok(table) => Ok(FwupEntries(os, fs, table))
  }

  /** The two entries of the flash table that are used. */
  function FindFlash(slots: seq<Slot>): Result<(FlashEntry, FlashEntry)>
  {
    match Find(slots, OsImage())
    case Err(f) => Err(f)
    case Ok(os) =>
      match Find(slots, FileSystem())
      case Err(f) => Err(f)
      case Ok(fs) => Ok((os, fs))
  }

  /** The output file: the kernel padded to its flash partition, then the file system padded to its own. */
  function Assembled(os: seq<byte>, fs: seq<byte>, flashOs: FlashEntry, flashFs: FlashEntry): seq<byte>
  {
    var padOs := Fill(FfCount((flashOs.size - |os|) % 0x1_0000_0000), 0xff);
    var padFs := Fill(FfCount((flashFs.size - |fs|) % 0x1_0000_0000), 0xff);
    Store(os + padOs, (flashFs.base - flashOs.base) % 0x1_0000_0000, fs + padFs)
  }

  function ReadBoth(image: seq<byte>, junk: TableBuffer, junk': TableBuffer)
    : Result<(FwupEntries, FlashEntry, FlashEntry)>
  {
    match ReadTable(Window(image, FIRMWARE_OFFSET, junk), Fwup, Filled([], MAX_PARTITIONS))
    case Err(f) => Err(f)
    case Ok(slots) =>
      match FindFwup(slots)
      case Err(f) => Err(f)
      case Ok(fwup) =>
        var at := FIRMWARE_OFFSET + fwup.table.base + 4;
        match ReadTable(Window(image, at, junk'), Flash, Filled([], MAX_PARTITIONS))
        case Err(f) => Err(f)
        case Ok(slots) =>
          match FindFlash(slots)
          case Err(f) => Err(f)
          case Ok((os, fs)) => Ok((fwup, os, fs))
  }

  /** The bytes an entry of the image table stands for, or leftovers of the buffer where the image has none. */
  function RegionCopied(image: seq<byte>, e: FlashEntry, junk: Chunk): seq<byte>
  {
    Copied(image, e.base + FIRMWARE_OFFSET, e.size, junk)
  }

  /** What the uninitialised buffers of a conversion hold: those of the two tables and of the two copies. */
  datatype Junk = Junk(fwup: TableBuffer, flash: TableBuffer, os: Chunk, fs: Chunk)

  function Converted(image: seq<byte>, junk: Junk): Result<seq<byte>>
  {
    match ReadBoth(image, junk.fwup, junk.flash)
    case Err(f) => Err(f)
    case Ok((fwup, flashOs, flashFs)) =>
      Ok(Assembled(RegionCopied(image, fwup.os, junk.os), RegionCopied(image, fwup.fs, junk.fs), flashOs, flashFs))
  }

  method ReadTables(input: File, junk: TableBuffer, junk': TableBuffer)
    returns (r: Result<(FwupEntries, FlashEntry, FlashEntry)>)
    modifies input`pos
    ensures r == ReadBoth(input.data, junk, junk')
  {
    hide ReadTable, Window, Find, Filled;
    var fwup := new Slot[MAX_PARTITIONS](_ => FREE);
    var flash := new Slot[MAX_PARTITIONS](_ => FREE);
    FreeIsFilled(fwup[..]);
    FreeIsFilled(flash[..]);
    var failure := ReadPartitionTable(input, FIRMWARE_OFFSET, fwup, Fwup, junk);
    if failure != None {
      return Err(failure.value);
    }
    var found := FindInFwup(fwup);
    if found.Err? {
      return Err(found.error);
    }
    failure := ReadPartitionTable(input, FIRMWARE_OFFSET + found.value.table.base + 4, flash, Flash, junk');
    if failure != None {
      return Err(failure.value);
    }
    var os := FindPartition(flash, OsImage());
    if os.Err? {
      return Err(os.error);
    }
    var fs := FindPartition(flash, FileSystem());
    if fs.Err? {
      return Err(fs.error);
    }
    r := Ok((found.value, os.value, fs.value));
  }

  method FindInFwup(fwup: array<Slot>) returns (r: Result<FwupEntries>)
    ensures r == FindFwup(fwup[..])
  {
    var os := FindPartition(fwup, OsImage());
    if os.Err? {
      return Err(os.error);
    }
    var fs := FindPartition(fwup, FileSystem());
    if fs.Err? {
      return Err(fs.error);
    }
    var table := FindPartition(fwup, LayoutName());
    if table.Err? {
      return Err(table.error);
    }
    r := Ok(FwupEntries(os.value, fs.value, table.value));
  }

  method ConvertFirmware(image: seq<byte>, junk: Junk) returns (r: Result<seq<byte>>)
    ensures r == Converted(image, junk)
  {
    hide ReadBoth, Store, FfCount, Copied;
    var input := new File(image);
    var output := new File([]);
    var tables := ReadTables(input, junk.fwup, junk.flash);
    if tables.Err? {
      return Err(tables.error);
    }
    var (fwup, flashOs, flashFs) := tables.value;
    WritePartition(input, fwup.os, output, junk.os);
    WriteFf(output, (flashOs.size - fwup.os.size) % 0x1_0000_0000);
    output.Seek((flashFs.base - flashOs.base) % 0x1_0000_0000);
    WritePartition(input, fwup.fs, output, junk.fs);
    WriteFf(output, (flashFs.size - fwup.fs.size) % 0x1_0000_0000);
    FourWrites(RegionCopied(image, fwup.os, junk.os),
               Fill(FfCount((flashOs.size - fwup.os.size) % 0x1_0000_0000), 0xff),
               (flashFs.base - flashOs.base) % 0x1_0000_0000,
               RegionCopied(image, fwup.fs, junk.fs),
               Fill(FfCount((flashFs.size - fwup.fs.size) % 0x1_0000_0000), 0xff));
    r := Ok(output.data);
  }

  /** Two regions, each written behind its start with its padding behind it. */
  lemma FourWrites(x: seq<byte>, padX: seq<byte>, at: nat, y: seq<byte>, padY: seq<byte>)
    ensures Store(Store(Store(Store([], 0, x), |x|, padX), at, y), at + |y|, padY) == Store(x + padX, at, y + padY)
  {
    hide Store;
    StoreStore([], 0, x, padX);
    StoreIntoEmpty(x + padX);
    StoreStore(x + padX, at, y, padY);
  }
}
