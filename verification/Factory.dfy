/**
 * Packing: the partition-table partition, the image partition table with its data, and the factory image around them.
 */
module Factory {
  import opened Bytes
  import opened Results
  import opened PartitionTable
  import opened Md5Context
  import Rfc = Md5Rfc

  /** An image partition. */
  datatype Part = Part(name: seq<byte>, data: seq<byte>)

  /** What the tool knows of a device. */
  datatype Board = Board(vendor: Option<seq<byte>>, flash: seq<FlashEntry>, first: seq<byte>, last: seq<byte>)

  const SALT: seq<byte> := [0x7a, 0x2b, 0x15, 0xed, 0x9b, 0x98, 0x59, 0x6d,
                            0xe5, 0x04, 0xab, 0x44, 0xac, 0x2a, 0x9f, 0x4e]

  // ---------------------------------------------------------------- numbers

  /** Stores a uint32 as big endian. */
  method Put32(buf: array<byte>, at: nat, val: nat)
    requires at + 4 <= buf.Length
    modifies buf
    ensures buf[..] == Splice(old(buf[..]), at, BigEndian(val % 0x1_0000_0000))
  {
    var v := val % 0x1_0000_0000;
    PutFour(buf, at, (v / 0x1000000 % 0x100) as byte, (v / 0x10000 % 0x100) as byte,
            (v / 0x100 % 0x100) as byte, (v % 0x100) as byte);
  }

  // ---------------------------------------------------------------- snprintf

  /** Writes at most `room` bytes, the last of them zero; yields the length the whole text has. */
  method Snprintf(buf: array<byte>, at: nat, room: nat, text: seq<byte>) returns (w: nat)
    requires 0 < room && at + room <= buf.Length
    modifies buf
    ensures w == |text|
    ensures buf[..] == Splice(old(buf[..]), at, (if w < room then text else text[..room - 1]) + [0])
  {
    w := |text|;
    Memcpy(buf, at, (if w < room then text else text[..room - 1]) + [0]);
  }

  // ---------------------------------------------------------------- the partition-table partition

  /**
   * The first partition of an image: four header bytes, the flash layout as text, a zero, and 0xff up to 2048 bytes.
   */
  function LayoutData(flash: seq<FlashEntry>): (s: seq<byte>)
    requires |TableText(Flash, flash)| < 2044
    ensures |s| == 0x800
  {
    [0x00, 0x04, 0x00, 0x00] + TableText(Flash, flash) + [0] + Fill(2043 - |TableText(Flash, flash)|, 0xff)
  }

  lemma TextSnoc(kind: Kind, es: seq<FlashEntry>, e: FlashEntry)
    ensures TableText(kind, es + [e]) == TableText(kind, es) + Line(kind, e)
  {
    hide Line;
    if es == [] {
      assert es + [e] == [e] && [e][1..] == [];
    } else {
      assert (es + [e])[1..] == es[1..] + [e];
      TextSnoc(kind, es[1..], e);
    }
  }

  /** Text printed so far is a front part of the whole text. */
  lemma TextGrows(kind: Kind, es: seq<FlashEntry>, i: nat)
    requires i <= |es|
    ensures |TableText(kind, es[..i])| <= |TableText(kind, es)|
    decreases |es| - i
  {
    hide Line;
    if i == |es| {
      assert es[..i] == es;
    } else {
      assert es[..i + 1] == es[..i] + [es[i]];
      TextSnoc(kind, es[..i], es[i]);
      TextGrows(kind, es, i + 1);
    }
  }

  /** One line behind what is printed already. */
  method PrintLine(data: array<byte>, s: nat, line: seq<byte>, ghost before: seq<byte>) returns (w: nat)
    requires s < data.Length && data[..s] == before
    modifies data
    ensures w == |line|
    ensures s + w < data.Length ==> data[..s + w] == before + line && data[s + w] == 0
  {
    w := Snprintf(data, s, data.Length - s, line);
  }

  /** What the 2048 bytes of an allocation may hold. */
  type Block = s: seq<byte> | |s| == 0x800 witness seq(0x800, _ => 0)

  /** `junk` is what malloc delivers; nothing is written at index 4 if the layout is empty. */
  method MakePartitionTable(flash: seq<FlashEntry>, junk: Block) returns (failure: Option<Failure>, data: array<byte>)
    ensures data.Length == 0x800
    ensures failure == if |TableText(Flash, flash)| < 2044 then None else Some(TableOverflow)
    ensures failure == None ==>
        data[..] == LayoutData(flash)[4 := if flash == [] then junk[4] else LayoutData(flash)[4]]
  {
    hide Line, TableText;
    data := new byte[0x800](i requires 0 <= i < 0x800 => junk[i]);
    data[0], data[1], data[2], data[3] := 0x00, 0x04, 0x00, 0x00;
    var s := 4;
    var i := 0;
    assert flash[..0] == [] && TableText(Flash, []) == [] by { EmptyText(Flash); }
    while i < |flash|
      invariant i <= |flash| && s == 4 + |TableText(Flash, flash[..i])| < 0x800
      invariant data[..s] == [0x00, 0x04, 0x00, 0x00] + TableText(Flash, flash[..i])
      invariant data[s] == if i == 0 then junk[4] else 0
    {
      assert flash[..i + 1] == flash[..i] + [flash[i]];
      TextSnoc(Flash, flash[..i], flash[i]);
      TextGrows(Flash, flash, i + 1);
      var len := 0x800 - s;
      var w := PrintLine(data, s, Line(Flash, flash[i]), data[..s]);
      if w > len - 1 {
        failure := Some(TableOverflow);
        return;
      }
      s := s + w;
      i := i + 1;
    }
    assert flash[..|flash|] == flash;
    s := s + 1;
    Memset(data, s, 0xff, 0x800 - s);
    failure := None;
  }

  lemma EmptyText(kind: Kind)
    ensures TableText(kind, []) == []
  {}

  // ---------------------------------------------------------------- put_partitions

  /** The table entry of a part whose data starts at `base`; both numbers are printed as 32-bit unsigned. */
  function EntryOf(p: Part, base: nat): FlashEntry
  {
    FlashEntry(p.name, base % 0x1_0000_0000, |p.data| % 0x1_0000_0000)
  }

  /** The table of an image: the data of the parts lies back to back from `base` on. */
  function Entries(parts: seq<Part>, base: nat): (es: seq<FlashEntry>)
    ensures |es| == |parts|
  {
    if parts == [] then [] else [EntryOf(parts[0], base)] + Entries(parts[1..], base + |parts[0].data|)
  }

  function AllData(parts: seq<Part>): seq<byte>
  {
    if parts == [] then [] else parts[0].data + AllData(parts[1..])
  }

  lemma {:induction false} EntriesSnoc(parts: seq<Part>, p: Part, base: nat)
    ensures Entries(parts + [p], base) == Entries(parts, base) + [EntryOf(p, base + |AllData(parts)|)]
  {
    hide EntryOf;
    if parts == [] {
      assert parts + [p] == [p] && [p][1..] == [];
    } else {
      var first, rest := parts[0], parts[1..];
      assert (parts + [p])[1..] == rest + [p];
      EntriesSnoc(rest, p, base + |first.data|);
      assert Entries(parts + [p], base) == [EntryOf(first, base)] + Entries(rest + [p], base + |first.data|);
    }
  }

  lemma {:induction false} AllDataConcat(x: seq<Part>, y: seq<Part>)
    ensures AllData(x + y) == AllData(x) + AllData(y)
  {
    if x == [] {
      assert x + y == y;
    } else {
      assert (x + y)[1..] == x[1..] + y;
      AllDataConcat(x[1..], y);
    }
  }

  lemma AllDataSnoc(parts: seq<Part>, p: Part)
    ensures AllData(parts + [p]) == AllData(parts) + p.data
  {
    AllDataConcat(parts, [p]);
    assert [p][1..] == [] && AllData([p]) == p.data;
  }

  /** What stops the packing, if anything; `room` bytes of table space are left. */
  function Check(flash: seq<FlashEntry>, parts: seq<Part>, base: nat, room: nat): Option<Failure>
  {
    if parts == [] then None
    else
      var line := Line(Fwup, EntryOf(parts[0], base));
      match Lookup(flash, parts[0].name)
      case None => Some(FlashEntryMissing)
      case Some(f) =>
        if |parts[0].data| > f.size then Some(PartitionTooBig)
        else if |line| >= room then Some(TableOverflow)
        else Check(flash, parts[1..], base + |parts[0].data|, room - |line|)
  }

  function ImageTable(parts: seq<Part>): seq<byte>
  {
    TableText(Fwup, Entries(parts, 0x800))
  }

  /** The table with the zero that snprintf leaves behind the last line. */
  function Terminated(text: seq<byte>): seq<byte>
  {
    if text == [] then [] else text + [0]
  }

  /** `s` with a table and data put into it as put_partitions lays them out. */
  function Packed(s: seq<byte>, at: nat, text: seq<byte>, data: seq<byte>): seq<byte>
    requires |text| < 0x800 && at + 0x800 + |data| <= |s|
  {
    Splice(Splice(s, at, Terminated(text)), at + 0x800, data)
  }

  lemma PackOneMore(s: seq<byte>, at: nat, text: seq<byte>, data: seq<byte>, line: seq<byte>, d: seq<byte>)
    requires line != [] && |text + line| < 0x800 && at + 0x800 + |data + d| <= |s|
    ensures Splice(Splice(Packed(s, at, text, data), at + 0x800 + |data|, d), at + |text|, line + [0])
         == Packed(s, at, text + line, data + d)
  {}

  /** The data of a part and its line. */
  method PutPart(buffer: array<byte>, at: nat, imagePt: nat, base: nat, line: seq<byte>, d: seq<byte>,
                 ghost before: seq<byte>, ghost text: seq<byte>, ghost data: seq<byte>)
    returns (w: nat)
    requires imagePt == |text| < 0x800 && base == 0x800 + |data| && line != []
    requires at + base + |d| <= buffer.Length == |before|
    requires buffer[..] == Packed(before, at, text, data)
    modifies buffer
    ensures w == |line|
    ensures imagePt + w < 0x800 ==> buffer[..] == Packed(before, at, text + line, data + d)
  {
    hide Packed, Splice;
    Memcpy(buffer, at + base, d);
    w := Snprintf(buffer, at + imagePt, 0x800 - imagePt, line);
    if imagePt + w < 0x800 {
      PackOneMore(before, at, text, data, line, d);
    }
  }

  method PutPartitions(buffer: array<byte>, at: nat, flash: seq<FlashEntry>, parts: seq<Part>)
    returns (failure: Option<Failure>)
    requires at + 0x800 + |AllData(parts)| <= buffer.Length
    modifies buffer
    ensures failure == Check(flash, parts, 0x800, 0x800)
    ensures failure == None ==>
              && |ImageTable(parts)| < 0x800
              && buffer[..] == Packed(old(buffer[..]), at, ImageTable(parts), AllData(parts))
  {
    hide Line, TableText, Packed, Lookup, Entries, AllData;
    ghost var before := buffer[..];
    var imagePt, base, i := 0, 0x800, 0;
    StartOfPacking(before, at, parts);
    while i < |parts|
      invariant i <= |parts| && imagePt == |ImageTable(parts[..i])| < 0x800
      invariant base == 0x800 + |AllData(parts[..i])|
      invariant Check(flash, parts, 0x800, 0x800) == Check(flash, parts[i..], base, 0x800 - imagePt)
      invariant at + 0x800 + |AllData(parts[..i])| <= |before| == buffer.Length
      invariant buffer[..] == Packed(before, at, ImageTable(parts[..i]), AllData(parts[..i]))
    {
      var p := parts[i];
      assert parts[i..][0] == p && parts[i..][1..] == parts[i + 1..];
      assert parts[..i + 1] == parts[..i] + [p];
      PartFits(parts, i);
      EntriesSnoc(parts[..i], p, 0x800);
      AllDataSnoc(parts[..i], p);
      var line := Line(Fwup, EntryOf(p, base));
      TextSnoc(Fwup, Entries(parts[..i], 0x800), EntryOf(p, base));
      LineIsNotEmpty(Fwup, EntryOf(p, base));
      failure := CheckSize(flash, p);
      if failure != None {
        return;
      }
      var len := 0x800 - imagePt;
      var w := PutPart(buffer, at, imagePt, base, line, p.data, before, ImageTable(parts[..i]), AllData(parts[..i]));
      if w > len - 1 {
        failure := Some(TableOverflow);
        return;
      }
      imagePt := imagePt + w;
      base := base + |p.data|;
      i := i + 1;
    }
    assert parts[..|parts|] == parts && parts[|parts|..] == [];
    failure := None;
  }

  lemma StartOfPacking(s: seq<byte>, at: nat, parts: seq<Part>)
    requires at + 0x800 <= |s|
    ensures parts[..0] == [] && parts[0..] == parts
    ensures ImageTable([]) == [] && AllData([]) == []
    ensures Packed(s, at, [], []) == s
  {}

  lemma LineIsNotEmpty(kind: Kind, e: FlashEntry)
    ensures Line(kind, e) != []
  {
    LineIs(kind, e);
  }

  lemma PartFits(parts: seq<Part>, i: nat)
    requires i < |parts|
    ensures |AllData(parts[..i])| + |parts[i].data| <= |AllData(parts)|
  {
    AllDataConcat(parts[..i], parts[i..]);
    assert parts[..i] + parts[i..] == parts;
  }

  /** The search for the flash partition of a part, and the size check. */
  method CheckSize(flash: seq<FlashEntry>, p: Part) returns (failure: Option<Failure>)
    ensures failure == match Lookup(flash, p.name)
                       case None => Some(FlashEntryMissing)
                       case Some(f) => if |p.data| > f.size then Some(PartitionTooBig) else None
  {
    assert flash[0..] == flash;
    for j := 0 to |flash|
      invariant Lookup(flash, p.name) == Lookup(flash[j..], p.name)
    {
      assert flash[j..][0] == flash[j] && flash[j..][1..] == flash[j + 1..];
      if flash[j].name == p.name {
        return if |p.data| > flash[j].size then Some(PartitionTooBig) else None;
      }
    }
    failure := Some(FlashEntryMissing);
  }

  // ---------------------------------------------------------------- the factory image

  function FactoryLength(parts: seq<Part>): nat { 0x1814 + |AllData(parts)| }

  /**
   * Bytes 0x14 to 0x1814 before the table is put there: length and text of the vendor information, if there is any,
   * and 0xff. Nothing keeps a long text from reaching into the block of the table.
   */
  function Background(vendor: Option<seq<byte>>): (s: seq<byte>)
    ensures |s| == 0x1800
  {
    match vendor
    case None => Fill(0x1800, 0xff)
    case Some(v) =>
      BigEndian(|v| % 0x1_0000_0000) + if |v| <= 0x17fc then v + Fill(0x17fc - |v|, 0xff) else v[..0x17fc]
  }

  function VendorBlock(vendor: Option<seq<byte>>): (s: seq<byte>)
    ensures |s| == 0x1000
  {
    Background(vendor)[..0x1000]
  }

  function TableBlock(vendor: Option<seq<byte>>, parts: seq<Part>): (s: seq<byte>)
    requires |ImageTable(parts)| < 0x800
    ensures |s| == 0x800
  {
    Terminated(ImageTable(parts)) + Background(vendor)[0x1000 + |Terminated(ImageTable(parts))|..]
  }

  /** The vendor text has the room the format gives it. */
  predicate VendorFits(vendor: Option<seq<byte>>) { vendor.Some? ==> |vendor.value| <= 0xffc }

  /** Then the vendor block is the documented one, padded with 0xff. */
  lemma DocumentedVendorBlock(vendor: Option<seq<byte>>)
    requires VendorFits(vendor)
    ensures VendorBlock(vendor) == if vendor == None then Fill(0x1000, 0xff)
                                   else BigEndian(|vendor.value|) + vendor.value + Fill(0xffc - |vendor.value|, 0xff)
  {
    hide BigEndian;
  }

  /** Behind the first `n` bytes of the block of the table, which are overwritten, the vendor text has 0xff only. */
  predicate VendorLeaves(vendor: Option<seq<byte>>, n: nat)
  {
    vendor.Some? ==> forall k :: 0xffc + n <= k < |vendor.value| && k < 0x17fc ==> vendor.value[k] == 0xff
  }

  /** The block of the table as the format documents it. */
  function DocumentedTable(parts: seq<Part>): seq<byte>
    requires |ImageTable(parts)| < 0x800
  {
    Terminated(ImageTable(parts)) + Fill(0x800 - |Terminated(ImageTable(parts))|, 0xff)
  }

  /** The table block is the documented one exactly for vendor texts that leave what is behind the table blank. */
  lemma DocumentedTableBlock(vendor: Option<seq<byte>>, parts: seq<Part>)
    requires |ImageTable(parts)| < 0x800
    ensures TableBlock(vendor, parts) == DocumentedTable(parts)
            <==> VendorLeaves(vendor, |Terminated(ImageTable(parts))|)
  {
    hide ImageTable;
    var t := Terminated(ImageTable(parts));
    var block := TableBlock(vendor, parts);
    if vendor.Some? {
      var v := vendor.value;
      VendorText(v);
      if block == DocumentedTable(parts) {
        forall k | 0xffc + |t| <= k < |v| && k < 0x17fc
          ensures v[k] == 0xff
        {
          assert block[k - 0xffc] == Background(vendor)[k + 4] == v[k];
        }
      }
    }
  }

  /** Where the characters of a vendor text are. */
  lemma VendorText(v: seq<byte>)
    ensures forall i :: 4 <= i < 0x1800 ==> Background(Some(v))[i] == if i - 4 < |v| then v[i - 4] else 0xff
  {
    hide BigEndian;
  }

  /** The image from byte 0x14 on. */
  function Payload(board: Board, parts: seq<Part>): (s: seq<byte>)
    requires |ImageTable(parts)| < 0x800
    ensures |s| == FactoryLength(parts) - 0x14
  {
    VendorBlock(board.vendor) + TableBlock(board.vendor, parts) + AllData(parts)
  }

  /** What the checksum covers; its length is passed as an unsigned int. */
  function Hashed(payload: seq<byte>): (s: seq<byte>)
    ensures s == payload <==> |payload| < 0x1_0000_0000
  {
    payload[..|payload| % 0x1_0000_0000]
  }

  lemma CheckBoundsTable(flash: seq<FlashEntry>, parts: seq<Part>, base: nat, room: nat)
    requires Check(flash, parts, base, room) == None && room > 0
    ensures |TableText(Fwup, Entries(parts, base))| < room
  {
    hide Line;
    if parts == [] {
      EmptyText(Fwup);
    } else {
      var line := Line(Fwup, EntryOf(parts[0], base));
      CheckBoundsTable(flash, parts[1..], base + |parts[0].data|, room - |line|);
    }
  }

  /** The vendor text ends inside the image; there is no other limit to it. */
  predicate VendorInside(board: Board, parts: seq<Part>)
  {
    board.vendor.Some? ==> 0x18 + |board.vendor.value| <= FactoryLength(parts)
  }

  /** The factory image of a list of parts, or the reason there is none. */
  function FactoryImage(board: Board, parts: seq<Part>): (r: Result<seq<byte>>)
    ensures r.Ok? ==> |r.value| == FactoryLength(parts)
  {
    if !VendorInside(board, parts) then Err(OutsideBuffer)
    else match Check(board.flash, parts, 0x800, 0x800)
      case Some(f) => Err(f)
      case None =>
        CheckBoundsTable(board.flash, parts, 0x800, 0x800);
        var payload := Payload(board, parts);
        Ok(BigEndian(FactoryLength(parts) % 0x1_0000_0000) + Rfc.Digest(SALT + Hashed(payload)) + payload)
  }

  method PutMd5(image: array<byte>, md5: nat, buffer: seq<byte>)
    requires md5 + 16 <= image.Length
    modifies image
    ensures image[..] == Splice(old(image[..]), md5, Rfc.Digest(SALT + buffer))
  {
    hide Rfc.Digest, MD5Context.Absorbed;
    var ctx := new MD5Context(0, 64);
    ctx.Init();
    ctx.Update(SALT, []);
    ctx.Update(buffer, [] + SALT);
    assert [] + SALT + buffer == SALT + buffer;
    ctx.Final(image, md5, [] + SALT + buffer);
  }

  method GenerateFactoryImage(board: Board, parts: seq<Part>) returns (failure: Option<Failure>, image: array<byte>)
    ensures match FactoryImage(board, parts)
            case Err(f) => failure == Some(f)
            case Ok(s) => failure == None && image[..] == s
  {
    hide Rfc.Digest, ImageTable, Check, Packed, Payload, BigEndian, VendorBlock, Background, Splice, Head, AllData;
    var len := Measure(parts);
    image := new byte[len](_ => 0xff);
    failure := WriteHead(image, board.vendor);
    if failure != None {
      return;
    }
    ghost var head := image[..];
    failure := PutPartitions(image, 0x1014, board.flash, parts);
    if failure != None {
      return;
    }
    HeadWritten(board, parts, head, image[..]);
    var hashed := (len - 0x14) % 0x1_0000_0000;
    assert image[0x14..] == Payload(board, parts);
    assert image[0x14..0x14 + hashed] == image[0x14..][..hashed];
    PutMd5(image, 0x04, image[0x14..0x14 + hashed]);
    HeadIs(len);
    Md5Placed(BigEndian(len % 0x1_0000_0000), Payload(board, parts), Rfc.Digest(SALT + Hashed(Payload(board, parts))));
  }

  /** Bytes 0 to 0x14 before the checksum is known. */
  function Head(len: nat): (s: seq<byte>)
    ensures |s| == 0x14
  {
    BigEndian(len % 0x1_0000_0000) + Fill(16, 0xff)
  }

  lemma HeadIs(len: nat)
    ensures Head(len) == BigEndian(len % 0x1_0000_0000) + Fill(16, 0xff)
  {}

  /** Length and vendor information; a text that does not end inside the image is written behind its end. */
  method WriteHead(image: array<byte>, vendor: Option<seq<byte>>) returns (failure: Option<Failure>)
    requires image.Length >= 0x1814 && image[..] == Fill(image.Length, 0xff)
    modifies image
    ensures failure == if vendor.Some? && 0x18 + |vendor.value| > image.Length then Some(OutsideBuffer) else None
    ensures failure == None ==> image[..0x1814] == Head(image.Length) + Background(vendor)
  {
    hide BigEndian, Splice, Head;
    var n := image.Length;
    Put32(image, 0, n);
    LengthPut(n);
    if vendor.Some? {
      var v := vendor.value;
      Put32(image, 0x14, |v|);
      if 0x18 + |v| > image.Length {
        return Some(OutsideBuffer);
      }
      Memcpy(image, 0x18, v);
      VendorPut(Head(n), v, n - 0x14);
    } else {
      assert Fill(n - 0x14, 0xff)[..0x1800] == Fill(0x1800, 0xff);
      assert (Head(n) + Fill(n - 0x14, 0xff))[..0x1814] == Head(n) + Fill(n - 0x14, 0xff)[..0x1800];
    }
    failure := None;
  }

  lemma LengthPut(n: nat)
    requires n >= 0x14
    ensures Splice(Fill(n, 0xff), 0, BigEndian(n % 0x1_0000_0000)) == Head(n) + Fill(n - 0x14, 0xff)
  {
    hide BigEndian;
  }

  lemma VendorPut(head: seq<byte>, v: seq<byte>, n: nat)
    requires |head| == 0x14 && n >= 0x1800 && 4 + |v| <= n
    ensures var length := BigEndian(|v| % 0x1_0000_0000);
            Splice(Splice(head + Fill(n, 0xff), 0x14, length), 0x18, v)[..0x1814] == head + Background(Some(v))
  {
    hide BigEndian;
    var length := BigEndian(|v| % 0x1_0000_0000);
    assert Splice(Splice(head + Fill(n, 0xff), 0x14, length), 0x18, v) == head + (length + v + Fill(n - 4 - |v|, 0xff));
  }

  lemma Md5Placed(length: seq<byte>, payload: seq<byte>, digest: seq<byte>)
    requires |length| == 4 && |digest| == 16
    ensures Splice(length + Fill(16, 0xff) + payload, 4, digest) == length + digest + payload
  {}

  method Measure(parts: seq<Part>) returns (len: nat)
    ensures len == FactoryLength(parts)
  {
    len := 0x1814;
    for i := 0 to |parts|
      invariant len == 0x1814 + |AllData(parts[..i])|
    {
      assert parts[..i + 1] == parts[..i] + [parts[i]];
      AllDataSnoc(parts[..i], parts[i]);
      len := len + |parts[i].data|;
    }
    assert parts[..|parts|] == parts;
  }

  /** Header, vendor text, table and data are where the format wants them. */
  lemma HeadWritten(board: Board, parts: seq<Part>, head: seq<byte>, image: seq<byte>)
    requires |ImageTable(parts)| < 0x800 && |head| == FactoryLength(parts)
    requires head[..0x1814] == Head(|head|) + Background(board.vendor)
    requires image == Packed(head, 0x1014, ImageTable(parts), AllData(parts))
    ensures image == Head(|head|) + Payload(board, parts)
  {
    hide ImageTable, AllData, Background, Head;
    assert head[..0x1014] == head[..0x1814][..0x1014] == Head(|head|) + VendorBlock(board.vendor);
    assert head[0x1014..0x1814] == head[..0x1814][0x1014..] == Background(board.vendor)[0x1000..];
    var t := Terminated(ImageTable(parts));
    assert image[..0x1014] == head[..0x1014];
    assert image[0x1014..0x1814] == t + head[0x1014..0x1814][|t|..];
    assert image[0x1814..] == AllData(parts);
    assert image == image[..0x1014] + image[0x1014..0x1814] + image[0x1814..];
  }
}
