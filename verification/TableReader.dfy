/** Reading a partition table from a file into an array of slots, and looking entries up. */
module TableReader {
  import opened Bytes
  import opened Results
  import opened Text
  import opened PartitionTable
  import opened Files

  // ---------------------------------------------------------------- add_flash_partition

  lemma {:induction false} InsertIsUpdate(slots: seq<Slot>, i: nat, e: FlashEntry)
    requires i < |slots| && slots[i].Free() && forall k :: 0 <= k < i ==> !slots[k].Free()
    ensures Insert(slots, e) == Some(slots[i := Slot(Some(e.name), e.base, e.size)])
  {
    if i == 0 {
      assert slots[0 := Slot(Some(e.name), e.base, e.size)] == [Slot(Some(e.name), e.base, e.size)] + slots[1..];
    } else {
      InsertIsUpdate(slots[1..], i - 1, e);
      assert slots[i := Slot(Some(e.name), e.base, e.size)]
          == [slots[0]] + slots[1..][i - 1 := Slot(Some(e.name), e.base, e.size)];
    }
  }

  lemma {:induction false} InsertFails(slots: seq<Slot>, e: FlashEntry)
    requires forall k :: 0 <= k < |slots| ==> !slots[k].Free()
    ensures Insert(slots, e) == None
  {
    if slots == [] {
    } else {
      InsertFails(slots[1..], e);
    }
  }

  /** `base` and `size` are unsigned longs; the entry keeps 32 bits of them. */
  method AddFlashPartition(entries: array<Slot>, name: seq<byte>, base: nat,
      size: nat) returns (failure: Option<Failure>)
    modifies entries
    ensures match Insert(old(entries[..]), FlashEntry(name, base % 0x1_0000_0000, size % 0x1_0000_0000))
            case None => failure == Some(TableFull) && entries[..] == old(entries[..])
            case Some(slots) => failure == None && entries[..] == slots
  {
    ghost var e := FlashEntry(name, base % 0x1_0000_0000, size % 0x1_0000_0000);
    var ptr := 0;
    while ptr < entries.Length
      invariant ptr <= entries.Length
      invariant forall k :: 0 <= k < ptr ==> !entries[k].Free()
    {
      if entries[ptr].name == None && entries[ptr].base == 0 && entries[ptr].size == 0 {
        break;
      }
      ptr := ptr + 1;
    }
    if ptr == entries.Length {
      InsertFails(entries[..], e);
      return Some(TableFull);
    }
    InsertIsUpdate(entries[..], ptr, e);
    entries[ptr] := Slot(Some(name), base % 0x1_0000_0000, size % 0x1_0000_0000);
    return None;
  }

  // ---------------------------------------------------------------- read_partition_table

  /** Behind the first `i` spaces of a line, memchr finds the next one. */
  lemma NextSpace(text: seq<byte>, start: nat, e: nat, i: nat, p: nat)
    requires start <= e <= |text|
    requires var sp := Spaces(text, start, e);
             i <= |sp| && p == if i == 0 then start else sp[i - 1] + 1
    ensures p <= e
    ensures IndexOf(text[..e], SPACE, p) == if i < |Spaces(text, start, e)| then Spaces(text, start, e)[i] else e
  {
    hide IndexOf, Spaces;
    var sp := Spaces(text, start, e);
    var j := IndexOf(text[..e], SPACE, p);
    if i < |sp| {
      assert p <= sp[i] && text[..e][sp[i]] == SPACE;
    }
    if j < e {
      assert text[j] == text[..e][j];
      var m := SpaceListed(text, start, e, j);
      assert m >= i;
    }
  }

  lemma {:induction false} SpaceListed(text: seq<byte>, lo: nat, e: nat, k: nat) returns (m: nat)
    requires lo <= k < e <= |text| && text[k] == SPACE
    ensures m < |Spaces(text, lo, e)| && Spaces(text, lo, e)[m] == k
    decreases e - lo
  {
    if k == lo {
      m := 0;
    } else {
      m := SpaceListed(text, lo + 1, e, k);
      if text[lo] == SPACE {
        m := m + 1;
      }
    }
  }

  lemma LineEndsEarly(text: seq<byte>, p: nat, e: nat, ptr: nat)
    requires p < e <= |text|
    requires var sp := Spaces(text, p, e); |sp| < 5 && ptr == if |sp| == 0 then p else sp[|sp| - 1] + 1
    ensures ParseLine(text, p, e) == if ptr == e then Cut else Bad
  {
    hide Spaces;
  }

  lemma LineIsEntry(text: seq<byte>, p: nat, e: nat, name: seq<byte>, base: nat, size: nat)
    requires p < e <= |text|
    requires var sp := Spaces(text, p, e);
             && |sp| >= 5
             && name == UpToNul(Clip(text[sp[0] + 1..sp[1]]))
             && base == Strtoul(text, sp[2] + 1)
             && size == Strtoul(text, sp[4] + 1)
    ensures ParseLine(text, p, e) == Entry(FlashEntry(name, base % 0x1_0000_0000, size % 0x1_0000_0000))
  {
    hide Spaces, Clip, UpToNul, Strtoul;
  }

  /** strncpy of at most 31 bytes into a zeroed array of 32: the C string the array then holds. */
  method CopyName(text: seq<byte>, ptr: nat, endElement: nat) returns (name: seq<byte>)
    requires ptr <= endElement <= |text|
    ensures name == UpToNul(Clip(text[ptr..endElement]))
  {
    var nameLen := if endElement - ptr > 31 then 31 else endElement - ptr;
    assert text[ptr..ptr + nameLen] == Clip(text[ptr..endElement]);
    name := UpToNul(text[ptr..ptr + nameLen]);
  }

  /** The five elements of the line that starts at `start` and has its newline at `endPart`. */
  method ReadLine(text: seq<byte>, start: nat, endPart: nat) returns (ptr: nat, line: LineResult)
    requires start < endPart < |text|
    ensures line == ParseLine(text, start, endPart)
    ensures line.Cut? ==> ptr == endPart
    ensures line.Entry? ==> ptr == endPart + 1
  {
    hide ParseLine, Spaces, Strtoul, IndexOf, Clip, UpToNul;
    ghost var sp := Spaces(text, start, endPart);
    ptr := start;
    var name: seq<byte> := [];
    var base: nat := 0;
    var i := 0;
    while i <= 4
      invariant 0 <= i <= 4 && i <= |sp|
      invariant ptr == if i == 0 then start else sp[i - 1] + 1
      invariant i >= 2 ==> name == UpToNul(Clip(text[sp[0] + 1..sp[1]]))
      invariant i >= 4 ==> base == Strtoul(text, sp[2] + 1)
    {
      NextSpace(text, start, endPart, i, ptr);
      if endPart <= ptr {
        break;
      }
      var endElement := IndexOf(text[..endPart], SPACE, ptr);
      if endElement == endPart {
        LineEndsEarly(text, start, endPart, ptr);
        return ptr, Bad;
      }
      if i == 1 {
        name := CopyName(text, ptr, endElement);
      } else if i == 3 {
        base := Strtoul(text, ptr);
      } else if i == 4 {
        var size := Strtoul(text, endElement + 1);
        LineIsEntry(text, start, endPart, name, base, size);
        return endPart + 1, Entry(FlashEntry(name, base % 0x1_0000_0000, size % 0x1_0000_0000));
      }
      ptr := endElement + 1;
      i := i + 1;
    }
    LineEndsEarly(text, start, endPart, ptr);
    line := Cut;
  }

  lemma NoHeaderAtNewline(text: seq<byte>, kind: Kind, p: nat, slots: seq<Slot>)
    requires p < |text| && text[p] == NEWLINE
    ensures ParseFrom(text, kind, p, slots) == Ok(slots)
  {
    if p + |Header(kind)| <= |text| {
      assert text[p..p + |Header(kind)|][0] == NEWLINE;
    }
  }

  /** What the uninitialised buffer of read_partition_table may hold. */
  type TableBuffer = s: seq<byte> | |s| == 2048 witness seq(2048, _ => 0)

  /**
   * The 2048-byte buffer a table is parsed from: the bytes of the file from `offset` on, what the stack held (`junk`)
   * where the file is shorter, and a zero at the end.
   */
  function Window(file: seq<byte>, offset: nat, junk: TableBuffer): (text: seq<byte>)
    ensures |text| == 2048
    ensures text[2047] == 0
    ensures forall k :: 0 <= k < 2047 ==> text[k] == if offset + k < |file| then file[offset + k] else junk[k]
  {
    seq(2048, k requires 0 <= k < 2048 =>
      if k == 2047 then 0 else if offset + k < |file| then file[offset + k] else junk[k])
  }

  /** As far as the file reaches the buffer is a piece of it, whatever the stack held. */
  lemma WindowHoldsFile(file: seq<byte>, offset: nat, junk: TableBuffer, n: nat)
    requires n < 2048 && offset + n <= |file|
    ensures Window(file, offset, junk)[..n] == file[offset..offset + n]
  {
  }

  /** `junk` is what the uninitialised buffer holds. */
  method ReadPartitionTable(file: File, offset: nat, entries: array<Slot>, kind: Kind, junk: TableBuffer)
    returns (failure: Option<Failure>)
    modifies file`pos, entries
    ensures match ReadTable(Window(file.data, offset, junk), kind, old(entries[..]))
            case Err(f) => failure == Some(f)
            case Ok(slots) => failure == None && entries[..] == slots
  {
    hide ParseFrom, Header, Insert;
    file.Seek(offset);
    var buf := new byte[2048](i requires 0 <= i < 2048 => junk[i]);
    file.Read(buf, 2048);
    buf[2047] := 0;
    assert buf[..] == Window(file.data, offset, junk);
    failure := ReadLines(buf[..], entries, kind);
  }

  /** The part after the buffer is filled. */
  method ReadLines(text: seq<byte>, entries: array<Slot>, kind: Kind) returns (failure: Option<Failure>)
    requires |text| == 2048
    modifies entries
    ensures match ReadTable(text, kind, old(entries[..]))
            case Err(f) => failure == Some(f)
            case Ok(slots) => failure == None && entries[..] == slots
  {
    hide ParseLine, Insert, IndexOf, Header, ParseFrom;
    var hdr := Header(kind);
    if text[..|hdr|] != hdr {
      return Some(NoHeader);
    }
    var ptr := 0;
    while ptr + |hdr| < 2048 && text[ptr..ptr + |hdr|] == hdr
      invariant ptr <= 2048
      invariant ParseFrom(text, kind, ptr, entries[..]) == ParseFrom(text, kind, 0, old(entries[..]))
      decreases 2048 - ptr
    {
      ParseStep(text, kind, ptr, entries[..]);
      var endPart := IndexOf(text, NEWLINE, ptr);
      if endPart == 2048 {
        return None;
      }
      assert text[ptr..ptr + |hdr|][0] == hdr[0];
      var line: LineResult;
      ptr, line := ReadLine(text, ptr, endPart);
      if line == Bad {
        return Some(BadLine);
      }
      if line.Entry? {
        failure := AddFlashPartition(entries, line.entry.name, line.entry.base, line.entry.size);
        if failure != None {
          return;
        }
      } else {
        NoHeaderAtNewline(text, kind, ptr, entries[..]);
      }
    }
    ParseStep(text, kind, ptr, entries[..]);
    failure := None;
  }

  lemma ParseStep(text: seq<byte>, kind: Kind, p: nat, slots: seq<Slot>)
    requires p <= |text|
    ensures var e := IndexOf(text, NEWLINE, p);
            ParseFrom(text, kind, p, slots)
            == if !HasHeader(text, Header(kind), p) || e == |text| then Ok(slots)
               else match ParseLine(text, p, e)
                    case Bad => Err(BadLine)
                    case Cut => Ok(slots)
                    case Entry(entry) =>
                      match Insert(slots, entry)
                      case None => Err(TableFull)
                      case Some(more) => ParseFrom(text, kind, e + 1, more)
  {
    hide ParseLine, Insert, IndexOf, Header;
  }

  // ---------------------------------------------------------------- find_partition

  /** The first entry of that name; an empty slot met on the way has no name to compare with. */
  function Find(slots: seq<Slot>, name: seq<byte>): Result<FlashEntry>
  {
    if slots == [] then Err(NotFound)
    else match slots[0].name
      case None => Err(NullName)
      case Some(n) =>
        if n == name then Ok(FlashEntry(n, slots[0].base, slots[0].size)) else Find(slots[1..], name)
  }

  method FindPartition(entries: array<Slot>, name: seq<byte>) returns (r: Result<FlashEntry>)
    ensures r == Find(entries[..], name)
  {
    assert entries[0..] == entries[..];
    for i := 0 to entries.Length
      invariant Find(entries[..], name) == Find(entries[i..], name)
    {
      assert entries[i..][0] == entries[i] && entries[i..][1..] == entries[i + 1..];
      match entries[i].name {
        case None => return Err(NullName);
        case Some(n) =>
          if n == name {
            return Ok(FlashEntry(n, entries[i].base, entries[i].size));
          }
      }
    }
    r := Err(NotFound);
  }

  /** In an array that a list was read into, exactly the names of the list are found, first occurrence first. */
  lemma {:induction false} FindInFilled(es: seq<FlashEntry>, n: nat, name: seq<byte>)
    requires |es| <= n
    ensures Find(Filled(es, n), name)
         == match Lookup(es, name)
            case Some(e) => Ok(e)
            case None => if |es| < n then Err(NullName) else Err(NotFound)
    decreases n
  {
    if es == [] {
    } else {
      assert Filled(es, n)[1..] == Filled(es[1..], n - 1);
      FindInFilled(es[1..], n - 1, name);
    }
  }
}
