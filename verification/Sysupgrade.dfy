/** The sysupgrade image: a slice of the flash, from the first to the last partition that is upgraded. */
module Sysupgrade {
  import opened Bytes
  import opened Results
  import opened PartitionTable
  import opened Factory

  // ---------------------------------------------------------------- finding partitions

  /** The index of the last entry of that name. */
  function LastIndex(flash: seq<FlashEntry>, name: seq<byte>): (r: Option<nat>)
    ensures r.Some? ==> r.value < |flash| && flash[r.value].name == name
    ensures r.Some? ==> forall i :: r.value < i < |flash| ==> flash[i].name != name
    ensures r.None? ==> forall i :: 0 <= i < |flash| ==> flash[i].name != name
  {
    if flash == [] then None
    else if flash[|flash| - 1].name == name then Some(|flash| - 1)
    else LastIndex(flash[..|flash| - 1], name)
  }

  /** The first part of that name. */
  function PartNamed(parts: seq<Part>, name: seq<byte>): (r: Option<Part>)
    ensures r.Some? ==> r.value in parts && r.value.name == name
    ensures r.None? ==> forall p :: p in parts ==> p.name != name
  {
    if parts == [] then None else if parts[0].name == name then Some(parts[0]) else PartNamed(parts[1..], name)
  }

  /** A board whose two names are equal has no last partition: the first name is compared first. */
  function Range(board: Board): (r: Option<(nat, nat)>)
    ensures r.Some? ==> r.value.0 < r.value.1 < |board.flash|
  {
    match (LastIndex(board.flash, board.first), LastIndex(board.flash, board.last))
    case (Some(i), Some(j)) => if board.first != board.last && i < j then Some((i, j)) else None
    case _ => None
  }

  method FindRange(board: Board) returns (r: Option<(nat, nat)>)
    ensures r == Range(board)
  {
    hide LastIndex;
    var flash := board.flash;
    var firstIndex: Option<nat>, lastIndex: Option<nat> := None, None;
    for i := 0 to |flash|
      invariant firstIndex == LastIndex(flash[..i], board.first)
      invariant lastIndex == if board.first == board.last then None else LastIndex(flash[..i], board.last)
    {
      assert flash[..i + 1][..i] == flash[..i];
      LastIndexStep(flash[..i + 1], board.first);
      LastIndexStep(flash[..i + 1], board.last);
      if flash[i].name == board.first {
        firstIndex := Some(i);
      } else if flash[i].name == board.last {
        lastIndex := Some(i);
      }
    }
    assert flash[..|flash|] == flash;
    if firstIndex == None || lastIndex == None || firstIndex.value >= lastIndex.value {
      return None;
    }
    r := Some((firstIndex.value, lastIndex.value));
  }

  lemma LastIndexStep(flash: seq<FlashEntry>, name: seq<byte>)
    requires flash != []
    ensures LastIndex(flash, name)
         == if flash[|flash| - 1].name == name then Some(|flash| - 1) else LastIndex(flash[..|flash| - 1], name)
  {}

  // ---------------------------------------------------------------- copying

  /** Where entry `i` goes in an image that starts at flash address `origin`. */
  function Offset(e: FlashEntry, origin: nat): int { e.base - origin }

  /** The parts of the entries, each copied to its place; a copy that leaves the image is an invalid access. */
  function Overlay(image: seq<byte>, entries: seq<FlashEntry>, parts: seq<Part>, origin: nat): (r: Result<seq<byte>>)
    ensures r.Ok? ==> |r.value| == |image|
    decreases |entries|
  {
    if entries == [] then Ok(image)
    else match PartNamed(parts, entries[0].name)
      case None => Overlay(image, entries[1..], parts, origin)
      case Some(p) =>
        var off := Offset(entries[0], origin);
        if |p.data| > entries[0].size then Err(PartitionTooBig)
        else if p.data != [] && !(0 <= off && off + |p.data| <= |image|) then Err(OutsideBuffer)
        else Overlay(if p.data == [] then image else Splice(image, off, p.data), entries[1..], parts, origin)
  }

  function SysupgradeLength(first: FlashEntry, last: FlashEntry, lastPart: Part): nat
  {
    (last.base - first.base) % 0x1_0000_0000 + |lastPart.data|
  }

  function SysupgradeImage(board: Board, parts: seq<Part>): Result<seq<byte>>
  {
    match Range(board)
    case None => Err(SysupgradeRangeMissing)
    case Some((i, j)) =>
      match PartNamed(parts, board.last)
      case None => Err(LastPartMissing)
      case Some(p) =>
        var len := SysupgradeLength(board.flash[i], board.flash[j], p);
        Overlay(Fill(len, 0xff), board.flash[i..j + 1], parts, board.flash[i].base)
  }

  method FindPart(parts: seq<Part>, name: seq<byte>) returns (r: Option<Part>)
    ensures r == PartNamed(parts, name)
  {
    assert parts[0..] == parts;
    for j := 0 to |parts|
      invariant PartNamed(parts, name) == PartNamed(parts[j..], name)
    {
      assert parts[j..][0] == parts[j] && parts[j..][1..] == parts[j + 1..];
      if parts[j].name == name {
        return Some(parts[j]);
      }
    }
    r := None;
  }

  method GenerateSysupgradeImage(board: Board, parts: seq<Part>) returns (failure: Option<Failure>, image: array<byte>)
    ensures match SysupgradeImage(board, parts)
            case Err(f) => failure == Some(f)
            case Ok(s) => failure == None && image[..] == s
  {
    hide PartNamed, LastIndex, Range, Overlay;
    image := new byte[0];
    var range := FindRange(board);
    if range == None {
      return Some(SysupgradeRangeMissing), image;
    }
    var (first, last) := range.value;
    var lastPart := FindPart(parts, board.last);
    if lastPart == None {
      return Some(LastPartMissing), image;
    }
    var flash := board.flash;
    var len := (flash[last].base - flash[first].base) % 0x1_0000_0000 + |lastPart.value.data|;
    image := new byte[len](_ => 0xff);
    assert image[..] == Fill(len, 0xff);
    failure := CopyParts(image, flash[first..last + 1], parts, flash[first].base);
  }

  method CopyParts(image: array<byte>, entries: seq<FlashEntry>, parts: seq<Part>, origin: nat)
    returns (failure: Option<Failure>)
    modifies image
    ensures match Overlay(old(image[..]), entries, parts, origin)
            case Err(f) => failure == Some(f)
            case Ok(s) => failure == None && image[..] == s
  {
    hide PartNamed, Splice;
    assert entries[0..] == entries;
    for i := 0 to |entries|
      invariant Overlay(old(image[..]), entries, parts, origin) == Overlay(image[..], entries[i..], parts, origin)
    {
      assert entries[i..][0] == entries[i] && entries[i..][1..] == entries[i + 1..];
      var p := FindPart(parts, entries[i].name);
      if p.Some? {
        var data := p.value.data;
        if |data| > entries[i].size {
          return Some(PartitionTooBig);
        }
        var off := entries[i].base - origin;
        if data != [] {
          if off < 0 || off + |data| > image.Length {
            return Some(OutsideBuffer);
          }
          Memcpy(image, off, data);
        }
      }
    }
    failure := None;
  }

  // ---------------------------------------------------------------- an image is an overlay of the flash

  /** Entries in the order of their addresses, none reaching into the next. */
  ghost predicate Sorted(entries: seq<FlashEntry>)
  {
    forall i, j :: 0 <= i < j < |entries| ==> entries[i].base + entries[i].size <= entries[j].base
  }

  ghost predicate PartsFit(entries: seq<FlashEntry>, parts: seq<Part>)
  {
    forall e :: e in entries ==> PartNamed(parts, e.name).Some? ==> |PartNamed(parts, e.name).value.data| <= e.size
  }

  /** Entry `e` has data for the flash address `address`. */
  predicate Covers(e: FlashEntry, parts: seq<Part>, address: nat)
  {
    PartNamed(parts, e.name).Some? && e.base <= address < e.base + |PartNamed(parts, e.name).value.data|
  }

  /** What the flash holds at an address once the parts are in it: the byte of the part there, or else `blank`. */
  function FlashByte(entries: seq<FlashEntry>, parts: seq<Part>, address: nat, blank: byte): byte
  {
    if entries == [] then blank
    else if Covers(entries[0], parts, address) then
      PartNamed(parts, entries[0].name).value.data[address - entries[0].base]
    else FlashByte(entries[1..], parts, address, blank)
  }

  /** Every part of a sorted run of entries lies inside an image of `len` bytes. */
  ghost predicate Inside(entries: seq<FlashEntry>, parts: seq<Part>, origin: nat, len: nat)
  {
    forall e :: e in entries && PartNamed(parts, e.name).Some? ==>
      origin <= e.base && e.base + |PartNamed(parts, e.name).value.data| <= origin + len
  }

  /** The image with the part of one entry in it. */
  function WithPart(image: seq<byte>, e: FlashEntry, parts: seq<Part>, origin: nat): (r: seq<byte>)
    requires Inside([e], parts, origin, |image|)
    ensures |r| == |image|
  {
    var p := PartNamed(parts, e.name);
    assert e in [e];
    if p.None? || p.value.data == [] then image else Splice(image, e.base - origin, p.value.data)
  }

  lemma WithoutFirst(entries: seq<FlashEntry>, parts: seq<Part>, origin: nat, len: nat)
    requires entries != [] && Sorted(entries) && PartsFit(entries, parts) && Inside(entries, parts, origin, len)
    ensures Sorted(entries[1..]) && PartsFit(entries[1..], parts) && Inside(entries[1..], parts, origin, len)
    ensures Inside([entries[0]], parts, origin, len)
    ensures forall x :: x in entries[1..] ==> entries[0].base + entries[0].size <= x.base
    ensures PartNamed(parts, entries[0].name).Some? ==>
              |PartNamed(parts, entries[0].name).value.data| <= entries[0].size
  {
    hide PartNamed;
    assert entries[0] in entries && forall x :: x in entries[1..] ==> x in entries;
  }

  lemma OverlayStep(image: seq<byte>, entries: seq<FlashEntry>, parts: seq<Part>, origin: nat)
    requires entries != [] && PartsFit(entries, parts) && Inside([entries[0]], parts, origin, |image|)
    ensures Overlay(image, entries, parts, origin)
         == Overlay(WithPart(image, entries[0], parts, origin), entries[1..], parts, origin)
  {
    hide PartNamed, Splice;
    assert entries[0] in entries && entries[0] in [entries[0]];
  }

  lemma WithPartBytes(image: seq<byte>, e: FlashEntry, parts: seq<Part>, origin: nat, k: nat)
    requires Inside([e], parts, origin, |image|) && k < |image|
    ensures WithPart(image, e, parts, origin)[k]
         == if Covers(e, parts, origin + k) then PartNamed(parts, e.name).value.data[origin + k - e.base] else image[k]
  {
    hide PartNamed, Splice;
    assert e in [e];
  }

  lemma {:induction false} OverlayBytes(image: seq<byte>, entries: seq<FlashEntry>, parts: seq<Part>, origin: nat)
    requires Sorted(entries) && PartsFit(entries, parts) && Inside(entries, parts, origin, |image|)
    ensures Overlay(image, entries, parts, origin).Ok?
    ensures forall k :: 0 <= k < |image| ==>
              Overlay(image, entries, parts, origin).value[k] == FlashByte(entries, parts, origin + k, image[k])
    decreases |entries|
  {
    hide PartNamed, WithPart, Sorted, PartsFit, Inside, Covers;
    if entries == [] {
    } else {
      var e, rest := entries[0], entries[1..];
      WithoutFirst(entries, parts, origin, |image|);
      OverlayStep(image, entries, parts, origin);
      var next := WithPart(image, e, parts, origin);
      OverlayBytes(next, rest, parts, origin);
      hide Overlay, FlashByte;
      forall k | 0 <= k < |image|
        ensures FlashByte(entries, parts, origin + k, image[k]) == FlashByte(rest, parts, origin + k, next[k])
      {
        WithPartBytes(image, e, parts, origin, k);
        FirstEntry(entries, parts, origin + k, image[k], next[k]);
      }
    }
  }

  /** The byte an entry puts at an address is the one the flash holds there, whatever the entries behind it. */
  lemma FirstEntry(entries: seq<FlashEntry>, parts: seq<Part>, address: nat, blank: byte, next: byte)
    requires entries != [] && forall x :: x in entries[1..] ==> entries[0].base + entries[0].size <= x.base
    requires var p := PartNamed(parts, entries[0].name);
             && (p.Some? ==> |p.value.data| <= entries[0].size)
             && next == if Covers(entries[0], parts, address) then p.value.data[address - entries[0].base] else blank
    ensures FlashByte(entries, parts, address, blank) == FlashByte(entries[1..], parts, address, next)
  {
    hide PartNamed;
    if Covers(entries[0], parts, address) {
      NotCoveredLater(entries[0], entries[1..], parts, address, next);
    }
  }

  /** Behind an entry that covers an address no further one does. */
  lemma {:induction false} NotCoveredLater(e: FlashEntry, rest: seq<FlashEntry>, parts: seq<Part>, address: nat,
      blank: byte)
    requires forall x :: x in rest ==> e.base + e.size <= x.base
    requires Covers(e, parts, address) && |PartNamed(parts, e.name).value.data| <= e.size
    ensures FlashByte(rest, parts, address, blank) == blank
    decreases |rest|
  {
    hide PartNamed;
    if rest == [] {
    } else {
      assert rest[0] in rest;
      NotCoveredLater(e, rest[1..], parts, address, blank);
    }
  }

  /** The parts of a sorted run lie between its first address and the end of the data of its last entry. */
  lemma RunIsInside(entries: seq<FlashEntry>, parts: seq<Part>)
    requires |entries| >= 2 && Sorted(entries) && PartsFit(entries, parts)
    requires PartNamed(parts, entries[|entries| - 1].name).Some?
    ensures var first, last := entries[0], entries[|entries| - 1];
            && first.base <= last.base
            && Inside(entries, parts, first.base, last.base - first.base + |PartNamed(parts, last.name).value.data|)
  {
    hide PartNamed;
    var first, last := entries[0], entries[|entries| - 1];
    forall e | e in entries && PartNamed(parts, e.name).Some?
      ensures first.base <= e.base
      ensures e.base + |PartNamed(parts, e.name).value.data| <= last.base + |PartNamed(parts, last.name).value.data|
    {
      var k :| 0 <= k < |entries| && entries[k] == e;
      assert k == 0 || first.base + first.size <= e.base;
      assert k == |entries| - 1 || e.base + e.size <= last.base;
    }
  }

  /**
   * For a flash whose upgraded partitions are sorted and do not overlap, and parts that fit their partitions, no copy
   * leaves the image, and every byte of it is the byte the flash is to hold at that address, or 0xff where no part is.
   */
  lemma SysupgradeIsFlashOverlay(board: Board, parts: seq<Part>)
    requires Range(board).Some? && PartNamed(parts, board.last).Some?
    requires var (i, j) := Range(board).value;
             Sorted(board.flash[i..j + 1]) && PartsFit(board.flash[i..j + 1], parts)
    ensures var (i, j) := Range(board).value;
            var r := SysupgradeImage(board, parts);
            && r.Ok?
            && |r.value| == board.flash[j].base - board.flash[i].base + |PartNamed(parts, board.last).value.data|
            && forall k :: 0 <= k < |r.value| ==>
                 r.value[k] == FlashByte(board.flash[i..j + 1], parts, board.flash[i].base + k, 0xff)
  {
    hide PartNamed, LastIndex, Overlay, FlashByte, Inside, Sorted, PartsFit, Range;
    var (i, j) := Range(board).value;
    var entries := board.flash[i..j + 1];
    assert entries[0] == board.flash[i] && entries[|entries| - 1] == board.flash[j];
    RangeEnds(board);
    RunIsInside(entries, parts);
    var len := SysupgradeLength(board.flash[i], board.flash[j], PartNamed(parts, board.last).value);
    OverlayBytes(Fill(len, 0xff), entries, parts, board.flash[i].base);
  }

  lemma RangeEnds(board: Board)
    requires Range(board).Some?
    ensures board.flash[Range(board).value.0].name == board.first
        && board.flash[Range(board).value.1].name == board.last
  {}

  // ---------------------------------------------------------------- every outcome, for every layout

  /** The range runs from the last entry of the first name to the last entry of the other, if that comes later. */
  lemma RangeIs(board: Board, i: nat, j: nat)
    ensures Range(board) == Some((i, j))
            <==> (&& board.first != board.last && i < j < |board.flash|
                  && board.flash[i].name == board.first && board.flash[j].name == board.last
                  && (forall n :: i < n < |board.flash| ==> board.flash[n].name != board.first)
                  && (forall n :: j < n < |board.flash| ==> board.flash[n].name != board.last))
  {
    hide LastIndex;
    var f, l := LastIndex(board.flash, board.first), LastIndex(board.flash, board.last);
    if i < j < |board.flash| && f.Some? && l.Some? {
      assert f.value == i || f.value < i || f.value > i;
      assert l.value == j || l.value < j || l.value > j;
    }
  }

  /** The part of an entry is larger than the partition. */
  predicate TooBig(e: FlashEntry, parts: seq<Part>)
  {
    PartNamed(parts, e.name).Some? && |PartNamed(parts, e.name).value.data| > e.size
  }

  /** Copying the part of an entry would leave an image of `len` bytes. */
  predicate Leaves(e: FlashEntry, parts: seq<Part>, origin: nat, len: nat)
  {
    && PartNamed(parts, e.name).Some? && PartNamed(parts, e.name).value.data != []
    && !(origin <= e.base && e.base + |PartNamed(parts, e.name).value.data| <= origin + len)
  }

  predicate Bad(e: FlashEntry, parts: seq<Part>, origin: nat, len: nat)
  {
    TooBig(e, parts) || Leaves(e, parts, origin, len)
  }

  /** The index of the first bad entry. */
  function FirstBad(entries: seq<FlashEntry>, parts: seq<Part>, origin: nat, len: nat): (r: Option<nat>)
    ensures r.Some? ==> r.value < |entries| && Bad(entries[r.value], parts, origin, len)
    ensures r.Some? ==> forall n :: 0 <= n < r.value ==> !Bad(entries[n], parts, origin, len)
    ensures r.None? ==> forall n :: 0 <= n < |entries| ==> !Bad(entries[n], parts, origin, len)
  {
    if entries == [] then None
    else if Bad(entries[0], parts, origin, len) then Some(0)
    else match FirstBad(entries[1..], parts, origin, len)
      case None => None
      case Some(m) => Some(m + 1)
  }

  /** The failure of an entry that is bad: the size is checked first. */
  function FailureOf(e: FlashEntry, parts: seq<Part>): Failure
  {
    if TooBig(e, parts) then PartitionTooBig else OutsideBuffer
  }

  /** What the last entry that has data for an address puts there. */
  function LastByte(entries: seq<FlashEntry>, parts: seq<Part>, address: nat, blank: byte): byte
  {
    if entries == [] then blank
    else
      var front, e := entries[..|entries| - 1], entries[|entries| - 1];
      if Covers(e, parts, address) then PartNamed(parts, e.name).value.data[address - e.base]
      else LastByte(front, parts, address, blank)
  }

  lemma {:induction false} LastByteCons(e: FlashEntry, rest: seq<FlashEntry>, parts: seq<Part>, address: nat,
      blank: byte)
    ensures LastByte([e] + rest, parts, address, blank)
         == LastByte(rest, parts, address,
                     if Covers(e, parts, address) then PartNamed(parts, e.name).value.data[address - e.base] else blank)
    decreases |rest|
  {
    hide PartNamed;
    if rest == [] {
      assert [e] + rest == [e] && [e][..0] == [];
    } else {
      var front := rest[..|rest| - 1];
      assert ([e] + rest)[..|rest|] == [e] + front;
      LastByteCons(e, front, parts, address, blank);
    }
  }

  /** The outcome of the copies: the first bad entry decides, and without one the last copy to an address stays. */
  lemma {:induction false} OverlayOutcome(image: seq<byte>, entries: seq<FlashEntry>, parts: seq<Part>, origin: nat)
    ensures var r, bad := Overlay(image, entries, parts, origin), FirstBad(entries, parts, origin, |image|);
            && (bad.Some? ==> r == Err(FailureOf(entries[bad.value], parts)))
            && (bad.None? ==> r.Ok? && forall k :: 0 <= k < |image| ==>
                  r.value[k] == LastByte(entries, parts, origin + k, image[k]))
    decreases |entries|
  {
    hide PartNamed, LastByte, Splice, Bad;
    if entries == [] {
      NoEntries(parts, origin);
    } else {
      var e, rest := entries[0], entries[1..];
      assert entries == [e] + rest;
      if Bad(e, parts, origin, |image|) {
        BadFirst(image, entries, parts, origin);
      } else {
        var next := AfterCopy(image, e, parts, origin);
        AfterCopyBytes(image, e, parts, origin);
        OverlayOutcome(next, rest, parts, origin);
        GoodFirst(image, entries, parts, origin);
        hide Overlay;
        forall k | 0 <= k < |image|
          ensures LastByte(entries, parts, origin + k, image[k]) == LastByte(rest, parts, origin + k, next[k])
        {
          LastByteCons(e, rest, parts, origin + k, image[k]);
        }
      }
    }
  }

  lemma NoEntries(parts: seq<Part>, origin: nat)
    ensures forall address, blank :: LastByte([], parts, address, blank) == blank
  {}

  /** The image behind the copy of one entry. */
  function AfterCopy(image: seq<byte>, e: FlashEntry, parts: seq<Part>, origin: nat): (r: seq<byte>)
    requires !Bad(e, parts, origin, |image|)
    ensures |r| == |image|
  {
    var p := PartNamed(parts, e.name);
    if p.None? || p.value.data == [] then image else Splice(image, e.base - origin, p.value.data)
  }

  lemma AfterCopyBytes(image: seq<byte>, e: FlashEntry, parts: seq<Part>, origin: nat)
    requires !Bad(e, parts, origin, |image|)
    ensures forall k :: 0 <= k < |image| ==>
              AfterCopy(image, e, parts, origin)[k]
              == if Covers(e, parts, origin + k) then PartNamed(parts,
                  e.name).value.data[origin + k - e.base] else image[k]
  {
    hide PartNamed, Splice;
  }

  lemma GoodFirst(image: seq<byte>, entries: seq<FlashEntry>, parts: seq<Part>, origin: nat)
    requires entries != [] && !Bad(entries[0], parts, origin, |image|)
    ensures Overlay(image, entries, parts, origin)
         == Overlay(AfterCopy(image, entries[0], parts, origin), entries[1..], parts, origin)
  {
    hide PartNamed, Splice;
  }

  lemma BadFirst(image: seq<byte>, entries: seq<FlashEntry>, parts: seq<Part>, origin: nat)
    requires entries != [] && Bad(entries[0], parts, origin, |image|)
    ensures Overlay(image, entries, parts, origin) == Err(FailureOf(entries[0], parts))
  {
    hide PartNamed, Splice;
  }

  /** The entries from the first to the last one that sysupgrade copies. */
  function Upgraded(board: Board): seq<FlashEntry>
    requires Range(board).Some?
  {
    board.flash[Range(board).value.0..Range(board).value.1 + 1]
  }

  /**
   * Every outcome, for every layout and every parts. The first entry of the run whose part is larger than the partition
   * or would leave the image decides; without one, every byte is what the last entry with data for its address puts
   * there, or 0xff. Bases are subtracted as 32-bit numbers.
   */
  lemma SysupgradeOutcome(board: Board, parts: seq<Part>)
    ensures Range(board) == None ==> SysupgradeImage(board, parts) == Err(SysupgradeRangeMissing)
    ensures Range(board) != None && PartNamed(parts, board.last) == None ==>
              SysupgradeImage(board, parts) == Err(LastPartMissing)
    ensures Range(board) != None && PartNamed(parts, board.last) != None ==> Generated(board, parts)
  {
    hide PartNamed, Overlay, LastByte, Bad, FirstBad;
    if Range(board) != None && PartNamed(parts, board.last) != None {
      var (i, j) := Range(board).value;
      var len := SysupgradeLength(board.flash[i], board.flash[j], PartNamed(parts, board.last).value);
      OverlayOutcome(Fill(len, 0xff), board.flash[i..j + 1], parts, board.flash[i].base);
    }
  }

  /** From the first base to the last one, as a 32-bit number, and the last part. */
  function ImageLength(board: Board, parts: seq<Part>): nat
    requires Range(board) != None && PartNamed(parts, board.last) != None
  {
    var origin, end := Upgraded(board)[0].base, Upgraded(board)[|Upgraded(board)| - 1].base;
    (if origin <= end then end - origin else end + 0x1_0000_0000 - origin) + |PartNamed(parts, board.last).value.data|
  }

  ghost predicate Generated(board: Board, parts: seq<Part>)
    requires Range(board) != None && PartNamed(parts, board.last) != None
  {
    var run, r, len := Upgraded(board), SysupgradeImage(board, parts), ImageLength(board, parts);
    var bad := FirstBad(run, parts, run[0].base, len);
    && (bad.Some? ==> r == Err(FailureOf(run[bad.value], parts)))
    && (bad.None? ==> r.Ok? && |r.value| == len && forall k :: 0 <= k < len ==>
          r.value[k] == LastByte(run, parts, run[0].base + k, 0xff))
  }

  /** For a sorted run the size check is exact: there is an image if and only if every part fits its partition. */
  lemma SizeCheckIsExact(board: Board, parts: seq<Part>)
    requires Range(board) != None && PartNamed(parts, board.last) != None && Sorted(Upgraded(board))
    ensures SysupgradeImage(board, parts).Ok? <==> PartsFit(Upgraded(board), parts)
    ensures !PartsFit(Upgraded(board), parts) ==> SysupgradeImage(board, parts) == Err(PartitionTooBig)
  {
    hide PartNamed, SysupgradeImage, Range, LastByte, Bad, FirstBad, ImageLength, TooBig;
    SysupgradeOutcome(board, parts);
    var run, len := Upgraded(board), ImageLength(board, parts);
    var bad := FirstBad(run, parts, run[0].base, len);
    OnlySizesAreBad(board, parts);
    if bad.Some? {
      assert run[bad.value] in run;
    }
    SizesDecide(run, parts);
  }

  lemma SizesDecide(run: seq<FlashEntry>, parts: seq<Part>)
    ensures PartsFit(run, parts) <==> forall m :: 0 <= m < |run| ==> !TooBig(run[m], parts)
  {
    hide PartNamed;
    if PartsFit(run, parts) {
      forall m | 0 <= m < |run|
        ensures !TooBig(run[m], parts)
      {
        assert run[m] in run;
      }
    }
  }

  /** In a sorted run no part that fits its partition leaves the image. */
  lemma OnlySizesAreBad(board: Board, parts: seq<Part>)
    requires Range(board) != None && PartNamed(parts, board.last) != None && Sorted(Upgraded(board))
    ensures var run, len := Upgraded(board), ImageLength(board, parts);
            forall m :: 0 <= m < |run| ==> (Bad(run[m], parts, run[0].base, len) <==> TooBig(run[m], parts))
  {
    hide PartNamed, Range;
    RangeEnds(board);
    var run, len := Upgraded(board), ImageLength(board, parts);
    var last := |run| - 1;
    forall m | 0 <= m <= last
      ensures Bad(run[m], parts, run[0].base, len) <==> TooBig(run[m], parts)
    {
      assert m == 0 || run[0].base + run[0].size <= run[m].base;
      assert m == last || run[m].base + run[m].size <= run[last].base;
    }
  }
}
