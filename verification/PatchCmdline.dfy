/** Patching the kernel command line into a mapped image, behind its marker. */
module PatchCmdline {
  import opened Bytes
  import opened Results
  import opened Text
  import opened PartitionTable

  const CMDLINE_MAX: nat := 512

  datatype PatchFailure = TooLong | MarkerNotFound

  function Marker(): (s: seq<byte>)
    ensures |s| == 8
  {
    Ascii("CMDLINE:")
  }

  predicate MarkerAt(image: seq<byte>, p: nat)
  {
    p + 8 <= |image| && image[p..p + 8] == Marker()
  }

  /** The first 4-aligned marker from `p` on whose address lies in the search space. */
  function FirstMarker(image: seq<byte>, p: nat, space: nat): (r: Option<nat>)
    ensures r.Some? ==> p <= r.value < space && (r.value - p) % 4 == 0 && MarkerAt(image, r.value)
    ensures r.Some? ==> forall q :: p <= q < r.value && (q - p) % 4 == 0 ==> !MarkerAt(image, q)
    ensures r.None? ==> forall q :: p <= q < space && (q - p) % 4 == 0 ==> !MarkerAt(image, q)
    decreases space - p
  {
    if p >= space then None
    else if MarkerAt(image, p) then Some(p)
    else
      var r := FirstMarker(image, p + 4, space);
      assert forall q :: p < q && (q - p) % 4 == 0 && MarkerAt(image, q) ==> p + 4 <= q && (q - (p + 4)) % 4 == 0;
      r
  }

  /** The 504 bytes behind the marker hold the command line and zeros. */
  function CmdlineArea(cmdline: seq<byte>): (s: seq<byte>)
    requires |cmdline| <= 503
    ensures |s| == 504
  {
    cmdline + Fill(504 - |cmdline|, 0)
  }

  /** The image after patching, or why there is none. The mapping is 512 bytes longer than the search space. */
  function Patched(image: seq<byte>, space: nat, cmdline: seq<byte>): (r: (Option<PatchFailure>, seq<byte>))
    requires |image| == space + CMDLINE_MAX
    ensures |r.1| == |image|
  {
    if |cmdline| + 9 > CMDLINE_MAX then (Some(TooLong), image)
    else match FirstMarker(image, 0, space)
      case None => (Some(MarkerNotFound), image)
      case Some(p) => (None, Splice(image, p + 8, CmdlineArea(cmdline)))
  }

  method Patch(image: array<byte>, space: nat, cmdline: seq<byte>) returns (failure: Option<PatchFailure>)
    requires image.Length == space + CMDLINE_MAX
    modifies image
    ensures (failure, image[..]) == Patched(old(image[..]), space, cmdline)
  {
    hide Splice;
    if |cmdline| + 9 > CMDLINE_MAX {
      return Some(TooLong);
    }
    var p, found := 0, false;
    while p < space
      invariant FirstMarker(image[..], 0, space) == FirstMarker(image[..], p, space)
      decreases space - p
    {
      if image[p..p + 8] == Marker() {
        found := true;
        p := p + 8;
        break;
      }
      p := p + 4;
    }
    if !found {
      return Some(MarkerNotFound);
    }
    ghost var before := image[..];
    Memset(image, p, 0, CMDLINE_MAX - 8);
    Memcpy(image, p, cmdline + [0]);
    AreaWritten(before, p, cmdline);
    failure := None;
  }

  /** memset, then strcpy with its terminator. */
  lemma AreaWritten(image: seq<byte>, p: nat, cmdline: seq<byte>)
    requires |cmdline| <= 503 && p + 504 <= |image|
    ensures Splice(Splice(image, p, Fill(504, 0)), p, cmdline + [0]) == Splice(image, p, CmdlineArea(cmdline))
  {}

  /** "CMDLINE:" stands at `p`. */
  predicate Marked(image: seq<byte>, p: nat)
  {
    p + 8 <= |image| && image[p..p + 8] == [0x43, 0x4d, 0x44, 0x4c, 0x49, 0x4e, 0x45, 0x3a]
  }

  lemma MarkerIs()
    ensures Marker() == [0x43, 0x4d, 0x44, 0x4c, 0x49, 0x4e, 0x45, 0x3a]
  {}

  /**
   * When patching fails, and where it happens otherwise: behind the first marker at a multiple of four in the search
   * space, unless the command line has more than 503 bytes. A failure changes nothing.
   */
  lemma PatchOutcome(image: seq<byte>, space: nat, cmdline: seq<byte>)
    requires |image| == space + 512
    ensures var (failure, image') := Patched(image, space, cmdline);
            && (failure == Some(TooLong) <==> |cmdline| > 503)
            && (failure == Some(MarkerNotFound)
                <==> |cmdline| <= 503 && forall p :: 0 <= p < space && p % 4 == 0 ==> !Marked(image, p))
            && (failure != None ==> image' == image)
            && (failure == None ==>
                  exists p :: 0 <= p < space && p % 4 == 0 && Marked(image, p)
                    && (forall q :: 0 <= q < p && q % 4 == 0 ==> !Marked(image, q))
                    && image' == image[..p + 8] + cmdline + Fill(504 - |cmdline|, 0) + image[p + 512..])
  {
    MarkerIs();
    hide FirstMarker, Marker;
    assert forall p :: MarkerAt(image, p) <==> Marked(image, p);
    var r := FirstMarker(image, 0, space);
    if r.Some? && |cmdline| <= 503 {
      var p := r.value;
      assert Patched(image, space, cmdline).1
          == image[..p + 8] + cmdline + Fill(504 - |cmdline|, 0) + image[p + 512..];
    }
  }

  /** Nothing outside the 504 bytes behind the first marker changes, and the kernel reads the command line there. */
  lemma PatchIsLocal(image: seq<byte>, space: nat, cmdline: seq<byte>)
    requires |image| == space + CMDLINE_MAX && 0 !in cmdline
    requires Patched(image, space, cmdline).0 == None
    ensures var (p, image') := (FirstMarker(image, 0, space).value, Patched(image, space, cmdline).1);
            && (forall k :: 0 <= k < |image| && !(p + 8 <= k < p + 512) ==> image'[k] == image[k])
            && UpToNul(image'[p + 8..p + 512]) == cmdline
  {
    var p := FirstMarker(image, 0, space).value;
    var area := Patched(image, space, cmdline).1[p + 8..p + 512];
    assert area == cmdline + Fill(504 - |cmdline|, 0);
    StringEnds(cmdline, Fill(504 - |cmdline|, 0));
  }

  lemma {:induction false} StringEnds(s: seq<byte>, rest: seq<byte>)
    requires 0 !in s && rest != [] && rest[0] == 0
    ensures UpToNul(s + rest) == s
  {
    if s == [] {
      assert s + rest == rest;
    } else {
      assert (s + rest)[1..] == s[1..] + rest;
      StringEnds(s[1..], rest);
    }
  }

  /** Patching moves no marker: the first one stays the first one. */
  lemma MarkerStays(image: seq<byte>, image': seq<byte>, p: nat, space: nat)
    requires |image| == |image'| == space + CMDLINE_MAX
    requires FirstMarker(image, 0, space) == Some(p)
    requires forall k :: 0 <= k < p + 8 ==> image'[k] == image[k]
    ensures FirstMarker(image', 0, space) == Some(p)
  {
    hide FirstMarker;
    forall q | 0 <= q <= p && q % 4 == 0
      ensures MarkerAt(image', q) <==> MarkerAt(image, q)
    {
      assert image'[q..q + 8] == image[q..q + 8];
    }
    assert p % 4 == 0 && MarkerAt(image', p);
    var r := FirstMarker(image', 0, space);
    assert r.Some? && r.value <= p;
  }

  /** The last patch wins: an earlier one leaves no trace, whatever it wrote or failed to write. */
  lemma LastWriteWins(image: seq<byte>, space: nat, a: seq<byte>, b: seq<byte>)
    requires |image| == space + CMDLINE_MAX && Patched(image, space, b).0 == None
    ensures Patched(Patched(image, space, a).1, space, b) == Patched(image, space, b)
  {
    hide FirstMarker;
    var once := Patched(image, space, a).1;
    if Patched(image, space, a).0 == None {
      var p := FirstMarker(image, 0, space).value;
      MarkerStays(image, once, p, space);
      assert Splice(once, p + 8, CmdlineArea(b)) == Splice(image, p + 8, CmdlineArea(b));
    }
  }
}
