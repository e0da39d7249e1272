/** Writing the question of a DNS request: labels in place of dots (RFC 1035, sections 3.1 and 4.1.2). */
module DnsName {
  import opened Bytes
  import opened Results

  const PAYLOAD: nat := 512
  const DOT: byte := 0x2e

  // ---------------------------------------------------------------- names and labels

  /** The labels of a name: what lies between its dots. */
  function Labels(name: seq<byte>): (ls: seq<seq<byte>>)
    ensures |ls| >= 1
  {
    if name == [] then [[]]
    else
      var ls, c := Labels(name[..|name| - 1]), name[|name| - 1];
      if c == DOT then ls + [[]] else ls[..|ls| - 1] + [ls[|ls| - 1] + [c]]
  }

  /** Labels joined with dots. */
  function Joined(ls: seq<seq<byte>>): seq<byte>
  {
    if ls == [] then []
    else if |ls| == 1 then ls[0]
    else Joined(ls[..|ls| - 1]) + [DOT] + ls[|ls| - 1]
  }

  lemma JoinedSnoc(ls: seq<seq<byte>>, l: seq<byte>)
    ensures Joined(ls + [l]) == if ls == [] then l else Joined(ls) + [DOT] + l
  {
    assert (ls + [l])[..|ls|] == ls;
  }

  lemma {:induction false} JoinedLabels(name: seq<byte>)
    ensures Joined(Labels(name)) == name
  {
    hide Joined;
    if name == [] {
      var none: seq<seq<byte>> := [];
      assert none + [[]] == Labels(name);
      JoinedSnoc(none, []);
    } else {
      var front, c := name[..|name| - 1], name[|name| - 1];
      JoinedLabels(front);
      var ls := Labels(front);
      var init, last := ls[..|ls| - 1], ls[|ls| - 1];
      assert ls == init + [last] && name == front + [c];
      JoinedSnoc(ls, []);
      JoinedSnoc(init, last);
      JoinedSnoc(init, last + [c]);
    }
  }

  /** The length bytes count modulo 256, as uint8_t does. */
  function Encoded(ls: seq<seq<byte>>): seq<byte>
  {
    if ls == [] then [] else Encoded(ls[..|ls| - 1]) + ([(|ls[|ls| - 1]| % 0x100) as byte] + ls[|ls| - 1])
  }

  /** Labels, root, type A, class IN. */
  function Question(name: seq<byte>): seq<byte>
  {
    Encoded(Labels(name)) + [0, 0, 1, 0, 1]
  }

  lemma {:induction false} EncodedConcat(x: seq<seq<byte>>, y: seq<seq<byte>>)
    ensures Encoded(x + y) == Encoded(x) + Encoded(y)
    decreases |y|
  {
    if y == [] {
      assert x + y == x;
    } else {
      var front, last := y[..|y| - 1], y[|y| - 1];
      var code := [(|last| % 0x100) as byte] + last;
      EncodedConcat(x, front);
      assert x + y == (x + front) + [last] && (x + y)[..|x + y| - 1] == x + front;
      assert Encoded(x + y) == Encoded(x + front) + code && Encoded(y) == Encoded(front) + code;
    }
  }

  lemma EncodedCons(l: seq<byte>, ls: seq<seq<byte>>)
    ensures Encoded([l] + ls) == [(|l| % 0x100) as byte] + l + Encoded(ls)
  {
    EncodedConcat([l], ls);
    assert [l][..0] == [] && Encoded([l]) == [(|l| % 0x100) as byte] + l;
  }

  lemma EmptyName()
    ensures Labels([]) == [[]] && Encoded(Labels([])[..0]) == [] && Encoded(Labels([])) == [0]
  {
    var ls := Labels([]);
    assert ls[..0] == [];
  }

  /** One byte per character and one more. */
  lemma {:induction false} EncodedLength(name: seq<byte>)
    ensures |Encoded(Labels(name))| == |name| + 1
  {
    if name == [] {
      EmptyName();
    } else {
      var front, c := name[..|name| - 1], name[|name| - 1];
      EncodedLength(front);
      LabelsStep(front, c);
    }
  }

  /** What one more character does to the encoding: a dot opens a label, any other character extends the last one. */
  lemma LabelsStep(front: seq<byte>, c: byte)
    ensures var ls, ls' := Labels(front), Labels(front + [c]);
            var init, last := ls[..|ls| - 1], ls[|ls| - 1];
            && Encoded(ls) == Encoded(init) + ([(|last| % 0x100) as byte] + last)
            && Encoded(ls') == (if c == DOT then Encoded(ls) + [0]
                                else Encoded(init) + ([((|last| + 1) % 0x100) as byte] + (last + [c])))
            && (c == DOT ==> ls'[..|ls'| - 1] == ls && ls'[|ls'| - 1] == [])
            && (c != DOT ==> ls'[..|ls'| - 1] == init && ls'[|ls'| - 1] == last + [c])
  {
    assert (front + [c])[..|front|] == front;
    var ls := Labels(front);
    if c == DOT {
      assert (ls + [[]])[..|ls|] == ls;
    } else {
      var init, last := ls[..|ls| - 1], ls[|ls| - 1];
      assert (init + [last + [c]])[..|init|] == init;
    }
  }

  // ---------------------------------------------------------------- dns_request

  /** The bytes of the payload from `labelLength` to `datap` are the label under construction; behind lies zero. */
  ghost predicate Written(payload: seq<byte>, name: seq<byte>, labelLength: nat, datap: nat)
  {
    var ls := Labels(name);
    && |payload| == PAYLOAD && datap == |name| + 1 <= 493
    && labelLength == |Encoded(ls[..|ls| - 1])| && labelLength + |ls[|ls| - 1]| + 1 == datap
    && payload == Encoded(ls) + Fill(PAYLOAD - datap, 0)
  }

  lemma StartWritten()
    ensures Written(Fill(PAYLOAD, 0), [], 0, 1)
  {
    EmptyName();
    assert Fill(PAYLOAD, 0) == [0] + Fill(PAYLOAD - 1, 0);
  }

  lemma DotWritten(payload: seq<byte>, name: seq<byte>, labelLength: nat, datap: nat)
    requires Written(payload, name, labelLength, datap) && datap < 493
    ensures Written(payload, name + [DOT], datap, datap + 1)
  {
    LabelsStep(name, DOT);
    EncodedLength(name);
    assert Fill(PAYLOAD - datap, 0) == [0] + Fill(PAYLOAD - datap - 1, 0);
  }

  lemma CharWritten(payload: seq<byte>, name: seq<byte>, labelLength: nat, datap: nat, c: byte)
    requires Written(payload, name, labelLength, datap) && datap < 493 && c != DOT
    ensures payload[labelLength] as nat == |Labels(name)[|Labels(name)| - 1]| % 0x100
    ensures Written(payload[labelLength := ((payload[labelLength] as nat + 1) % 0x100) as byte][datap := c],
                    name + [c], labelLength, datap + 1)
  {
    hide Encoded, Labels;
    LabelsStep(name, c);
    EncodedLength(name);
    var ls := Labels(name);
    var init, last := Encoded(ls[..|ls| - 1]), ls[|ls| - 1];
    assert payload[labelLength] == (|last| % 0x100) as byte;
    NextCount(|last|);
    var next := payload[labelLength := ((payload[labelLength] as nat + 1) % 0x100) as byte][datap := c];
    assert next == init + ([((|last| + 1) % 0x100) as byte] + (last + [c])) + Fill(PAYLOAD - datap - 1, 0);
  }

  lemma NextCount(n: nat)
    ensures (n % 0x100 + 1) % 0x100 == (n + 1) % 0x100
  {}

  /** The loop over the name; room for the name and the root is guaranteed by its length. */
  method EncodeLabels(payload: array<byte>, name: seq<byte>) returns (datap: nat)
    requires payload.Length == PAYLOAD && payload[..] == Fill(PAYLOAD, 0) && |name| <= PAYLOAD - 20
    modifies payload
    ensures datap == |Encoded(Labels(name))| == |name| + 1
    ensures payload[..] == Encoded(Labels(name)) + Fill(PAYLOAD - datap, 0)
  {
    hide Written, Labels, Encoded;
    datap := 0;
    StartWritten();
    var labelLength := datap;
    datap := datap + 1;
    for n := 0 to |name|
      invariant Written(payload[..], name[..n], labelLength, datap)
      invariant labelLength < datap == n + 1
    {
      assert name[..n + 1] == name[..n] + [name[n]];
      if name[n] == DOT {
        DotWritten(payload[..], name[..n], labelLength, datap);
        labelLength := datap;
        datap := datap + 1;
      } else {
        CharWritten(payload[..], name[..n], labelLength, datap, name[n]);
        PutChar(payload, labelLength, datap, name[n]);
        datap := datap + 1;
      }
    }
    assert name[..|name|] == name;
    WrittenIs(payload[..], name, labelLength, datap);
  }

  /** *label_length += 1; *datap = *n */
  method PutChar(payload: array<byte>, labelLength: nat, datap: nat, c: byte)
    requires labelLength < datap < payload.Length
    modifies payload
    ensures payload[..]
         == old(payload[..])[labelLength := ((old(payload[labelLength]) as nat + 1) % 0x100) as byte][datap := c]
  {
    payload[labelLength] := ((payload[labelLength] as nat + 1) % 0x100) as byte;
    payload[datap] := c;
  }

  /** The payload is 512 bytes; a name of more than 492 is refused. */
  method EncodeQuestion(payload: array<byte>, name: seq<byte>) returns (tooLong: bool, datap: nat)
    requires payload.Length == PAYLOAD
    modifies payload
    ensures tooLong <==> |name| > 492
    ensures !tooLong ==> datap == |name| + 6 == |Question(name)|
    ensures !tooLong ==> payload[..] == Question(name) + Fill(512 - datap, 0)
  {
    hide Labels, Encoded, Splice;
    Cleared(payload[..], PAYLOAD);
    Memset(payload, 0, 0, PAYLOAD);
    if |name| > PAYLOAD - 20 {
      return true, 0;
    }
    datap := EncodeLabels(payload, name);
    WriteTail(payload, datap);
    TailWritten(Encoded(Labels(name)), PAYLOAD - datap);
    datap := datap + 5;
    tooLong := false;
  }

  /** The root, 16 bits of type and 16 of class. */
  method WriteTail(payload: array<byte>, datap: nat)
    requires datap + 5 <= payload.Length
    modifies payload
    ensures payload[..] == Splice(old(payload[..]), datap, [0, 0, 1, 0, 1])
  {
    payload[datap] := 0;
    payload[datap + 1] := 0;
    payload[datap + 2] := 1;
    payload[datap + 3] := 0;
    payload[datap + 4] := 1;
  }

  lemma Cleared(s: seq<byte>, n: nat)
    ensures |s| == n ==> Splice(s, 0, Fill(n, 0)) == Fill(n, 0)
  {}

  lemma TailWritten(labels: seq<byte>, n: nat)
    requires n >= 5
    ensures Splice(labels + Fill(n, 0), |labels|, [0, 0, 1, 0, 1]) == labels + [0, 0, 1, 0, 1] + Fill(n - 5, 0)
  {}

  lemma WrittenIs(payload: seq<byte>, name: seq<byte>, labelLength: nat, datap: nat)
    requires Written(payload, name, labelLength, datap)
    ensures payload == Encoded(Labels(name)) + Fill(PAYLOAD - datap, 0)
        && |Encoded(Labels(name))| == datap == |name| + 1
  {
    EncodedLength(name);
  }

  // ---------------------------------------------------------------- decoding, by the book

  /** The labels of section 3.1 of RFC 1035 from `p` on, each of 1 to 63 bytes, and the index behind their zero byte. */
  function Decode(data: seq<byte>, p: nat): Option<(seq<seq<byte>>, nat)>
    decreases |data| - p
  {
    if p >= |data| then None
    else
      var n := data[p] as nat;
      if n == 0 then Some(([], p + 1))
      else if n >= 64 || p + 1 + n > |data| then None
      else match Decode(data, p + 1 + n)
        case None => None
        case Some((rest, end)) => Some(([data[p + 1..p + 1 + n]] + rest, end))
  }

  lemma {:induction false} LabelsHaveNoDot(name: seq<byte>)
    ensures forall l: seq<byte> :: l in Labels(name) ==> DOT !in l
  {
    if name == [] {
    } else {
      var ls := Labels(name[..|name| - 1]);
      LabelsHaveNoDot(name[..|name| - 1]);
      assert ls[|ls| - 1] in ls;
    }
  }

  predicate GoodLabel(l: seq<byte>) { 1 <= |l| <= 63 }

  lemma {:induction false} DecodedLabelsAreGood(data: seq<byte>, p: nat)
    ensures Decode(data, p).Some? ==> forall l :: l in Decode(data, p).value.0 ==> GoodLabel(l)
    decreases |data| - p
  {
    if p < |data| && 0 < data[p] < 64 && p + 1 + data[p] as nat <= |data| {
      DecodedLabelsAreGood(data, p + 1 + data[p] as nat);
    }
  }

  lemma EncodedNone()
    ensures Encoded([]) == []
  {}

  lemma FirstLabel(data: seq<byte>, p: nat, n: byte, l: seq<byte>, rest: seq<byte>)
    requires p + 1 + |l| + |rest| <= |data| && data[p..p + 1 + |l| + |rest|] == [n] + l + rest
    ensures data[p] == n && data[p + 1..p + 1 + |l|] == l && data[p + 1 + |l|..p + 1 + |l| + |rest|] == rest
  {
    var s := [n] + l + rest;
    assert s[0] == n && s[1..1 + |l|] == l && s[1 + |l|..] == rest;
    assert forall k :: 0 <= k < |s| ==> data[p + k] == s[k];
    assert data[p + 1..p + 1 + |l|] == s[1..1 + |l|];
    assert data[p + 1 + |l|..p + 1 + |l| + |rest|] == s[1 + |l|..];
  }

  lemma {:induction false} DecodeEncoded(data: seq<byte>, p: nat, ls: seq<seq<byte>>)
    requires p + |Encoded(ls)| < |data| && data[p..p + |Encoded(ls)|] == Encoded(ls) && data[p + |Encoded(ls)|] == 0
    requires forall l :: l in ls ==> GoodLabel(l)
    ensures Decode(data, p) == Some((ls, p + |Encoded(ls)| + 1))
    decreases |ls|
  {
    hide Encoded;
    if ls == [] {
      EncodedNone();
    } else {
      var l, rest := ls[0], ls[1..];
      assert ls == [l] + rest && l in ls;
      EncodedCons(l, rest);
      var n := |l|;
      FirstLabel(data, p, n as byte, l, Encoded(rest));
      DecodeEncoded(data, p + 1 + n, rest);
    }
  }

  /**
   * The name that was asked for is read back from the question, and the question ends behind type and class, exactly
   * when each of its labels has 1 to 63 bytes. Type A and class IN are asked for; the labels are what is between dots.
   */
  lemma NameRoundTrip(name: seq<byte>)
    ensures Decode(Question(name), 0) == Some((Labels(name), |Question(name)| - 4))
            <==> forall l :: l in Labels(name) ==> GoodLabel(l)
    ensures |Question(name)| == |name| + 6 && Question(name)[|name| + 2..] == [0, 1, 0, 1]
    ensures Joined(Labels(name)) == name && forall l: seq<byte> :: l in Labels(name) ==> 0x2e !in l
  {
    hide Encoded, Labels, Decode, Joined;
    var q, ls := Question(name), Labels(name);
    LabelsHaveNoDot(name);
    JoinedLabels(name);
    EncodedLength(name);
    assert q[0..|Encoded(ls)|] == Encoded(ls) && q[|Encoded(ls)|] == 0;
    if forall l :: l in ls ==> GoodLabel(l) {
      DecodeEncoded(q, 0, ls);
    }
    DecodedLabelsAreGood(q, 0);
  }
}
