/** Parsing the answers of a DNS response (RFC 1035, sections 4.1.3 and 4.1.4). */
module DnsAnswers {
  import opened Bytes
  import opened Results
  import opened Text
  import opened DnsName

  /** What a request keeps of an A record: the time to live as a C int, and the address as it came. */
  datatype Record = Record(ttl: int, address: seq<byte>)

  datatype Error =
    | ReceiveFailed     // DNS_ERROR_RECVFROM_FAILED
    | Injected          // DNS_ERROR_UDP_INJECTED
    | NoSuchDomain      // DNS_ERROR_NXDOMAIN
    | AnswerTooLarge    // DNS_ERROR_ANSWER_TOO_LARGE
    | Outside           // an access behind the payload or behind the eight records

  datatype Parsed = Found(records: seq<Record>) | Stopped(error: Error)

  const MAX_RECORDS: nat := 8

  // ---------------------------------------------------------------- numbers on the wire

  function Big16(n: nat): (s: seq<byte>)
    ensures |s| == 2
  {
    [(n / 0x100 % 0x100) as byte, (n % 0x100) as byte]
  }

  function From16(s: seq<byte>, p: nat): (n: nat)
    requires p + 2 <= |s|
    ensures n < 0x10000
  {
    s[p] as nat * 0x100 + s[p + 1] as nat
  }

  function From32(s: seq<byte>, p: nat): (n: nat)
    requires p + 4 <= |s|
    ensures n < 0x1_0000_0000
  {
    From16(s, p) * 0x10000 + From16(s, p + 2)
  }

  lemma Big16RoundTrip(n: nat)
    requires n < 0x10000
    ensures From16(Big16(n), 0) == n
  {}

  lemma Big32RoundTrip(n: nat)
    requires n < 0x1_0000_0000
    ensures From32(BigEndian(n), 0) == n
  {
    hide BigEndian;
    BigEndianRoundTrip(n);
    assert From32(BigEndian(n), 0) == FromBigEndian(BigEndian(n));
  }

  /** A 32-bit pattern as a C int. */
  function AsInt32(n: nat): int
  {
    if n < 0x8000_0000 then n else n - 0x1_0000_0000
  }

  /** Bytes of numbers come highest first. */
  lemma NetworkOrder()
    ensures Big16(0x0102) == [1, 2] && From16([1, 2], 0) == 0x0102
    ensures BigEndian(0x01020304) == [1, 2, 3, 4] && From32([1, 2, 3, 4], 0) == 0x01020304
  {}

  // ---------------------------------------------------------------- the parse loop

  /**
   * Past an owner name: behind its zero byte, or behind the byte after the first one that has one of its top bits set.
   */
  function SkipOwner(d: seq<byte>, p: nat): (q: Option<nat>)
    ensures q.Some? ==> p < q.value
    decreases |d| - p
  {
    if p >= |d| then None
    else if d[p] == 0 then Some(p + 1)
    else if d[p] >= 0x40 then Some(p + 2)
    else SkipOwner(d, p + 1)
  }

  predicate IsAddress(rtype: nat, rclass: nat, length: nat) { rclass == 1 && rtype == 1 && length == 4 }

  /** The records found in `n` answers from `p` on, behind the ones in `found`. */
  function Answers(d: seq<byte>, p: nat, n: nat, found: seq<Record>): Parsed
    decreases n
  {
    if n == 0 then Found(found)
    else match SkipOwner(d, p)
      case None => Stopped(Outside)
      case Some(q) =>
        if q + 10 > |d| then Stopped(Outside)
        else
          var length := From16(d, q + 8);
          if !IsAddress(From16(d, q), From16(d, q + 2), length) then Answers(d, q + 10 + length, n - 1, found)
          else if q + 14 > |d| || |found| >= MAX_RECORDS then Stopped(Outside)
          else Answers(d, q + 14, n - 1, found + [Record(AsInt32(From32(d, q + 4)), d[q + 10..q + 14])])
  }

  /** Past the question: to the first zero byte, and five further. */
  function SkipQuestion(d: seq<byte>): Option<nat>
  {
    var z := IndexOf(d, 0, 0);
    if z == |d| then None else Some(z + 5)
  }

  /** The answers behind at most one question. */
  function Body(d: seq<byte>, queries: nat, answers: nat): Parsed
  {
    if queries == 0 then Answers(d, 0, answers, [])
    else match SkipQuestion(d)
      case None => Stopped(Outside)
      case Some(p) => Answers(d, p, answers, [])
  }

  /** The loop over the name of an answer. */
  method SkipName(d: seq<byte>, datap: nat) returns (q: Option<nat>)
    ensures q == SkipOwner(d, datap)
  {
    var p := datap;
    while p < |d|
      invariant SkipOwner(d, p) == SkipOwner(d, datap)
    {
      if d[p] == 0 {
        return Some(p + 1);
      }
      if d[p] >= 0x40 {
        return Some(p + 2);
      }
      p := p + 1;
    }
    q := None;
  }

  /** One turn of the loop. */
  lemma AnswersStep(d: seq<byte>, p: nat, n: nat, found: seq<Record>)
    ensures Answers(d, p, n, found)
         == if n == 0 then Found(found)
            else match SkipOwner(d, p)
                 case None => Stopped(Outside)
                 case Some(q) =>
                   if q + 10 > |d| then Stopped(Outside)
                   else if !IsAddress(From16(d, q), From16(d, q + 2), From16(d, q + 8)) then
                     Answers(d, q + 10 + From16(d, q + 8), n - 1, found)
                   else if q + 14 > |d| || |found| >= MAX_RECORDS then Stopped(Outside)
                   else Answers(d, q + 14, n - 1, found + [Record(AsInt32(From32(d, q + 4)), d[q + 10..q + 14])])
  {
    hide SkipOwner, From16, From32, AsInt32;
  }

  /** The front slots hold `found`, the others what they held `before`. */
  ghost predicate Stored(records: seq<Record>, found: seq<Record>, before: seq<Record>)
  {
    |found| <= |before| && records == found + before[|found|..]
  }

  lemma NothingStored(records: seq<Record>)
    ensures Stored(records, [], records)
  {}

  method StoreRecord(records: array<Record>, count: nat, r: Record, ghost found: seq<Record>, ghost before: seq<Record>)
    requires count == |found| < records.Length && Stored(records[..], found, before)
    modifies records
    ensures Stored(records[..], found + [r], before)
  {
    records[count] := r;
  }

  /** The answer section; the records found are stored from index 0 on, the other slots keep what they hold. */
  method ParseAnswers(d: seq<byte>, start: nat, answers: nat, records: array<Record>)
    returns (error: Option<Error>, count: nat)
    requires records.Length == MAX_RECORDS
    modifies records
    ensures match Answers(d, start, answers, [])
            case Stopped(e) => error == Some(e)
            case Found(rs) => error == None && count == |rs| <= MAX_RECORDS && Stored(records[..], rs, old(records[..]))
  {
    hide SkipOwner, From16, From32, AsInt32, Answers, Stored;
    NothingStored(records[..]);
    var datap: nat := start;
    count := 0;
    ghost var found: seq<Record> := [];
    for i := 0 to answers
      invariant Answers(d, start, answers, []) == Answers(d, datap, answers - i, found)
      invariant count == |found| <= MAX_RECORDS && Stored(records[..], found, old(records[..]))
    {
      AnswersStep(d, datap, answers - i, found);
      var q := SkipName(d, datap);
      if q == None || q.value + 10 > |d| {
        return Some(Outside), count;
      }
      var p := q.value;
      var recordType, recordClass, ttl, rdlength := From16(d, p), From16(d, p + 2), From32(d, p + 4), From16(d, p + 8);
      if recordClass == 1 && recordType == 1 && rdlength == 4 {
        if p + 14 > |d| || count >= MAX_RECORDS {
          return Some(Outside), count;
        }
        var record := Record(AsInt32(ttl), d[p + 10..p + 14]);
        StoreRecord(records, count, record, found, old(records[..]));
        found := found + [record];
        count := count + 1;
        if count >= 16 {
          return Some(AnswerTooLarge), count;
        }
      }
      datap := p + 10 + rdlength;
    }
    AnswersStep(d, datap, 0, found);
    error := None;
  }

  // ---------------------------------------------------------------- dns_receive

  /** The packet structure: twelve header bytes and the payload, zeroed before a datagram is received into it. */
  function Packet(datagram: seq<byte>): (s: seq<byte>)
    ensures |s| == 524
  {
    seq(524, i requires 0 <= i < 524 => if i < |datagram| then datagram[i] else 0)
  }

  /** What is made of a datagram; `None` stands for a failed receive. */
  function Received(id: nat, resolver: nat, datagram: Option<seq<byte>>, sender: nat): Parsed
  {
    if datagram == None || datagram == Some([]) then Stopped(ReceiveFailed)
    else
      var packet := Packet(datagram.value);
      if sender != resolver || From16(packet, 0) != id || From16(packet, 4) > 1 then Stopped(Injected)
      else if From16(packet, 6) < 1 then Stopped(NoSuchDomain)
      else Body(packet[12..], From16(packet, 4), From16(packet, 6))
  }

  method Receive(id: nat, resolver: nat, datagram: Option<seq<byte>>, sender: nat, records: array<Record>)
    returns (error: Option<Error>, count: nat)
    requires records.Length == MAX_RECORDS
    modifies records
    ensures match Received(id, resolver, datagram, sender)
            case Stopped(e) => error == Some(e)
            case Found(rs) => error == None && count == |rs| <= MAX_RECORDS && Stored(records[..], rs, old(records[..]))
  {
    hide Answers, From16;
    count := 0;
    if datagram == None || |datagram.value| < 1 {
      return Some(ReceiveFailed), count;
    }
    var packet := Packet(datagram.value);
    if sender != resolver {
      return Some(Injected), count;
    }
    if From16(packet, 0) != id {
      return Some(Injected), count;
    }
    if From16(packet, 4) > 1 {
      return Some(Injected), count;
    }
    if From16(packet, 6) < 1 {
      return Some(NoSuchDomain), count;
    }
    var payload := packet[12..];
    var datap := 0;
    if From16(packet, 4) > 0 {
      while datap < |payload| && payload[datap] != 0
        invariant datap <= |payload| && IndexOf(payload, 0, 0) == IndexOf(payload, 0, datap)
      {
        datap := datap + 1;
      }
      if datap == |payload| {
        return Some(Outside), count;
      }
      datap := datap + 5;
    }
    error, count := ParseAnswers(payload, datap, From16(packet, 6), records);
  }

  /** Byte `k` of the packet; a shorter datagram leaves zeros behind. */
  function PacketByte(d: seq<byte>, k: nat): nat { if k < |d| then d[k] as nat else 0 }

  function PacketNumber(d: seq<byte>, k: nat): nat { PacketByte(d, k) * 0x100 + PacketByte(d, k + 1) }

  /** The checks of the header, each with its error, on the bytes of the datagram. */
  lemma HeaderDecides(id: nat, resolver: nat, datagram: Option<seq<byte>>, sender: nat)
    ensures var r := Received(id, resolver, datagram, sender);
            if datagram == None || |datagram.value| < 1 then r == Stopped(ReceiveFailed)
            else
              var d := datagram.value;
              if sender != resolver || PacketNumber(d, 0) != id || PacketNumber(d, 4) > 1 then r == Stopped(Injected)
              else if PacketNumber(d, 6) == 0 then r == Stopped(NoSuchDomain)
              else r.Found? || r == Stopped(Outside)
  {
    if datagram != None && datagram != Some([]) {
      var packet := Packet(datagram.value);
      var p := packet[12..];
      AnswersFail(p, 0, From16(packet, 6), []);
      if SkipQuestion(p).Some? {
        AnswersFail(p, SkipQuestion(p).value, From16(packet, 6), []);
      }
    }
  }

  lemma {:induction false} AnswersFail(d: seq<byte>, p: nat, n: nat, found: seq<Record>)
    ensures Answers(d, p, n, found).Found? || Answers(d, p, n, found) == Stopped(Outside)
    decreases n
  {
    hide SkipOwner, From16, From32, IsAddress;
    AnswersStep(d, p, n, found);
    if n > 0 && SkipOwner(d, p).Some? && SkipOwner(d, p).value + 10 <= |d| {
      var q := SkipOwner(d, p).value;
      AnswersFail(d, q + 10 + From16(d, q + 8), n - 1, found);
      if q + 14 <= |d| {
        AnswersFail(d, q + 14, n - 1, found + [Record(AsInt32(From32(d, q + 4)), d[q + 10..q + 14])]);
      }
    }
  }

  /** Records are only ever taken from a datagram of the resolver that answers the request with at most one question. */
  lemma OnlyGenuineResponses(id: nat, resolver: nat, datagram: Option<seq<byte>>, sender: nat)
    requires Received(id, resolver, datagram, sender).Found?
    ensures datagram.Some? && sender == resolver
    ensures var packet := Packet(datagram.value);
            From16(packet, 0) == id && From16(packet, 4) <= 1 && From16(packet, 6) >= 1
    ensures |Received(id, resolver, datagram, sender).records| <= 8
  {
    hide From16;
    var packet := Packet(datagram.value);
    var d, n := packet[12..], From16(packet, 6);
    if From16(packet, 4) == 0 {
      AtMostEight(d, 0, n, []);
    } else {
      AtMostEight(d, SkipQuestion(d).value, n, []);
    }
  }

  lemma {:induction false} AtMostEight(d: seq<byte>, p: nat, n: nat, found: seq<Record>)
    requires |found| <= MAX_RECORDS && Answers(d, p, n, found).Found?
    ensures found <= Answers(d, p, n, found).records && |Answers(d, p, n, found).records| <= MAX_RECORDS
    decreases n
  {
    hide SkipOwner, From16, From32;
    if n == 0 {
    } else {
      var q := SkipOwner(d, p).value;
      var length := From16(d, q + 8);
      if !IsAddress(From16(d, q), From16(d, q + 2), length) {
        AtMostEight(d, q + 10 + length, n - 1, found);
      } else {
        AtMostEight(d, q + 14, n - 1, found + [Record(AsInt32(From32(d, q + 4)), d[q + 10..q + 14])]);
      }
    }
  }

  // ---------------------------------------------------------------- a response, by the book

  /** What ends the name of an owner: the root, or a pointer, whose first byte has both top bits set. */
  datatype End = Root | Pointer(hi: byte, lo: byte)

  /** The owner of a record: any number of labels, and an end. */
  datatype Owner = Owner(labels: seq<seq<byte>>, end: End)

  datatype Answer = Answer(owner: Owner, rtype: nat, rclass: nat, ttl: nat, rdata: seq<byte>)

  /** As sections 3.1, 4.1.3 and 4.1.4 of RFC 1035 have it. */
  ghost predicate WellFormed(a: Answer)
  {
    && (forall l :: l in a.owner.labels ==> GoodLabel(l))
    && (a.owner.end.Pointer? ==> a.owner.end.hi >= 0xc0)
    && a.rtype < 0x10000 && a.rclass < 0x10000 && a.ttl < 0x1_0000_0000 && |a.rdata| < 0x10000
  }

  function EndBytes(end: End): (s: seq<byte>)
    ensures |s| > 0
  {
    match end
    case Root => [0]
    case Pointer(hi, lo) => [hi, lo]
  }

  function OwnerBytes(o: Owner): (s: seq<byte>)
    ensures |s| > 0
  {
    Encoded(o.labels) + EndBytes(o.end)
  }

  /** A byte the skip loop passes: not zero, and without one of its two top bits. */
  predicate Passed(b: byte) { 0 < b < 0x40 }

  /**
   * The owners that are skipped correctly. Letters have one of the two bits, so labels can have none, except as the
   * very last character in front of the root.
   */
  ghost predicate Skippable(o: Owner)
  {
    var c := Encoded(o.labels);
    if o.end.Pointer? || c == [] then forall k :: 0 <= k < |c| ==> Passed(c[k])
    else c[|c| - 1] != 0 && forall k :: 0 <= k < |c| - 1 ==> Passed(c[k])
  }

  /** How many bytes of `c` the loop passes before it has to stop. */
  function PassedCount(c: seq<byte>): (n: nat)
    ensures n <= |c| && (n < |c| ==> !Passed(c[n]))
    ensures forall k :: 0 <= k < n ==> Passed(c[k])
  {
    if c == [] || !Passed(c[0]) then 0 else 1 + PassedCount(c[1..])
  }

  lemma {:induction false} PassesOver(d: seq<byte>, p: nat, n: nat)
    requires p + n <= |d| && forall i :: p <= i < p + n ==> Passed(d[i])
    ensures SkipOwner(d, p) == SkipOwner(d, p + n)
    decreases n
  {
    if n == 0 {
    } else {
      assert Passed(d[p]);
      PassesOver(d, p + 1, n - 1);
    }
  }

  /** The skip loop stands behind an owner exactly when that is skippable. */
  lemma OwnerSkipped(d: seq<byte>, p: nat, o: Owner)
    requires o.end.Pointer? ==> o.end.hi >= 0xc0
    requires p + |OwnerBytes(o)| <= |d| && d[p..p + |OwnerBytes(o)|] == OwnerBytes(o)
    ensures SkipOwner(d, p) == Some(p + |OwnerBytes(o)|) <==> Skippable(o)
  {
    hide Encoded, Passed;
    var w, c := OwnerBytes(o), Encoded(o.labels);
    var n := PassedCount(c);
    assert forall k :: 0 <= k < |w| ==> d[p + k] == w[k];
    forall i | p <= i < p + n
      ensures Passed(d[i])
    {
      assert d[i] == w[i - p] == c[i - p];
    }
    PassesOver(d, p, n);
    assert d[p + n] == w[n];
    Stop(d, p + n);
    if n < |c| {
      assert w[n] == c[n];
    } else {
      assert w[n] == EndBytes(o.end)[0];
    }
  }

  /** Where the loop stops. */
  lemma Stop(d: seq<byte>, p: nat)
    requires p < |d|
    ensures !Passed(d[p]) ==> SkipOwner(d, p) == Some(if d[p] == 0 then p + 1 else p + 2)
    ensures !Passed(0)
  {}

  /** Type, class, time to live and data length. */
  function Fixed(a: Answer): (s: seq<byte>)
    ensures |s| == 10
  {
    Big16(a.rtype) + Big16(a.rclass) + BigEndian(a.ttl) + Big16(|a.rdata|)
  }

  function Serialized(a: Answer): seq<byte>
  {
    OwnerBytes(a.owner) + Fixed(a) + a.rdata
  }

  function AllSerialized(answers: seq<Answer>): seq<byte>
  {
    if answers == [] then [] else Serialized(answers[0]) + AllSerialized(answers[1..])
  }

  /** Type A, class IN, and an address of four bytes. */
  predicate IsInA(a: Answer) { a.rtype == 1 && a.rclass == 1 && |a.rdata| == 4 }

  /** Address and time to live, a C int: from 2^31 on it is negative. */
  function Kept(a: Answer): Record
  {
    Record(if a.ttl < 0x8000_0000 then a.ttl else a.ttl - 0x1_0000_0000, a.rdata)
  }

  /** The IN A records among the answers, in order. */
  function Addresses(answers: seq<Answer>): seq<Record>
  {
    if answers == [] then [] else (if IsInA(answers[0]) then [Kept(answers[0])] else []) + Addresses(answers[1..])
  }

  lemma FixedFields(d: seq<byte>, q: nat, a: Answer)
    requires WellFormed(a) && q + 10 <= |d| && d[q..q + 10] == Fixed(a)
    ensures From16(d, q) == a.rtype && From16(d, q + 2) == a.rclass
    ensures From32(d, q + 4) == a.ttl && From16(d, q + 8) == |a.rdata|
  {
    hide BigEndian, Big16;
    var f := d[q..q + 10];
    Big16RoundTrip(a.rtype);
    Big16RoundTrip(a.rclass);
    Big16RoundTrip(|a.rdata|);
    Big32RoundTrip(a.ttl);
    assert f[0..2] == Big16(a.rtype) && f[2..4] == Big16(a.rclass);
    assert f[4..8] == BigEndian(a.ttl) && f[8..10] == Big16(|a.rdata|);
    SameNumber(d, q, f, 0);
    SameNumber(d, q, f, 2);
    SameNumber(d, q, f, 4);
    SameNumber(d, q, f, 6);
    SameNumber(d, q, f, 8);
    assert From32(f, 4) == From32(f[4..8], 0);
  }

  lemma SameNumber(d: seq<byte>, q: nat, f: seq<byte>, k: nat)
    requires k + 2 <= |f| && q + |f| <= |d| && d[q..q + |f|] == f
    ensures From16(d, q + k) == From16(f, k) == From16(f[k..k + 2], 0)
  {
    assert f[k] == d[q..q + |f|][k] && f[k + 1] == d[q..q + |f|][k + 1];
  }

  /** The loop reads one serialised record and stands behind it. */
  lemma AnswerRead(d: seq<byte>, p: nat, n: nat, a: Answer, found: seq<Record>)
    requires n > 0 && WellFormed(a) && Skippable(a.owner)
    requires p + |Serialized(a)| <= |d| && d[p..p + |Serialized(a)|] == Serialized(a)
    ensures Answers(d, p, n, found)
         == if !IsInA(a) then Answers(d, p + |Serialized(a)|, n - 1, found)
            else if |found| >= 8 then Stopped(Outside)
            else Answers(d, p + |Serialized(a)|, n - 1, found + [Kept(a)])
  {
    hide Fixed, From16, From32, SkipOwner, OwnerBytes, Skippable;
    var s, o := Serialized(a), OwnerBytes(a.owner);
    var q := p + |o|;
    assert s[..|o|] == o;
    SubSlice(d, p, s, 0, |o|);
    OwnerSkipped(d, p, a.owner);
    SubSlice(d, p, s, |o|, |o| + 10);
    SubSlice(d, p, s, |o| + 10, |s|);
    assert s[|o|..|o| + 10] == Fixed(a) && s[|o| + 10..] == a.rdata;
    FixedFields(d, q, a);
  }

  /** All answers are read: exactly the A records among them, in order, if the eight slots suffice. */
  lemma {:induction false} AnswersRead(d: seq<byte>, p: nat, answers: seq<Answer>, found: seq<Record>)
    requires p + |AllSerialized(answers)| <= |d| && d[p..p + |AllSerialized(answers)|] == AllSerialized(answers)
    requires forall a :: a in answers ==> WellFormed(a) && Skippable(a.owner)
    requires |found| <= 8
    ensures Answers(d, p, |answers|, found)
         == if |found| + |Addresses(answers)| <= 8 then Found(found + Addresses(answers))
            else Stopped(Outside)
    decreases |answers|
  {
    hide Answers, Serialized, AllSerialized, WellFormed, Skippable, IsInA, Kept, Addresses;
    if answers == [] {
      NoAnswers(d, p, found);
    } else {
      var a, rest := answers[0], answers[1..];
      var s, all := Serialized(a), AllSerialized(answers);
      FirstSerialized(answers);
      SubSlice(d, p, all, 0, |s|);
      SubSlice(d, p, all, |s|, |all|);
      assert all[..|s|] == s && all[|s|..] == AllSerialized(rest);
      assert a in answers && forall b :: b in rest ==> b in answers;
      AnswerRead(d, p, |answers|, a, found);
      AddressesOf(answers);
      if !IsInA(a) {
        AnswersRead(d, p + |s|, rest, found);
      } else if |found| < 8 {
        AnswersRead(d, p + |s|, rest, found + [Kept(a)]);
        assert found + [Kept(a)] + Addresses(rest) == found + Addresses(answers);
      }
    }
  }

  lemma FirstSerialized(answers: seq<Answer>)
    requires answers != []
    ensures AllSerialized(answers) == Serialized(answers[0]) + AllSerialized(answers[1..])
  {}

  lemma AddressesOf(answers: seq<Answer>)
    requires answers != []
    ensures Addresses(answers)
         == if IsInA(answers[0]) then [Kept(answers[0])] + Addresses(answers[1..]) else Addresses(answers[1..])
  {}

  lemma NoAnswers(d: seq<byte>, p: nat, found: seq<Record>)
    ensures Answers(d, p, 0, found) == Found(found) && Addresses([]) == [] && found + Addresses([]) == found
  {}

  // ---------------------------------------------------------------- the question in front

  /** A label whose length byte is not zero. */
  predicate Visible(l: seq<byte>) { |l| % 0x100 != 0 }

  lemma {:induction false} NoZeroInLabels(ls: seq<seq<byte>>)
    requires forall l: seq<byte> :: l in ls ==> 0 !in l
    ensures 0 !in Encoded(ls) <==> forall l :: l in ls ==> Visible(l)
    decreases |ls|
  {
    if ls == [] {
    } else {
      var front, last := ls[..|ls| - 1], ls[|ls| - 1];
      NoZeroInLabels(front);
      var code := [(|last| % 0x100) as byte] + last;
      assert Encoded(ls) == Encoded(front) + code;
      assert ls == front + [last];
      assert 0 in code <==> !Visible(last);
    }
  }

  lemma {:induction false} LabelsHaveNoZero(name: seq<byte>)
    requires 0 !in name
    ensures forall l: seq<byte> :: l in Labels(name) ==> 0 !in l
  {
    if name == [] {
      EmptyName();
    } else {
      var front := name[..|name| - 1];
      LabelsHaveNoZero(front);
      LabelsStep(front, name[|name| - 1]);
      assert name == front + [name[|name| - 1]];
      ExtendedHaveNoZero(Labels(front), Labels(name), name[|name| - 1]);
    }
  }

  /** One more character extends the last label or opens one. */
  lemma ExtendedHaveNoZero(ls: seq<seq<byte>>, ls': seq<seq<byte>>, c: byte)
    requires |ls| > 0 && |ls'| > 0 && c != 0 && forall l: seq<byte> :: l in ls ==> 0 !in l
    requires (ls'[..|ls'| - 1] == ls && ls'[|ls'| - 1] == [])
          || (ls'[..|ls'| - 1] == ls[..|ls| - 1] && ls'[|ls'| - 1] == ls[|ls| - 1] + [c])
    ensures forall l: seq<byte> :: l in ls' ==> 0 !in l
  {
    forall i | 0 <= i < |ls'|
      ensures 0 !in ls'[i]
    {
      if i < |ls'| - 1 {
        assert ls'[i] == ls'[..|ls'| - 1][i];
        assert ls'[i] == ls[i] && ls[i] in ls;
      } else {
        assert ls[|ls| - 1] in ls;
      }
    }
  }

  /**
   * Behind the question that dns_request wrote, whatever follows, the skip loop stands exactly at the question's end
   * just if no label has a length that is a multiple of 256, the empty label included. Names are C strings.
   */
  lemma QuestionSkipped(name: seq<byte>, rest: seq<byte>)
    requires 0 !in name
    ensures SkipQuestion(Question(name) + rest) == Some(|Question(name)|)
        <==> forall l :: l in Labels(name) ==> Visible(l)
  {
    hide Encoded, Labels, IndexOf;
    LabelsHaveNoZero(name);
    NoZeroInLabels(Labels(name));
    var code, d := Encoded(Labels(name)), Question(name) + rest;
    assert d[|code|] == 0 && forall k :: 0 <= k < |code| ==> d[k] == code[k];
    var z := IndexOf(d, 0, 0);
    if 0 !in code {
      assert z == |code|;
    } else {
      var k :| 0 <= k < |code| && code[k] == 0;
      assert z <= k;
    }
  }

  /** The payload of a response: the question echoed or not, the answers, and whatever sections follow. */
  function Response(echo: bool, name: seq<byte>, answers: seq<Answer>, more: seq<byte>): seq<byte>
  {
    (if echo then Question(name) else []) + AllSerialized(answers) + more
  }

  /**
   * For every response of at most 512 payload bytes that echoes the question or has none, and lists its answers as the
   * RFC has them, with skippable owners, pointers and the root among them, receiving it yields exactly its A records,
   * time to live and address, in order, if there are at most eight. The twelve bytes `header` have the identifier, the
   * number of questions and `|answers|` answers.
   */
  lemma ResponseIsParsed(id: nat, resolver: nat, header: seq<byte>, echo: bool, name: seq<byte>, answers: seq<Answer>,
      more: seq<byte>)
    requires |header| == 12 && From16(header, 0) == id && From16(header, 4) == if echo then 1 else 0
    requires From16(header, 6) == |answers| > 0
    requires echo ==> 0 !in name && forall l :: l in Labels(name) ==> Visible(l)
    requires forall a :: a in answers ==> WellFormed(a) && Skippable(a.owner)
    requires |Response(echo, name, answers, more)| <= 512
    ensures Received(id, resolver, Some(header + Response(echo, name, answers, more)), resolver)
         == if |Addresses(answers)| <= 8 then Found(Addresses(answers)) else Stopped(Outside)
  {
    hide Answers, AllSerialized, Addresses, WellFormed, Skippable, Question, SkipQuestion, From16, Labels, Visible;
    var response := Response(echo, name, answers, more);
    var packet := Packet(header + response);
    var pad := Fill(512 - |response|, 0);
    assert packet[12..] == response + pad;
    HeaderKept(header, response);
    var d, s := packet[12..], AllSerialized(answers);
    var q := if echo then Question(name) else [];
    assert d == q + (s + more + pad);
    if echo {
      QuestionSkipped(name, s + more + pad);
    }
    assert d[|q|..|q| + |s|] == s;
    AnswersRead(d, |q|, answers, []);
    assert [] + Addresses(answers) == Addresses(answers);
  }

  lemma HeaderKept(header: seq<byte>, response: seq<byte>)
    requires |header| == 12
    ensures var packet := Packet(header + response);
            && From16(packet, 0) == From16(header, 0)
            && From16(packet, 4) == From16(header, 4)
            && From16(packet, 6) == From16(header, 6)
  {}
}
