/** The future that copies a reader into a writer and gives up when nothing has moved for the length of its deadline. */
module CopyWithDeadline {
  import opened Bytes
  import opened Results

  // ---------------------------------------------------------------- the world outside

  /** What a call on the reader, the writer or flush comes back with; `Ready(n)` offers or takes up to `n` bytes. */
  datatype Answer = WouldBlock | Broken | Ready(n: nat)

  /** One I/O call: when it returns, and with what. */
  datatype Event = Event(time: nat, answer: Answer)

  datatype Error = WriteZero | Io

  datatype Outcome =
    | NotReady
    | Complete(amt: nat)
    | Failed(error: Error)
    | Panicked           // polled again after completion: unwrap on None

  function Min(a: nat, b: nat): (m: nat)
    ensures m <= a && m <= b && (m == a || m == b)
  {
    if a < b then a else b
  }

  /** How many bytes a read delivers: none only at the end of the stream, and never more than the buffer holds. */
  function Delivered(n: nat, left: nat): (k: nat)
    ensures k <= left && k <= 2048 && (k == 0 <==> left == 0)
    ensures n > 0 ==> k == n || k == left || k == 2048
    ensures n > 0 ==> k <= n
  {
    if left == 0 then 0 else if n == 0 then 1 else Min(n, Min(left, 2048))
  }

  // ---------------------------------------------------------------- a poll, call by call

  /** What is unread, what is read but not written, what is written, whether the end was seen, and the last move. */
  datatype State = State(stream: seq<byte>, held: seq<byte>, sink: seq<byte>, ended: bool, lastMove: nat)

  /** How a poll ends, in which state, and after how many calls that came back ready. */
  datatype Polled = Polled(outcome: Outcome, state: State, used: nat)

  /** The state after a write that takes `i` bytes, and after a read that delivers `k`. */
  function AfterWrite(s: State, i: nat, time: nat): State
    requires i <= |s.held|
  {
    s.(held := s.held[i..], sink := s.sink + s.held[..i], lastMove := time)
  }

  function AfterRead(s: State, k: nat, time: nat): State
    requires k <= |s.stream|
  {
    s.(stream := s.stream[k..], held := s.stream[..k], ended := k == 0, lastMove := time)
  }

  function More(p: Polled, n: nat): Polled { p.(used := p.used + n) }

  /**
   * The calls of a poll one after the other: a write while something is held, a read otherwise, and flush once the end
   * was seen. Behind the end of the script calls would block.
   */
  function Calls(s: State, script: seq<Event>): Polled
    decreases |script|
  {
    if script == [] || script[0].answer == WouldBlock then Polled(NotReady, s, 0)
    else if script[0].answer == Broken then Polled(Failed(Io), s, 0)
    else
      var n, time := script[0].answer.n, script[0].time;
      if s.held != [] then
        var i := Min(n, |s.held|);
        if i == 0 then Polled(Failed(WriteZero), AfterWrite(s, 0, time), 1)
        else More(Calls(AfterWrite(s, i, time), script[1..]), 1)
      else if !s.ended then More(Calls(AfterRead(s, Delivered(n, |s.stream|), time), script[1..]), 1)
      else Polled(Complete(|s.sink|), s, 1)
  }

  /** No more calls than this are needed to complete: two for every unread byte, one for every held one, and the end. */
  function Needed(s: State): nat { 2 * |s.stream| + |s.held| + if s.ended then 1 else 2 }

  /** All that the reader had, in its places. */
  function Everything(s: State): seq<byte> { s.sink + s.held + s.stream }

  ghost predicate Sane(s: State) { (s.ended ==> s.stream == []) && |s.held| <= 2048 }

  /** Nothing is lost or invented on the way from `s` to `t`, what is written stays, and what is read stays read. */
  ghost predicate Keeps(s: State, t: State)
  {
    Sane(t) && Everything(t) == Everything(s) && s.sink <= t.sink && |t.stream| <= |s.stream|
  }

  lemma WriteKeeps(s: State, i: nat, time: nat)
    requires Sane(s) && i <= |s.held|
    ensures Keeps(s, AfterWrite(s, i, time)) && AfterWrite(s, i, time).lastMove == time
    ensures i > 0 ==> Needed(AfterWrite(s, i, time)) < Needed(s)
  {
    assert s.held[..i] + s.held[i..] == s.held;
    assert s.sink + s.held[..i] + s.held[i..] == s.sink + s.held;
  }

  lemma ReadKeeps(s: State, n: nat, time: nat)
    requires Sane(s) && s.held == [] && !s.ended
    ensures var t := AfterRead(s, Delivered(n, |s.stream|), time);
            Keeps(s, t) && t.lastMove == time && Needed(t) < Needed(s)
  {
    hide Delivered;
    var k := Delivered(n, |s.stream|);
    assert s.sink + s.held == s.sink && s.stream[..k] + s.stream[k..] == s.stream;
    assert s.sink + s.stream[..k] + s.stream[k..] == s.sink + s.stream;
  }

  /** A poll loses and invents nothing, and completes with everything written. */
  lemma {:induction false} CallsKeep(s: State, script: seq<Event>)
    requires Sane(s)
    ensures var p := Calls(s, script);
            && Keeps(s, p.state)
            && (p.outcome.Complete? ==> p.outcome.amt == |p.state.sink| && p.state.sink == Everything(s))
    decreases |script|
  {
    hide AfterWrite, AfterRead, Delivered, Needed;
    if script == [] || !script[0].answer.Ready? {
    } else {
      var n, time := script[0].answer.n, script[0].time;
      if s.held != [] {
        var i := Min(n, |s.held|);
        WriteKeeps(s, i, time);
        if i > 0 {
          CallsKeep(AfterWrite(s, i, time), script[1..]);
        }
      } else if !s.ended {
        ReadKeeps(s, n, time);
        CallsKeep(AfterRead(s, Delivered(n, |s.stream|), time), script[1..]);
      } else {
        assert s.sink + s.held + s.stream == s.sink;
      }
    }
  }

  /** The call that ends a poll decides its outcome, and every call in front of it came back ready. */
  ghost predicate Decided(r: Outcome, used: nat, script: seq<Event>)
  {
    && used <= |script| && (forall i :: 0 <= i < used ==> script[i].answer.Ready?)
    && match r
       case NotReady => used == |script| || script[used].answer == WouldBlock
       case Failed(Io) => used < |script| && script[used].answer == Broken
       case Failed(WriteZero) => used > 0 && script[used - 1].answer == Ready(0)
       case Complete(_) => used > 0
       case Panicked => false
  }

  /** Every call that comes back ready is one of those needed, and renews the deadline unless it is the flush. */
  lemma {:induction false} CallsMove(s: State, script: seq<Event>)
    requires Sane(s)
    ensures var p := Calls(s, script);
            && Decided(p.outcome, p.used, script)
            && (p.outcome == NotReady ==> Needed(p.state) + p.used <= Needed(s))
            && Moved(s.lastMove, p, script)
    decreases |script|
  {
    hide AfterWrite, AfterRead, Delivered, Needed, Decided, Moved;
    if script == [] || !script[0].answer.Ready? {
      NoCall(s, script);
    } else {
      var n, time := script[0].answer.n, script[0].time;
      if s.held != [] {
        var i := Min(n, |s.held|);
        WriteKeeps(s, i, time);
        if i > 0 {
          CallsMove(AfterWrite(s, i, time), script[1..]);
          OneMore(Calls(AfterWrite(s, i, time), script[1..]), script, s.lastMove);
        } else {
          LastCall(s, script);
        }
      } else if !s.ended {
        ReadKeeps(s, n, time);
        var t := AfterRead(s, Delivered(n, |s.stream|), time);
        CallsMove(t, script[1..]);
        OneMore(Calls(t, script[1..]), script, s.lastMove);
      } else {
        LastCall(s, script);
      }
    }
  }

  /** The last read or write that came back, if there was one, is the last move. */
  ghost predicate Moved(before: nat, p: Polled, script: seq<Event>)
  {
    var moves := if p.outcome.Complete? then p.used - 1 else p.used;
    0 <= moves <= |script| && p.state.lastMove == if moves == 0 then before else script[moves - 1].time
  }

  lemma OneMore(p: Polled, script: seq<Event>, before: nat)
    requires script != [] && script[0].answer.Ready?
    requires Decided(p.outcome, p.used, script[1..]) && Moved(script[0].time, p, script[1..])
    ensures Decided(p.outcome, p.used + 1, script) && Moved(before, More(p, 1), script)
  {
    forall i | 0 <= i < p.used + 1
      ensures script[i].answer.Ready?
    {
      if i > 0 {
        assert script[i] == script[1..][i - 1];
      }
    }
  }

  lemma NoCall(s: State, script: seq<Event>)
    requires script == [] || !script[0].answer.Ready?
    ensures var p := Calls(s, script);
            Decided(p.outcome, p.used, script) && Moved(s.lastMove, p, script) && p.state == s && p.used == 0
  {}

  lemma LastCall(s: State, script: seq<Event>)
    requires script != [] && script[0].answer.Ready?
    requires if s.held != [] then script[0].answer.n == 0 else s.ended
    ensures var p := Calls(s, script);
            Decided(p.outcome, p.used, script) && Moved(s.lastMove, p, script)
  {}

  /** The next call, while the buffer is empty and the end was not seen. */
  lemma CallsReading(s: State, script: seq<Event>, k: nat)
    requires k < |script| && script[k].answer.Ready? && s.held == [] && !s.ended
    ensures More(Calls(s, script[k..]), k)
         == More(Calls(AfterRead(s, Delivered(script[k].answer.n, |s.stream|), script[k].time), script[k + 1..]), k + 1)
  {
    assert script[k..][0] == script[k] && script[k..][1..] == script[k + 1..];
  }

  /** The next call, while something is held. */
  lemma CallsWriting(s: State, script: seq<Event>, k: nat)
    requires k < |script| && script[k].answer.Ready? && s.held != []
    ensures var i, time := Min(script[k].answer.n, |s.held|), script[k].time;
            More(Calls(s, script[k..]), k)
            == if i == 0 then Polled(Failed(WriteZero), AfterWrite(s, 0, time), k + 1)
               else More(Calls(AfterWrite(s, i, time), script[k + 1..]), k + 1)
  {
    assert script[k..][0] == script[k] && script[k..][1..] == script[k + 1..];
  }

  /** Calls that come back ready and move something. */
  ghost predicate AllReady(script: seq<Event>)
  {
    forall i :: 0 <= i < |script| ==> script[i].answer.Ready? && script[i].answer.n > 0
  }

  /** If all calls are ready, a poll goes through its whole script, or completes; it completes if there are enough. */
  lemma ReadyCalls(s: State, script: seq<Event>)
    requires AllReady(script) && Sane(s)
    ensures var p := Calls(s, script);
            && (p.outcome.Complete? || (p.outcome == NotReady && p.used == |script|))
            && (|script| >= Needed(s) ==> p.outcome.Complete?)
  {
    hide Calls, Moved;
    CallsMove(s, script);
  }

  /** A call that comes back without anything, or flush, ends a poll. */
  lemma CallsEnd(s: State, script: seq<Event>, k: nat)
    requires k <= |script|
    ensures k == |script| || script[k].answer == WouldBlock ==> More(Calls(s, script[k..]), k) == Polled(NotReady, s, k)
    ensures k < |script| && script[k].answer == Broken ==> More(Calls(s, script[k..]), k) == Polled(Failed(Io), s, k)
    ensures k < |script| && script[k].answer.Ready? && s.held == [] && s.ended ==>
              More(Calls(s, script[k..]), k) == Polled(Complete(|s.sink|), s, k + 1)
  {
    if k < |script| {
      assert script[k..][0] == script[k];
    }
  }

  lemma CallsStart(s: State, script: seq<Event>)
    ensures More(Calls(s, script[0..]), 0) == Calls(s, script)
  {
    assert script[0..] == script;
  }

  // ---------------------------------------------------------------- the future

  class Copy {
    // the fields of the future
    const deadline: nat
    const hasTimer: bool
    var deadlineAt: nat
    var taken: bool
    var readDone: bool
    var pos: nat
    var cap: nat
    var amt: nat
    const buf: array<byte>
    // the reader's remaining stream, and what the writer has received
    var stream: seq<byte>
    var sink: seq<byte>
    // everything the reader started with, and when a read or write last came back
    ghost const source: seq<byte>
    ghost var lastMove: nat

    /** Bytes read but not yet written. */
    function Buffered(): seq<byte>
      requires pos <= cap <= buf.Length
      reads this, buf
    {
      buf[pos..cap]
    }

    ghost function View(): State
      requires pos <= cap <= buf.Length
      reads this, buf
    {
      State(stream, Buffered(), sink, readDone, lastMove)
    }

    ghost predicate Valid()
      reads this, buf
    {
      && buf.Length == 2048
      && pos <= cap <= 2048
      && source == sink + Buffered() + stream
      && amt == |sink|
      && (readDone ==> stream == [])
      && deadlineAt == lastMove + deadline
    }

    constructor (reader: seq<byte>, deadline: nat, hasTimer: bool, now: nat)
      ensures Valid() && source == stream == reader && sink == [] && !taken && !readDone
      ensures this.hasTimer == hasTimer && this.deadline == deadline && lastMove == now
      ensures fresh(buf) && View() == State(reader, [], [], false, now)
    {
      this.deadline, this.hasTimer, deadlineAt, lastMove := deadline, hasTimer, now + deadline, now;
      taken, readDone, pos, cap, amt := false, false, 0, 0, 0;
      buf := new byte[2048](_ => 0);
      stream, sink, source := reader, [], reader;
    }

    /**
     * One poll at time `now`; `script` says what the I/O calls of this poll come back with, and calls behind its end
     * would block. `expired` tells a completion by the timer from one by the end of the stream.
     */
    method Poll(now: nat, script: seq<Event>) returns (r: Outcome, used: nat, ghost expired: bool)
      requires Valid()
      modifies this, buf
      ensures Valid()
      ensures expired <==> !old(taken) && (!hasTimer || now >= old(lastMove) + deadline)
      ensures !old(taken) && !expired ==>
          Polled(r, View(), used) == Calls(old(View()), script) && Decided(r, used, script)
      ensures r == Panicked <==> old(taken)
      ensures taken <==> old(taken) || r.Complete?
      ensures old(sink) <= sink && |stream| <= |old(stream)|
      ensures r.Complete? ==> r.amt == |sink|
      ensures r.Complete? && !expired ==> sink == source
      ensures !old(taken) && !expired && AllReady(script) && |script| >= 2 * |old(stream)| + |old(Buffered())| + 2 ==>
                r == Complete(|source|) && sink == source
      ensures expired ==> r.Complete? && View() == old(View()) && |Buffered()| <= 2048 && used == 0
    {
      expired, used := false, 0;
      // An absent timer polls as ready at once.
      if !hasTimer || now >= deadlineAt {
        if taken {
          return Panicked, 0, false;
        }
        taken := true;
        return Complete(amt), 0, true;
      }
      if taken {
        return Panicked, 0, false;
      }
      CallsKeep(View(), script);
      CallsMove(View(), script);
      hide Calls;
      if AllReady(script) {
        ReadyCalls(View(), script);
      }
      r, used := Pump(script);
    }

    /** The loop of `poll`: how it ends, and how many calls have come back ready. */
    method Pump(script: seq<Event>) returns (r: Outcome, used: nat)
      requires Valid() && !taken
      modifies this, buf
      ensures Valid() && (taken <==> r.Complete?)
      ensures Polled(r, View(), used) == Calls(old(View()), script)
    {
      hide Calls, More, AfterWrite, AfterRead, Delivered, Min;
      used := 0;
      CallsStart(View(), script);
      while true
        invariant Valid() && !taken && used <= |script|
        invariant Calls(old(View()), script) == More(Calls(View(), script[used..]), used)
        decreases |script| - used
      {
        ghost var start := used;
        if pos == cap && !readDone {
          CallsEnd(View(), script, used);
          if used == |script| || script[used].answer == WouldBlock {
            return NotReady, used;
          }
          if script[used].answer == Broken {
            return Failed(Io), used;
          }
          CallsReading(View(), script, used);
          Receive(script[used]);
          used := used + 1;
        }
        var stopped: Option<Outcome>;
        stopped, used := WriteOut(script, used);
        if stopped.Some? {
          return stopped.value, used;
        }
        if pos == cap && readDone {
          CallsEnd(View(), script, used);
          if used == |script| || script[used].answer == WouldBlock {
            return NotReady, used;
          }
          if script[used].answer == Broken {
            return Failed(Io), used;
          }
          taken := true;
          return Complete(amt), used + 1;
        }
      }
    }

    /** The inner loop, from call `first` on: how it ends the poll, if it does not empty the buffer. */
    method WriteOut(script: seq<Event>, first: nat) returns (stopped: Option<Outcome>, used: nat)
      requires Valid() && !taken && first <= |script|
      modifies `sink, `pos, `amt, `deadlineAt, `lastMove
      ensures Valid() && first <= used <= |script| && (stopped.Some? ==> !stopped.value.Complete?)
      ensures stopped == None ==> pos == cap && (used == first ==> old(pos) == pos)
      ensures More(Calls(old(View()), script[first..]), first)
           == if stopped == None then More(Calls(View(), script[used..]), used)
              else Polled(stopped.value, View(), used)
    {
      hide Calls, More, AfterWrite, Min;
      used := first;
      while pos < cap
        invariant Valid() && !taken && first <= used <= |script| && (used == first ==> old(pos) == pos)
        invariant More(Calls(old(View()), script[first..]), first) == More(Calls(View(), script[used..]), used)
        decreases cap - pos
      {
        CallsEnd(View(), script, used);
        if used == |script| || script[used].answer == WouldBlock {
          return Some(NotReady), used;
        }
        if script[used].answer == Broken {
          return Some(Failed(Io)), used;
        }
        CallsWriting(View(), script, used);
        var moved := Drain(script[used]);
        used := used + 1;
        if moved == 0 {
          return Some(Failed(WriteZero)), used;
        }
      }
      stopped := None;
    }

    /** A read that delivers, into the empty buffer. */
    method Receive(e: Event)
      requires Valid() && pos == cap && !readDone && e.answer.Ready?
      modifies `stream, `pos, `cap, `readDone, `deadlineAt, `lastMove, buf
      ensures Valid()
      ensures View() == AfterRead(old(View()), Delivered(e.answer.n, |old(stream)|), e.time)
    {
      assert Buffered() == [] && source == sink + stream;
      var n := Delivered(e.answer.n, |stream|);
      ghost var got, rest := stream[..n], stream[n..];
      assert source == sink + got + rest;
      Load(stream[..n]);
      stream := stream[n..];
      deadlineAt, lastMove := e.time + deadline, e.time;
      if n == 0 {
        readDone := true;
        assert Buffered() == got;
      } else {
        pos := 0;
        cap := n;
        assert Buffered() == got;
      }
    }

    method Load(x: seq<byte>)
      requires |x| <= buf.Length
      modifies buf
      ensures buf[..|x|] == x
    {
      Memcpy(buf, 0, x);
    }

    /** A write that takes some of the buffered bytes; none is an error. */
    method Drain(e: Event) returns (i: nat)
      requires Valid() && pos < cap && e.answer.Ready?
      modifies `sink, `pos, `amt, `deadlineAt, `lastMove
      ensures Valid()
      ensures i == Min(e.answer.n, |old(Buffered())|) && View() == AfterWrite(old(View()), i, e.time)
      ensures pos == old(pos) + i
    {
      i := Min(e.answer.n, cap - pos);
      ghost var taken, kept := buf[pos..pos + i], buf[pos + i..cap];
      assert Buffered() == taken + kept && Buffered()[..i] == taken;
      assert source == sink + taken + kept + stream;
      deadlineAt, lastMove := e.time + deadline, e.time;
      sink := sink + buf[pos..pos + i];
      pos := pos + i;
      amt := amt + i;
    }
  }

  // ---------------------------------------------------------------- whole runs

  /** A poll of the executor: when, and how its I/O calls come back. */
  datatype Wakeup = Wakeup(now: nat, script: seq<Event>)

  /** When the last of the calls came back. */
  function LastTime(script: seq<Event>, last: nat): nat
  {
    if script == [] then last else script[|script| - 1].time
  }

  /** No poll comes as late as the deadline after the last call in front of it, and all calls are ready. */
  ghost predicate Lively(schedule: seq<Wakeup>, deadline: nat, last: nat)
  {
    schedule == []
    || (&& schedule[0].now < last + deadline && AllReady(schedule[0].script)
        && Lively(schedule[1..], deadline, LastTime(schedule[0].script, last)))
  }

  function CallCount(schedule: seq<Wakeup>): nat
  {
    if schedule == [] then 0 else |schedule[0].script| + CallCount(schedule[1..])
  }

  /**
   * The future from its creation on, polled by any schedule until it completes: what the writer has received is always
   * a front part of what the reader had, all of it if the end of the stream was reached, and all but the at most 2048
   * buffered bytes of what was read if the deadline cut the copy off. If the deadline is never due and all calls are
   * ready, two calls for every byte and two more complete the copy, in however many polls.
   */
  method Run(reader: seq<byte>, deadline: nat, hasTimer: bool, start: nat, schedule: seq<Wakeup>)
    returns (r: Outcome, sink: seq<byte>, unread: seq<byte>, ghost expired: bool)
    ensures sink <= reader
    ensures r.Complete? ==> r.amt == |sink|
    ensures r.Complete? && !expired ==> sink == reader
    ensures |sink| + |unread| <= |reader| <= |sink| + |unread| + 2048
    ensures unread == reader[|reader| - |unread|..]
    ensures r != Panicked
    ensures !hasTimer && schedule != [] ==> r == Complete(0)
    ensures hasTimer && Lively(schedule, deadline, start) && CallCount(schedule) >= 2 * |reader| + 2 ==>
              r == Complete(|reader|) && sink == reader && !expired
  {
    hide Calls;
    var copy := new Copy(reader, deadline, hasTimer, start);
    r, expired := NotReady, false;
    ghost var lively := hasTimer && Lively(schedule, deadline, start);
    assert schedule[0..] == schedule;
    for i := 0 to |schedule|
      invariant copy.deadline == deadline
      invariant lively ==> Lively(schedule[i..], deadline, copy.lastMove) && r == NotReady
      invariant lively && copy.Valid() ==>
                  Needed(copy.View()) + CallCount(schedule) <= 2 * |reader| + 2 + CallCount(schedule[i..])
      invariant copy.Valid() && copy.source == reader && copy.hasTimer == hasTimer
      invariant fresh(copy) && fresh(copy.buf)
      invariant !r.Complete? && r != Panicked && !copy.taken
      invariant copy.sink <= reader
      invariant i == 0 ==> copy.sink == []
      invariant i > 0 ==> hasTimer
    {
      assert schedule[i..][0] == schedule[i] && schedule[i..][1..] == schedule[i + 1..];
      if lively {
        ReadyCalls(copy.View(), schedule[i].script);
        CallsMove(copy.View(), schedule[i].script);
      }
      var used;
      r, used, expired := copy.Poll(schedule[i].now, schedule[i].script);
      assert copy.sink <= reader;
      if r.Complete? {
        break;
      }
    }
    sink, unread := copy.sink, copy.stream;
    assert reader == sink + copy.Buffered() + unread;
  }
}
