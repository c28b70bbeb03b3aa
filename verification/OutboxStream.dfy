/**
 A reader that follows the event log by cursor (internal/httpapi/events.go:101-153) while workers,
 appends and expiry go on changing it.
 */
module OutboxStream {
  import opened Prelude
  import opened Outbox
  import opened OutboxProtocol

  const STREAM_LIMIT := 50

  datatype Reader = Reader(session: string, start: nat, cursor: nat, seen: seq<Event>)

  /** Either a step of the log's protocol, or one List and the writing of its events. */
  datatype StreamStep = LogStep(st: Step) | Read(page: seq<Event>, written: nat)

  function Cutoff(c: Config, s: System): int {
    Milli(s.now - c.lim.retention)
  }

  ghost predicate CanStep(c: Config, s: System, r: Reader, x: StreamStep) {
    match x
    case LogStep(st) => Enabled(c, s, st)
    case Read(page, written) =>
      IsPage(Matching(s.tables.events, r.session, r.cursor, Cutoff(c, s)), STREAM_LIMIT, page) && written <= |page|
  }

  /** The cursor follows every event that was written; a failed write ends the stream there. */
  function Follow(r: Reader, events: seq<Event>): Reader
    decreases |events|
  {
    if events == [] then r else Follow(r.(cursor := events[0].seqNo, seen := r.seen + [events[0]]), events[1..])
  }

  /** The write loop itself: up to `writable` events get through. */
  method WritePage(r: Reader, page: seq<Event>, writable: nat) returns (r': Reader)
    ensures r' == Follow(r, page[..Min(writable, |page|)])
  {
    var top := Min(writable, |page|);
    var cursor, seen := r.cursor, r.seen;
    var i := 0;
    while i < |page|
      invariant 0 <= i <= top
      invariant Follow(r, page[..top]) == Follow(r.(cursor := cursor, seen := seen), page[i..top])
    {
      if i >= writable {
        break;
      }
      assert page[i..top][1..] == page[i + 1..top];
      seen := seen + [page[i]];
      cursor := page[i].seqNo;
      i := i + 1;
    }
    r' := r.(cursor := cursor, seen := seen);
  }

  ghost function StepReader(c: Config, s: System, r: Reader, x: StreamStep): (System, Reader)
    requires CanStep(c, s, r, x)
  {
    match x
    case LogStep(st) => (Apply(c, s, st), r)
    case Read(page, written) => (s, Follow(r, page[..written]))
  }

  ghost predicate CanRun(c: Config, s: System, r: Reader, xs: seq<StreamStep>)
    decreases |xs|
  {
    xs == [] || (CanStep(c, s, r, xs[0]) && var n := StepReader(c, s, r, xs[0]); CanRun(c, n.0, n.1, xs[1..]))
  }

  ghost function RunReader(c: Config, s: System, r: Reader, xs: seq<StreamStep>): (System, Reader)
    requires CanRun(c, s, r, xs)
    decreases |xs|
  {
    if xs == [] then (s, r) else var n := StepReader(c, s, r, xs[0]); RunReader(c, n.0, n.1, xs[1..])
  }

  /** What the reader has got is in order, and nothing still visible was passed over. */
  ghost predicate ReaderOk(c: Config, s: System, r: Reader) {
    && r.start <= r.cursor
    && (r.start < r.cursor ==> r.cursor <= s.tables.lastSeq)
    && Ascending(r.seen)
    && (forall e :: e in r.seen ==> r.start < e.seqNo <= r.cursor && e.session == r.session)
    && (forall e :: e in s.tables.events && Visible(e, r.session, r.start, Cutoff(c, s)) && e.seqNo <= r.cursor ==>
        e in r.seen)
  }

  lemma AscendingSnoc(events: seq<Event>, e: Event)
    requires Ascending(events) && forall x :: x in events ==> x.seqNo < e.seqNo
    ensures Ascending(events + [e])
  {
  }

  lemma {:induction false} FollowGrows(r: Reader, events: seq<Event>)
    requires Ascending(events) && Ascending(r.seen)
    requires forall e :: e in r.seen ==> e.seqNo <= r.cursor
    requires forall e :: e in events ==> r.cursor < e.seqNo
    ensures var q := Follow(r, events);
      && q.session == r.session && q.start == r.start
      && q.seen == r.seen + events && Ascending(q.seen)
      && q.cursor == (if events == [] then r.cursor else events[|events| - 1].seqNo)
    decreases |events|
  {
    if events == [] {
    } else {
      var e, rest := events[0], events[1..];
      AscendingSnoc(r.seen, e);
      assert forall i :: 0 <= i < |rest| ==> rest[i] == events[i + 1];
      FollowGrows(r.(cursor := e.seqNo, seen := r.seen + [e]), rest);
      assert r.seen + events == (r.seen + [e]) + rest;
    }
  }

  lemma PrefixOfAscending(m: seq<Event>, k: nat)
    requires Ascending(m) && k <= |m|
    ensures Ascending(m[..k])
    ensures k > 0 ==> forall e :: e in m && e.seqNo <= m[k - 1].seqNo ==> e in m[..k]
  {
    if k > 0 {
      forall e | e in m && e.seqNo <= m[k - 1].seqNo ensures e in m[..k] {
        var i :| 0 <= i < |m| && m[i] == e;
        assert m[..k][i] == e;
      }
    }
  }

  /** The written part of a page: exactly the visible events up to the new cursor. */
  lemma PagePrefix(events: seq<Event>, session: string, after: int, cutoff: int, page: seq<Event>, written: nat)
    requires Ascending(events) && DistinctIds(events)
    requires IsPage(Matching(events, session, after, cutoff), STREAM_LIMIT, page) && written <= |page|
    ensures Ascending(page[..written])
    ensures forall e :: e in page[..written] ==> e in events && Visible(e, session, after, cutoff)
    ensures written > 0 ==>
      forall e :: e in events && Visible(e, session, after, cutoff) && e.seqNo <= page[written - 1].seqNo ==>
        e in page[..written]
  {
    var m := Matching(events, session, after, cutoff);
    MatchingMembers(events, session, after, cutoff);
    MatchingOrder(events, session, after, cutoff);
    PrefixOfAscending(m, written);
    assert page[..written] == m[..written];
  }

  /** What a reader gets: events of its session behind its cursor, in order, all that are visible up to the last. */
  lemma GotKeeps(c: Config, s: System, r: Reader, got: seq<Event>, q: Reader)
    requires WellFormed(s.tables) && ReaderOk(c, s, r) && Ascending(got)
    requires forall e :: e in got ==> e in s.tables.events && Visible(e, r.session, r.cursor, Cutoff(c, s))
    requires forall e :: e in s.tables.events && Visible(e, r.session, r.cursor, Cutoff(c, s)) ==>
      e in got || got == [] || e.seqNo > got[|got| - 1].seqNo
    requires q.session == r.session && q.start == r.start && q.seen == r.seen + got && Ascending(q.seen)
    requires q.cursor == (if got == [] then r.cursor else got[|got| - 1].seqNo)
    ensures ReaderOk(c, s, q)
  {
    if got == [] {
      assert q.seen == r.seen;
    } else {
      var last := got[|got| - 1];
      assert last in got;
      var k :| 0 <= k < |s.tables.events| && s.tables.events[k] == last;
      forall e | e in got ensures e.seqNo <= last.seqNo {
        var i :| 0 <= i < |got| && got[i] == e;
      }
      forall e | e in s.tables.events && Visible(e, r.session, r.start, Cutoff(c, s)) && e.seqNo <= q.cursor
        ensures e in q.seen
      {
        if e.seqNo > r.cursor { assert e in got; } else { assert e in r.seen; }
      }
    }
  }

  lemma ReadKeeps(c: Config, s: System, r: Reader, page: seq<Event>, written: nat)
    requires WellFormed(s.tables) && ReaderOk(c, s, r) && CanStep(c, s, r, Read(page, written))
    ensures ReaderOk(c, s, Follow(r, page[..written]))
    ensures Follow(r, page[..written]).session == r.session && Follow(r, page[..written]).start == r.start
  {
    var got := page[..written];
    PagePrefix(s.tables.events, r.session, r.cursor, Cutoff(c, s), page, written);
    FollowGrows(r, got);
    GotKeeps(c, s, r, got, Follow(r, got));
  }

  lemma LogStepEvents(c: Config, s: System, st: Step)
    requires WellFormed(s.tables) && Enabled(c, s, st)
    ensures var s' := Apply(c, s, st);
      && s.tables.lastSeq <= s'.tables.lastSeq && s.now <= s'.now
      && forall e :: e in s'.tables.events ==> e in s.tables.events || s.tables.lastSeq < e.seqNo
  {
    match st
    case DoAppend(a) =>
      if Append(s.tables, c.lim, a).Accepted? { AppendAccepted(s.tables, c.lim, a); }
    case DoClaim(_, target, clk, l) =>
      if Grant(s.tables, target, clk, LeaseTime(c.o), l).Some? {
        GrantPicksOldestDue(s.tables, target, clk, LeaseTime(c.o), l);
      }
    case _ =>
  }

  lemma LogStepKeeps(c: Config, s: System, r: Reader, st: Step)
    requires WellFormed(s.tables) && Enabled(c, s, st) && ReaderOk(c, s, r)
    ensures ReaderOk(c, Apply(c, s, st), r)
  {
    LogStepEvents(c, s, st);
  }

  lemma {:induction false} StreamRunKeeps(c: Config, s: System, r: Reader, xs: seq<StreamStep>)
    requires Inv(c, s) && ReaderOk(c, s, r) && CanRun(c, s, r, xs)
    ensures var z := RunReader(c, s, r, xs);
      Inv(c, z.0) && ReaderOk(c, z.0, z.1) && z.1.session == r.session && z.1.start == r.start
    decreases |xs|
  {
    if xs == [] {
    } else {
      match xs[0]
      case LogStep(st) =>
        LogStepKeeps(c, s, r, st);
        StepKeeps(c, s, st);
        StreamRunKeeps(c, Apply(c, s, st), r, xs[1..]);
      case Read(page, written) =>
        ReadKeeps(c, s, r, page, written);
        StreamRunKeeps(c, s, Follow(r, page[..written]), xs[1..]);
    }
  }

  /**
   However appends, deliveries, replays and expiry interleave with its reads, a stream's events
   have strictly increasing sequence numbers, and every retained event of its session between
   the starting cursor and the current one was sent.
   */
  lemma StreamSkipsNothing(c: Config, s: System, session: string, start: nat, xs: seq<StreamStep>)
    requires Inv(c, s)
    requires var r := Reader(session, start, start, []); CanRun(c, s, r, xs)
    ensures var (z, q) := RunReader(c, s, Reader(session, start, start, []), xs);
      && Ascending(q.seen)
      && (forall e :: e in q.seen ==> e.session == session && start < e.seqNo <= q.cursor)
      && (forall e ::
            e in z.tables.events && e.session == session && start < e.seqNo <= q.cursor && e.created >= Cutoff(c, z) ==>
            e in q.seen)
  {
    StreamRunKeeps(c, s, Reader(session, start, start, []), xs);
  }

  /** A read makes progress whenever there is something to read: bodies of at most 1 MiB fit the 2 MiB page. */
  lemma ReadsMakeProgress(c: Config, s: System, r: Reader, page: seq<Event>)
    requires Inv(c, s) && CanStep(c, s, r, Read(page, |page|))
    ensures page == [] <==> !exists e :: e in s.tables.events && Visible(e, r.session, r.cursor, Cutoff(c, s))
  {
    var m := Matching(s.tables.events, r.session, r.cursor, Cutoff(c, s));
    MatchingMembers(s.tables.events, r.session, r.cursor, Cutoff(c, s));
    if m != [] {
      assert m[0] in m;
    }
  }
}
