/**
 The tables of the durable event log (internal/eventbus/store.go), and each of its transactions as a function on them.
 */
module Outbox {
  import opened Prelude

  datatype Event = Event(seqNo: nat, id: string, session: string, name: string, created: int, body: seq<byte>)

  datatype Status = Pending | Delivered | Failed

  /** Primary key of bus_deliveries. */
  datatype Key = Key(event: string, target: string)

  /** A delivery row.  The empty lease means that nobody holds the row. */
  datatype Row = Row(attempt: nat, next: int, status: Status, lease: string, leaseUntil: int)

  /** What INSERT INTO bus_deliveries(event,target) stores. */
  const FRESH_ROW := Row(0, 0, Pending, "", 0)

  /** bus_events in ascending sequence order, bus_deliveries, the bus_stats row and the AUTOINCREMENT counter. */
  datatype Tables = Tables(events: seq<Event>, rows: map<Key, Row>, n: int, b: int, lastSeq: nat)

  const EMPTY := Tables([], map[], 0, 0, 0)

  datatype Limits = Limits(limit: int, maxBytes: int, retention: int)

  datatype AppendArgs = AppendArgs(
    name: string, session: string, payload: Option<seq<byte>>,
    id: string, created: int, now: int, targets: seq<string>)

  datatype AppendError = InvalidIdentity | Unencodable | TooLarge | Full | UniqueViolation

  datatype AppendResult = Accepted(tables: Tables, event: Event) | Refused(error: AppendError)

  const MAX_BODY := 0x10_0000

  /// Well-formed tables

  ghost predicate Ascending(events: seq<Event>) {
    forall i, j :: 0 <= i < j < |events| ==> events[i].seqNo < events[j].seqNo
  }

  ghost predicate DistinctIds(events: seq<Event>) {
    forall i, j :: 0 <= i < j < |events| ==> events[i].id != events[j].id
  }

  ghost predicate HasEvent(events: seq<Event>, id: string) {
    exists i :: 0 <= i < |events| && events[i].id == id
  }

  function Bytes(events: seq<Event>): nat {
    if events == [] then 0 else |events[0].body| + Bytes(events[1..])
  }

  /** The constraints of the schema, and trigger totals that agree with the rows. */
  ghost predicate WellFormed(t: Tables) {
    && Ascending(t.events)
    && DistinctIds(t.events)
    && (forall i :: 0 <= i < |t.events| ==> 1 <= t.events[i].seqNo <= t.lastSeq && |t.events[i].body| <= MAX_BODY)
    && (forall k :: k in t.rows ==> HasEvent(t.events, k.event))
    && t.n == |t.events|
    && t.b == Bytes(t.events)
  }

  /// Expiry: DELETE FROM bus_events WHERE created < cutoff AND no pending delivery

  predicate HasPending(rows: map<Key, Row>, id: string) {
    exists k :: k in rows && k.event == id && rows[k].status == Pending
  }

  predicate Expired(e: Event, rows: map<Key, Row>, cutoff: int) {
    e.created < cutoff && !HasPending(rows, e.id)
  }

  function Retained(events: seq<Event>, rows: map<Key, Row>, cutoff: int): (r: seq<Event>)
    ensures |r| <= |events|
  {
    if events == [] then []
    else if Expired(events[0], rows, cutoff) then Retained(events[1..], rows, cutoff)
    else [events[0]] + Retained(events[1..], rows, cutoff)
  }

  function ExpiredIds(events: seq<Event>, rows: map<Key, Row>, cutoff: int): (ids: set<string>)
    ensures forall id :: id in ids <==> exists e :: e in events && Expired(e, rows, cutoff) && e.id == id
  {
    set e | e in events && Expired(e, rows, cutoff) :: e.id
  }

  /** ON DELETE CASCADE. */
  function Cascade(rows: map<Key, Row>, ids: set<string>): map<Key, Row> {
    map k | k in rows && k.event !in ids :: rows[k]
  }

  function Expire(t: Tables, cutoff: int): Tables {
    var kept := Retained(t.events, t.rows, cutoff);
    Tables(kept, Cascade(t.rows, ExpiredIds(t.events, t.rows, cutoff)),
           t.n - (|t.events| - |kept|), t.b - (Bytes(t.events) - Bytes(kept)), t.lastSeq)
  }

  /// Append

  /** One INSERT per target; a repeated target violates the primary key. */
  function InsertRows(rows: map<Key, Row>, id: string, targets: seq<string>): (r: Option<map<Key, Row>>)
    ensures r.Some? ==> forall k :: k in r.value <==> k in rows || (k.event == id && k.target in targets)
    ensures r.Some? ==> forall k :: k in rows ==> r.value[k] == rows[k]
    ensures r.Some? ==> forall k :: k in r.value && k !in rows ==> r.value[k] == FRESH_ROW
    decreases |targets|
  {
    if targets == [] then Some(rows)
    else if Key(id, targets[0]) in rows then None
    else InsertRows(rows[Key(id, targets[0]) := FRESH_ROW], id, targets[1..])
  }

  predicate ValidIdentity(name: string, session: string) {
    && name != "" && |name| <= 64
    && session != "" && |session| <= 64
  }

  /** id TEXT UNIQUE. */
  predicate Taken(events: seq<Event>, id: string) {
    exists e :: e in events && e.id == id
  }

  /** The insertions of Append, once expiry has made room. */
  function Insert(x: Tables, lim: Limits, a: AppendArgs): AppendResult
    requires a.payload.Some?
  {
    if x.n >= lim.limit || x.b + |a.payload.value| > lim.maxBytes then Refused(Full)
    else if Taken(x.events, a.id) then Refused(UniqueViolation)
    else
      var e := Event(x.lastSeq + 1, a.id, a.session, a.name, Milli(a.created), a.payload.value);
      match InsertRows(x.rows, a.id, a.targets)
      case None => Refused(UniqueViolation)
      case Some(rows) => Accepted(Tables(x.events + [e], rows, x.n + 1, x.b + |e.body|, x.lastSeq + 1), e)
  }

  function Append(t: Tables, lim: Limits, a: AppendArgs): AppendResult {
    if !ValidIdentity(a.name, a.session) then Refused(InvalidIdentity)
    else if a.payload == None then Refused(Unencodable)
    else if |a.payload.value| > MAX_BODY then Refused(TooLarge)
    else Insert(Expire(t, Milli(a.now - lim.retention)), lim, a)
  }

  /// Claim

  /** The three clock readings of one claim transaction: due check, lease check, lease grant. */
  datatype Clock = Clock(due: int, free: int, grant: int)

  datatype Claim = Claim(event: Event, target: string, attempt: nat, lease: string)

  predicate Ready(r: Row, c: Clock) {
    r.status == Pending && r.next <= Milli(c.due) && r.leaseUntil <= Milli(c.free)
  }

  predicate ReadyFor(t: Tables, target: string, c: Clock, e: Event) {
    var k := Key(e.id, target);
    k in t.rows && Ready(t.rows[k], c)
  }

  /** ORDER BY d.next, e.seq LIMIT 1 over the first `upTo` events. */
  function FirstReady(t: Tables, target: string, c: Clock, upTo: nat): (r: Option<Event>)
    requires upTo <= |t.events|
    ensures r.Some? ==> r.value in t.events[..upTo] && ReadyFor(t, target, c, r.value)
  {
    if upTo == 0 then None
    else
      var e := t.events[upTo - 1];
      var best := FirstReady(t, target, c, upTo - 1);
      if !ReadyFor(t, target, c, e) then best
      else if best.Some? && t.rows[Key(best.value.id, target)].next <= t.rows[Key(e.id, target)].next then best
      else Some(e)
  }

  function Grant(t: Tables, target: string, c: Clock, leaseTime: int, lease: string): Option<(Tables, Claim)> {
    match FirstReady(t, target, c, |t.events|)
    case None => None
    case Some(e) =>
      var k := Key(e.id, target);
      var row := t.rows[k].(lease := lease, leaseUntil := Milli(c.grant + leaseTime));
      Some((t.(rows := t.rows[k := row]), Claim(e, target, t.rows[k].attempt, lease)))
  }

  /// Finish

  function Finish(t: Tables, k: Key, lease: string, status: Status, next: int): Tables {
    if k in t.rows && t.rows[k].lease == lease then
      t.(rows := t.rows[k := Row(t.rows[k].attempt + 1, Milli(next), status, "", 0)])
    else t
  }

  /// Replay

  datatype ReplayError = Missing | InProgress

  function ResetRows(
      rows: map<Key, Row>, id: string, targets: seq<string>, clocks: seq<int>): (r: Option<map<Key, Row>>)
    requires |targets| == |clocks|
    ensures r.Some? ==> forall k :: k in r.value <==> k in rows || (k.event == id && k.target in targets)
    ensures r.Some? ==> forall k :: k in rows && !(k.event == id && k.target in targets) ==> r.value[k] == rows[k]
    ensures r.Some? ==> forall k: Key :: k.event == id && k.target in targets ==> r.value[k] == FRESH_ROW
    ensures r.Some? ==> forall k :: k in rows && k.event == id && k.target in targets ==>
      exists i :: 0 <= i < |clocks| && rows[k].leaseUntil <= Milli(clocks[i])
    decreases |targets|
  {
    if targets == [] then Some(rows)
    else
      var k := Key(id, targets[0]);
      if k in rows && rows[k].leaseUntil > Milli(clocks[0]) then None
      else
        var r := ResetRows(rows[k := FRESH_ROW], id, targets[1..], clocks[1..]);
        assert k in rows ==> rows[k].leaseUntil <= Milli(clocks[0]);
        assert forall j :: 0 <= j < |clocks[1..]| ==> clocks[1..][j] == clocks[j + 1];
        assert targets == [targets[0]] + targets[1..];
        r
  }

  function Replay(
      t: Tables, lim: Limits, session: string, id: string, targets: seq<string>, now: int, clocks: seq<int>)
    : Result<Tables, ReplayError>
    requires |targets| == |clocks|
  {
    if !exists e :: e in t.events && e.id == id && e.session == session && e.created >= Milli(now - lim.retention)
        then Err(Missing)
    else
      match ResetRows(t.rows, id, targets, clocks)
      case None => Err(InProgress)
      case Some(rows) => Ok(t.(rows := rows))
  }

  /// What other callers may commit

  datatype Tx =
    | TxAppend(a: AppendArgs)
    | TxGrant(target: string, c: Clock, leaseTime: int, lease: string)
    | TxFinish(k: Key, held: string, status: Status, next: int)
    | TxReplay(session: string, id: string, targets: seq<string>, now: int, clocks: seq<int>)

  /** A refused transaction changes nothing. */
  function Do(t: Tables, lim: Limits, tx: Tx): Tables {
    match tx
    case TxAppend(a) => (match Append(t, lim, a) case Refused(_) => t case Accepted(u, _) => u)
    case TxGrant(target, c, leaseTime, lease) =>
      (match Grant(t, target, c, leaseTime, lease) case None => t case Some(g) => g.0)
    case TxFinish(k, held, status, next) => Finish(t, k, held, status, next)
    case TxReplay(session, id, targets, now, clocks) =>
      if |targets| != |clocks| then t
      else (match Replay(t, lim, session, id, targets, now, clocks) case Err(_) => t case Ok(u) => u)
  }

  function DoAll(t: Tables, lim: Limits, txs: seq<Tx>): Tables {
    if txs == [] then t else Do(DoAll(t, lim, txs[..|txs| - 1]), lim, txs[|txs| - 1])
  }

  /**
   The loop over the targets of one worker, each in a transaction of its own: the first target with a
   ready row wins.  others[i] is what others commit before that of target i.
   */
  function ClaimAny(
      t: Tables, lim: Limits, targets: seq<string>, clocks: seq<Clock>, leaseTime: int, leases: seq<string>,
      others: seq<seq<Tx>>): (Tables, Option<Claim>)
    requires |targets| == |clocks| == |leases| == |others|
    decreases |targets|
  {
    if targets == [] then (t, None)
    else
      var u := DoAll(t, lim, others[0]);
      match Grant(u, targets[0], clocks[0], leaseTime, leases[0])
      case None => ClaimAny(u, lim, targets[1..], clocks[1..], leaseTime, leases[1..], others[1..])
      case Some((v, d)) => (v, Some(d))
  }

  /** The tables target i is tried on, when none before it was served. */
  function Seen(t: Tables, lim: Limits, others: seq<seq<Tx>>, i: nat): Tables
    requires i < |others|
    decreases i
  {
    var u := DoAll(t, lim, others[0]);
    if i == 0 then u else Seen(u, lim, others[1..], i - 1)
  }

  /// Reading

  const PAGE_BYTES := 0x20_0000

  predicate Visible(e: Event, session: string, after: int, cutoff: int) {
    e.session == session && e.seqNo > after && e.created >= cutoff
  }

  /** The rows the SELECT of List ranges over, before LIMIT. */
  function Matching(events: seq<Event>, session: string, after: int, cutoff: int): seq<Event> {
    if events == [] then []
    else if Visible(events[0], session, after, cutoff) then [events[0]] + Matching(events[1..], session, after, cutoff)
    else Matching(events[1..], session, after, cutoff)
  }

  /**
   What List returns out of the matching rows: a prefix within both caps, as long as possible.
   (A body is at most 1 MiB, so the first row always fits in the 2 MiB cap.)
   */
  ghost predicate IsPage(m: seq<Event>, limit: nat, page: seq<Event>) {
    && |page| <= |m| && page == m[..|page|]
    && |page| <= limit && Bytes(page) <= 2_097_152
    && (|page| < |m| && |page| < limit ==> Bytes(page) + |m[|page|].body| > 2_097_152)
  }

  /** pending: rows still to be delivered to one of the named targets. */
  function PendingKeys(rows: map<Key, Row>): set<Key> {
    set k | k in rows && rows[k].status == Pending
  }

  function PendingFor(rows: map<Key, Row>, targets: seq<string>): set<Key> {
    set k | k in rows && rows[k].status == Pending && k.target in targets
  }

  /// Facts about the transactions

  lemma {:induction false} RetainedMembers(events: seq<Event>, rows: map<Key, Row>, cutoff: int)
    ensures forall e :: e in Retained(events, rows, cutoff) <==> e in events && !Expired(e, rows, cutoff)
  {
    if events == [] {
    } else {
      RetainedMembers(events[1..], rows, cutoff);
      assert events == [events[0]] + events[1..];
    }
  }

  lemma Prepend(e: Event, events: seq<Event>)
    requires Ascending(events) && DistinctIds(events)
    requires forall x :: x in events ==> e.seqNo < x.seqNo && e.id != x.id
    ensures Ascending([e] + events) && DistinctIds([e] + events)
  {
  }

  lemma Tail(events: seq<Event>)
    requires events != [] && Ascending(events) && DistinctIds(events)
    ensures Ascending(events[1..]) && DistinctIds(events[1..])
    ensures forall x :: x in events[1..] ==> events[0].seqNo < x.seqNo && events[0].id != x.id
  {
  }

  /** Expiry keeps the order of what it keeps. */
  lemma {:induction false} RetainedOrder(events: seq<Event>, rows: map<Key, Row>, cutoff: int)
    requires Ascending(events) && DistinctIds(events)
    ensures Ascending(Retained(events, rows, cutoff)) && DistinctIds(Retained(events, rows, cutoff))
  {
    if events == [] {
    } else {
      Tail(events);
      RetainedOrder(events[1..], rows, cutoff);
      RetainedMembers(events[1..], rows, cutoff);
      if !Expired(events[0], rows, cutoff) {
        Prepend(events[0], Retained(events[1..], rows, cutoff));
      }
    }
  }

  lemma {:induction false} BytesAppend(a: seq<Event>, b: seq<Event>)
    ensures Bytes(a + b) == Bytes(a) + Bytes(b)
  {
    if a == [] {
      assert a + b == b;
    } else {
      BytesAppend(a[1..], b);
      assert (a + b)[1..] == a[1..] + b;
    }
  }

  lemma ExpireWellFormed(t: Tables, cutoff: int)
    requires WellFormed(t)
    ensures WellFormed(Expire(t, cutoff))
  {
    var x := Expire(t, cutoff);
    RetainedMembers(t.events, t.rows, cutoff);
    RetainedOrder(t.events, t.rows, cutoff);
    forall i | 0 <= i < |x.events| ensures 1 <= x.events[i].seqNo <= x.lastSeq && |x.events[i].body| <= MAX_BODY {
      assert x.events[i] in t.events;
    }
    forall k | k in x.rows ensures HasEvent(x.events, k.event) {
      assert HasEvent(t.events, k.event);
      var i :| 0 <= i < |t.events| && t.events[i].id == k.event;
      assert t.events[i] in t.events;
      assert t.events[i] in x.events;
    }
  }

  lemma PushEvent(events: seq<Event>, e: Event)
    requires Ascending(events) && DistinctIds(events)
    requires forall x :: x in events ==> x.seqNo < e.seqNo && x.id != e.id
    ensures Ascending(events + [e]) && DistinctIds(events + [e])
    ensures Bytes(events + [e]) == Bytes(events) + |e.body|
  {
    BytesAppend(events, [e]);
    assert [e][1..] == [];
  }

  lemma RowsBelongToEvents(t: Tables, k: Key)
    requires WellFormed(t) && k in t.rows
    ensures exists e :: e in t.events && e.id == k.event
  {
    assert HasEvent(t.events, k.event);
    var i :| 0 <= i < |t.events| && t.events[i].id == k.event;
    assert t.events[i] in t.events;
  }

  /** Ids are distinct, so an id that expired is not the id of an event that stayed. */
  lemma GoneWithItsEvent(t: Tables, cutoff: int, id: string)
    requires WellFormed(t) && id in ExpiredIds(t.events, t.rows, cutoff)
    ensures !HasEvent(Expire(t, cutoff).events, id)
  {
    RetainedMembers(t.events, t.rows, cutoff);
    var gone :| gone in t.events && Expired(gone, t.rows, cutoff) && gone.id == id;
    var x := Expire(t, cutoff);
    forall i | 0 <= i < |x.events| ensures x.events[i].id != id {
      assert x.events[i] in x.events && x.events[i] in t.events;
    }
  }

  /** An event expires once it is older than the cutoff and each of its deliveries has succeeded or failed for good. */
  lemma ExpiredIff(e: Event, rows: map<Key, Row>, cutoff: int)
    ensures Expired(e, rows, cutoff) <==>
      e.created < cutoff && forall k :: k in rows && k.event == e.id ==> rows[k].status in {Delivered, Failed}
  {
  }

  /**
   What expiry takes away: exactly the old events with nothing pending, and exactly their rows.
   The rows of an event that stays, finished ones included, stay as they are.
   */
  lemma ExpireExactly(t: Tables, cutoff: int)
    requires WellFormed(t)
    ensures var x := Expire(t, cutoff);
      && WellFormed(x)
      && x.lastSeq == t.lastSeq
      && (forall e :: e in x.events <==> e in t.events && !Expired(e, t.rows, cutoff))
      && (forall k :: k in x.rows ==> k in t.rows && x.rows[k] == t.rows[k])
      && (forall k :: k in t.rows ==> (k in x.rows <==> HasEvent(x.events, k.event)))
      && (forall k :: k in t.rows && t.rows[k].status == Pending ==> k in x.rows)
  {
    ExpireWellFormed(t, cutoff);
    RetainedMembers(t.events, t.rows, cutoff);
    forall k | k in t.rows && k !in Expire(t, cutoff).rows ensures !HasEvent(Expire(t, cutoff).events, k.event) {
      GoneWithItsEvent(t, cutoff, k.event);
    }
    forall k | k in t.rows && t.rows[k].status == Pending ensures k in Expire(t, cutoff).rows {
      assert HasPending(t.rows, k.event);
    }
  }

  lemma AppendKeepsWellFormed(x: Tables, e: Event, targets: seq<string>)
    requires WellFormed(x)
    requires e.seqNo == x.lastSeq + 1 && |e.body| <= MAX_BODY
    requires forall y :: y in x.events ==> y.id != e.id
    requires InsertRows(x.rows, e.id, targets).Some?
    ensures var rows := InsertRows(x.rows, e.id, targets).value;
      WellFormed(Tables(x.events + [e], rows, x.n + 1, x.b + |e.body|, x.lastSeq + 1))
  {
    PushEvent(x.events, e);
    var events := x.events + [e];
    var rows := InsertRows(x.rows, e.id, targets).value;
    forall k | k in rows ensures HasEvent(events, k.event) {
      if k in x.rows {
        var i :| 0 <= i < |x.events| && x.events[i].id == k.event;
        assert events[i].id == k.event;
      } else {
        assert events[|x.events|].id == k.event;
      }
    }
  }

  /**
   An accepted Append adds exactly one event, with a fresh sequence number and one pending row
   per target; everything that leaves is older than the retention and has nothing pending.
   */
  lemma AppendAccepted(t: Tables, lim: Limits, a: AppendArgs)
    requires WellFormed(t)
    requires Append(t, lim, a).Accepted?
    ensures var r := Append(t, lim, a); var u := r.tables;
      && WellFormed(u)
      && r.event.seqNo == t.lastSeq + 1 == u.lastSeq
      && r.event.id == a.id && r.event.session == a.session && r.event.name == a.name
      && r.event.body == a.payload.value && r.event.created == Milli(a.created)
      && u.n <= lim.limit && u.b <= lim.maxBytes
      && (forall e :: e in u.events <==>
          e == r.event || (e in t.events && !Expired(e, t.rows, Milli(a.now - lim.retention))))
      && (forall k :: k in u.rows <==>
          (k.event == a.id && k.target in a.targets) || k in Expire(t, Milli(a.now - lim.retention)).rows)
      && (forall k :: k in u.rows && k.event == a.id ==>
            k.target in a.targets && u.rows[k] == Row(0, 0, Pending, "", 0))
      && (forall k :: k in u.rows && k.event != a.id ==> k in t.rows && u.rows[k] == t.rows[k])
      && (forall k :: k in t.rows && t.rows[k].status == Pending ==>
            k.event != a.id && k in u.rows && u.rows[k] == t.rows[k])
  {
    var cutoff := Milli(a.now - lim.retention);
    var x := Expire(t, cutoff);
    ExpireExactly(t, cutoff);
    var r := Append(t, lim, a);
    assert r.tables.events == x.events + [r.event];
    AppendKeepsWellFormed(x, r.event, a.targets);
    forall k | k in x.rows ensures k.event != a.id {
      RowsBelongToEvents(x, k);
    }
  }

  predicate Distinct(targets: seq<string>) {
    forall i, j :: 0 <= i < j < |targets| ==> targets[i] != targets[j]
  }

  lemma DistinctCons(targets: seq<string>)
    requires targets != []
    ensures Distinct(targets) <==> targets[0] !in targets[1..] && Distinct(targets[1..])
  {
    forall i | 0 <= i < |targets[1..]| ensures targets[1..][i] == targets[i + 1] {
    }
    if targets[0] !in targets[1..] && Distinct(targets[1..]) {
      forall i, j | 0 <= i < j < |targets| ensures targets[i] != targets[j] {
        if i == 0 { assert targets[1..][j - 1] in targets[1..]; }
      }
    }
  }

  /** The deliveries of an event go in exactly if none of them is there and no target is repeated. */
  lemma {:induction false} InsertRowsIff(rows: map<Key, Row>, id: string, targets: seq<string>)
    ensures InsertRows(rows, id, targets).Some? <==>
      Distinct(targets) && forall x :: x in targets ==> Key(id, x) !in rows
    decreases |targets|
  {
    if targets == [] {
    } else {
      var rest := targets[1..];
      assert targets == [targets[0]] + rest;
      InsertRowsIff(rows[Key(id, targets[0]) := FRESH_ROW], id, rest);
      DistinctCons(targets);
    }
  }

  lemma InsertIff(x: Tables, lim: Limits, a: AppendArgs)
    requires WellFormed(x) && a.payload.Some?
    ensures var r := Insert(x, lim, a); var size := |a.payload.value|;
      && (r == Refused(Full) <==> !(|x.events| + 1 <= lim.limit && Bytes(x.events) + size <= lim.maxBytes))
      && (r.Accepted? <==>
            && |x.events| + 1 <= lim.limit && Bytes(x.events) + size <= lim.maxBytes
            && (forall e :: e in x.events ==> e.id != a.id) && Distinct(a.targets))
      && (r.Refused? ==> r.error == Full || r.error == UniqueViolation)
  {
    InsertRowsIff(x.rows, a.id, a.targets);
    forall k | k in x.rows ensures exists e :: e in x.events && e.id == k.event {
      RowsBelongToEvents(x, k);
    }
  }

  /**
   When an append is accepted, and otherwise why not: expiry comes first, and what stays must leave room
   for one more event and its bytes, under an id of its own and with no target named twice.
   */
  lemma AppendIff(t: Tables, lim: Limits, a: AppendArgs)
    requires WellFormed(t)
    ensures var r := Append(t, lim, a); var kept := Expire(t, Milli(a.now - lim.retention)).events;
      var named := a.name != "" && |a.name| <= 64 && a.session != "" && |a.session| <= 64;
      var sized := a.payload.Some? && |a.payload.value| <= 1_048_576;
      var room := sized && |kept| + 1 <= lim.limit && Bytes(kept) + |a.payload.value| <= lim.maxBytes;
      && (r == Refused(InvalidIdentity) <==> !named)
      && (r == Refused(Unencodable) <==> named && a.payload == None)
      && (r == Refused(TooLarge) <==> named && a.payload.Some? && !sized)
      && (r == Refused(Full) <==> named && sized && !room)
      && (r.Accepted? <==> named && room && (forall e :: e in kept ==> e.id != a.id) && Distinct(a.targets))
  {
    ExpireWellFormed(t, Milli(a.now - lim.retention));
    if a.payload.Some? {
      InsertIff(Expire(t, Milli(a.now - lim.retention)), lim, a);
    }
  }

  lemma OtherId(t: Tables, a: Event, b: Event)
    requires WellFormed(t) && a in t.events && b in t.events && a.seqNo != b.seqNo
    ensures a.id != b.id
  {
    var i :| 0 <= i < |t.events| && t.events[i] == a;
    var j :| 0 <= j < |t.events| && t.events[j] == b;
    assert i != j;
  }

  /** An append leaves the rows of every event that stays as they are. */
  lemma AppendKeepsRows(t: Tables, lim: Limits, a: AppendArgs, e: Event, k: Key)
    requires WellFormed(t) && Append(t, lim, a).Accepted?
    requires e in t.events && k in t.rows && k.event == e.id
    requires e in Append(t, lim, a).tables.events
    ensures k in Append(t, lim, a).tables.rows && Append(t, lim, a).tables.rows[k] == t.rows[k]
  {
    AppendAccepted(t, lim, a);
    var i :| 0 <= i < |t.events| && t.events[i] == e;
    assert e.seqNo <= t.lastSeq;
    assert e.id !in ExpiredIds(t.events, t.rows, Milli(a.now - lim.retention));
    OtherId(Append(t, lim, a).tables, e, Append(t, lim, a).event);
  }

  /** ORDER BY next, sequence. */
  ghost predicate NotLater(t: Tables, target: string, a: Event, b: Event)
    requires Key(a.id, target) in t.rows && Key(b.id, target) in t.rows
  {
    var first, second := t.rows[Key(a.id, target)].next, t.rows[Key(b.id, target)].next;
    first < second || (first == second && a.seqNo <= b.seqNo)
  }

  lemma {:induction false} FirstReadyIsLeast(t: Tables, target: string, c: Clock, upTo: nat)
    requires Ascending(t.events) && upTo <= |t.events|
    ensures var r := FirstReady(t, target, c, upTo);
      forall i :: 0 <= i < upTo && ReadyFor(t, target, c, t.events[i]) ==>
        r.Some? && NotLater(t, target, r.value, t.events[i])
  {
    if upTo == 0 {
    } else {
      FirstReadyIsLeast(t, target, c, upTo - 1);
      var before, e := FirstReady(t, target, c, upTo - 1), t.events[upTo - 1];
      if before.Some? {
        var k :| 0 <= k < upTo - 1 && t.events[k] == before.value;
        assert before.value.seqNo < e.seqNo;
      }
    }
  }

  lemma FirstReadyIsFirst(t: Tables, target: string, c: Clock)
    requires WellFormed(t) && FirstReady(t, target, c, |t.events|).Some?
    ensures forall e :: e in t.events && ReadyFor(t, target, c, e) ==>
      NotLater(t, target, FirstReady(t, target, c, |t.events|).value, e)
  {
    FirstReadyIsLeast(t, target, c, |t.events|);
    forall e | e in t.events && ReadyFor(t, target, c, e)
      ensures NotLater(t, target, FirstReady(t, target, c, |t.events|).value, e)
    {
      var i :| 0 <= i < |t.events| && t.events[i] == e;
      assert ReadyFor(t, target, c, t.events[i]);
    }
  }

  /** A claim is refused exactly when no row of the target is pending, due and free of a running lease. */
  lemma GrantIffReady(t: Tables, target: string, c: Clock, leaseTime: int, lease: string)
    requires WellFormed(t)
    ensures Grant(t, target, c, leaseTime, lease).Some? <==>
      exists k :: k in t.rows && k.target == target && t.rows[k].status == Pending
        && t.rows[k].next <= Milli(c.due) && t.rows[k].leaseUntil <= Milli(c.free)
  {
    FirstReadyIsLeast(t, target, c, |t.events|);
    var r := FirstReady(t, target, c, |t.events|);
    if r.Some? {
      assert Key(r.value.id, target) in t.rows;
    }
    forall k | k in t.rows && k.target == target && Ready(t.rows[k], c) ensures r.Some? {
      assert HasEvent(t.events, k.event);
      var i :| 0 <= i < |t.events| && t.events[i].id == k.event;
      assert ReadyFor(t, target, c, t.events[i]);
    }
  }

  /**
   What a grant does: of the target's rows that are pending, due and free, it picks the one with the least
   (next, sequence), stamps the lease on it and touches nothing else.
   */
  lemma GrantPicksOldestDue(t: Tables, target: string, c: Clock, leaseTime: int, lease: string)
    requires WellFormed(t)
    requires Grant(t, target, c, leaseTime, lease).Some?
    ensures var (u, d) := Grant(t, target, c, leaseTime, lease).value;
      var k := Key(d.event.id, target);
      && d.event in t.events && d.target == target && d.lease == lease
      && k in t.rows && d.attempt == t.rows[k].attempt
      && t.rows[k].status == Pending && t.rows[k].next <= Milli(c.due) && t.rows[k].leaseUntil <= Milli(c.free)
      && u == t.(rows := t.rows[k := t.rows[k].(lease := lease, leaseUntil := Milli(c.grant + leaseTime))])
      && WellFormed(u)
    ensures var d := Grant(t, target, c, leaseTime, lease).value.1;
      forall e :: e in t.events && Key(e.id, target) in t.rows ==>
        var best, other := t.rows[Key(d.event.id, target)], t.rows[Key(e.id, target)];
        other.status == Pending && other.next <= Milli(c.due) && other.leaseUntil <= Milli(c.free) ==>
          best.next < other.next || (best.next == other.next && d.event.seqNo <= e.seqNo)
  {
    var d := Grant(t, target, c, leaseTime, lease).value.1;
    assert HasEvent(t.events, d.event.id);
    FirstReadyIsFirst(t, target, c);
  }

  lemma FinishWellFormed(t: Tables, k: Key, lease: string, status: Status, next: int)
    requires WellFormed(t)
    ensures WellFormed(Finish(t, k, lease, status, next))
  {
  }

  /**
   At this place of the list, the row of the target is under a lease that still runs.  If the target was named
   before, the row is the fresh one with the lease time 0, which only a clock before 1970 takes for running.
   */
  predicate Blocked(rows: map<Key, Row>, id: string, targets: seq<string>, clocks: seq<int>, i: nat)
    requires i < |targets| == |clocks|
  {
    if targets[i] in targets[..i] then 0 > Milli(clocks[i])
    else Key(id, targets[i]) in rows && rows[Key(id, targets[i])].leaseUntil > Milli(clocks[i])
  }

  lemma {:induction false} ResetIff(rows: map<Key, Row>, id: string, targets: seq<string>, clocks: seq<int>)
    requires |targets| == |clocks|
    ensures ResetRows(rows, id, targets, clocks) == None <==>
      exists i :: 0 <= i < |targets| && Blocked(rows, id, targets, clocks, i)
    decreases |targets|
  {
    if targets == [] {
    } else if Blocked(rows, id, targets, clocks, 0) {
    } else {
      var reset := rows[Key(id, targets[0]) := FRESH_ROW];
      ResetIff(reset, id, targets[1..], clocks[1..]);
      forall i | 0 <= i < |targets[1..]|
        ensures Blocked(reset, id, targets[1..], clocks[1..], i) == Blocked(rows, id, targets, clocks, i + 1)
      {
        assert targets[..i + 1] == [targets[0]] + targets[1..][..i];
      }
      if i :| 0 <= i < |targets| && Blocked(rows, id, targets, clocks, i) {
        assert Blocked(reset, id, targets[1..], clocks[1..], i - 1);
      }
    }
  }

  /** Replay is refused exactly without such an event in retention, or when a named row is under a running lease. */
  lemma ReplayRefusedIff(
      t: Tables, lim: Limits, session: string, id: string, targets: seq<string>, now: int, clocks: seq<int>)
    requires |targets| == |clocks|
    ensures var r := Replay(t, lim, session, id, targets, now, clocks);
      var cutoff := Milli(now - lim.retention);
      var found := exists e :: e in t.events && e.id == id && e.session == session && e.created >= cutoff;
      && (r == Err(Missing) <==> !found)
      && (r == Err(InProgress) <==> found && exists i :: 0 <= i < |targets| && Blocked(t.rows, id, targets, clocks, i))
  {
    ResetIff(t.rows, id, targets, clocks);
  }

  /**
   A successful Replay gives every named target a fresh pending row for a retained event of the
   session; none of them was under a lease that still ran.
   */
  lemma ReplayResets(
      t: Tables, lim: Limits, session: string, id: string, targets: seq<string>, now: int, clocks: seq<int>)
    requires WellFormed(t) && |targets| == |clocks|
    requires Replay(t, lim, session, id, targets, now, clocks).Ok?
    ensures var u := Replay(t, lim, session, id, targets, now, clocks).value;
      && WellFormed(u)
      && u.events == t.events
      && (exists e :: e in t.events && e.id == id && e.session == session && e.created >= Milli(now - lim.retention))
      && (forall k :: k in u.rows <==> k in t.rows || (k.event == id && k.target in targets))
      && (forall k: Key :: k.event == id && k.target in targets ==> u.rows[k] == Row(0, 0, Pending, "", 0))
      && (forall k :: k in t.rows && !(k.event == id && k.target in targets) ==> u.rows[k] == t.rows[k])
      && (forall k :: k in t.rows && k.event == id && k.target in targets ==>
            exists i :: 0 <= i < |clocks| && t.rows[k].leaseUntil <= Milli(clocks[i]))
  {
    var u := Replay(t, lim, session, id, targets, now, clocks).value;
    var e :| e in t.events && e.id == id && e.session == session && e.created >= Milli(now - lim.retention);
    var i :| 0 <= i < |t.events| && t.events[i] == e;
    assert HasEvent(t.events, id);
  }

  lemma DoWellFormed(t: Tables, lim: Limits, tx: Tx)
    requires WellFormed(t)
    ensures WellFormed(Do(t, lim, tx))
  {
    match tx
    case TxAppend(a) =>
      if Append(t, lim, a).Accepted? { AppendAccepted(t, lim, a); }
    case TxGrant(target, c, leaseTime, lease) =>
      if Grant(t, target, c, leaseTime, lease).Some? { GrantPicksOldestDue(t, target, c, leaseTime, lease); }
    case TxFinish(k, held, status, next) => FinishWellFormed(t, k, held, status, next);
    case TxReplay(session, id, targets, now, clocks) =>
      if |targets| == |clocks| && Replay(t, lim, session, id, targets, now, clocks).Ok? {
        ReplayResets(t, lim, session, id, targets, now, clocks);
      }
  }

  lemma {:induction false} DoAllWellFormed(t: Tables, lim: Limits, txs: seq<Tx>)
    requires WellFormed(t)
    ensures WellFormed(DoAll(t, lim, txs))
  {
    if txs == [] {
    } else {
      DoAllWellFormed(t, lim, txs[..|txs| - 1]);
      DoWellFormed(DoAll(t, lim, txs[..|txs| - 1]), lim, txs[|txs| - 1]);
    }
  }

  ghost predicate NoneReady(t: Tables, target: string, c: Clock) {
    forall k :: k in t.rows && k.target == target ==> !Ready(t.rows[k], c)
  }

  /** What ClaimAny amounts to, target by target. */
  ghost predicate Serves(
      t: Tables, lim: Limits, targets: seq<string>, clocks: seq<Clock>, leaseTime: int, leases: seq<string>,
      others: seq<seq<Tx>>, u: Tables, r: Option<Claim>)
    requires |targets| == |clocks| == |leases| == |others|
  {
    if r.None? then
      && (forall i :: 0 <= i < |targets| ==> NoneReady(Seen(t, lim, others, i), targets[i], clocks[i]))
      && u == (if targets == [] then t else Seen(t, lim, others, |targets| - 1))
    else
      exists i :: 0 <= i < |targets|
        && Grant(Seen(t, lim, others, i), targets[i], clocks[i], leaseTime, leases[i]) == Some((u, r.value))
        && forall j :: 0 <= j < i ==> NoneReady(Seen(t, lim, others, j), targets[j], clocks[j])
  }

  lemma ServesCons(
      t: Tables, lim: Limits, targets: seq<string>, clocks: seq<Clock>, leaseTime: int, leases: seq<string>,
      others: seq<seq<Tx>>, u: Tables, r: Option<Claim>)
    requires |targets| == |clocks| == |leases| == |others| && targets != []
    requires NoneReady(DoAll(t, lim, others[0]), targets[0], clocks[0])
    requires Serves(DoAll(t, lim, others[0]), lim, targets[1..], clocks[1..], leaseTime, leases[1..], others[1..], u, r)
    ensures Serves(t, lim, targets, clocks, leaseTime, leases, others, u, r)
  {
    var v := DoAll(t, lim, others[0]);
    forall i | 0 <= i < |targets| - 1 ensures Seen(t, lim, others, i + 1) == Seen(v, lim, others[1..], i) {
    }
    if r.None? {
      forall i | 0 <= i < |targets| ensures NoneReady(Seen(t, lim, others, i), targets[i], clocks[i]) {
        if i > 0 { assert NoneReady(Seen(v, lim, others[1..], i - 1), targets[1..][i - 1], clocks[1..][i - 1]); }
      }
    } else {
      var i :| 0 <= i < |targets[1..]|
        && Grant(Seen(v, lim, others[1..], i), targets[1..][i], clocks[1..][i], leaseTime, leases[1..][i])
          == Some((u, r.value))
        && forall j :: 0 <= j < i ==> NoneReady(Seen(v, lim, others[1..], j), targets[1..][j], clocks[1..][j]);
      forall j | 0 <= j < i + 1 ensures NoneReady(Seen(t, lim, others, j), targets[j], clocks[j]) {
        if j > 0 { assert NoneReady(Seen(v, lim, others[1..], j - 1), targets[1..][j - 1], clocks[1..][j - 1]); }
      }
      assert Seen(t, lim, others, i + 1) == Seen(v, lim, others[1..], i);
      assert targets[i + 1] == targets[1..][i] && clocks[i + 1] == clocks[1..][i] && leases[i + 1] == leases[1..][i];
    }
  }

  /**
   Whatever others commit in between, a worker is served by the first of its targets that has a ready
   row when its turn comes, and by none only if none has.
   */
  lemma {:induction false} ClaimAnyServesFirst(
      t: Tables, lim: Limits, targets: seq<string>, clocks: seq<Clock>, leaseTime: int, leases: seq<string>,
      others: seq<seq<Tx>>)
    requires WellFormed(t) && |targets| == |clocks| == |leases| == |others|
    ensures var (u, r) := ClaimAny(t, lim, targets, clocks, leaseTime, leases, others);
      Serves(t, lim, targets, clocks, leaseTime, leases, others, u, r)
    decreases |targets|
  {
    if targets == [] {
    } else {
      var v := DoAll(t, lim, others[0]);
      DoAllWellFormed(t, lim, others[0]);
      GrantIffReady(v, targets[0], clocks[0], leaseTime, leases[0]);
      if Grant(v, targets[0], clocks[0], leaseTime, leases[0]).None? {
        ClaimAnyServesFirst(v, lim, targets[1..], clocks[1..], leaseTime, leases[1..], others[1..]);
        var (u, r) := ClaimAny(t, lim, targets, clocks, leaseTime, leases, others);
        ServesCons(t, lim, targets, clocks, leaseTime, leases, others, u, r);
      } else {
        assert Seen(t, lim, others, 0) == v;
      }
    }
  }

  /// How the number of pending rows moves

  lemma {:induction false} AsManyKeys(id: string, targets: set<string>)
    ensures |set x | x in targets :: Key(id, x)| == |targets|
  {
    if targets == {} {
      assert (set x | x in targets :: Key(id, x)) == {};
    } else {
      var x :| x in targets;
      AsManyKeys(id, targets - {x});
      assert (set y | y in targets :: Key(id, y)) == (set y | y in targets - {x} :: Key(id, y)) + {Key(id, x)};
    }
  }

  lemma PendingJoin(before: map<Key, Row>, after: map<Key, Row>, id: string, targets: seq<string>, named: seq<string>)
    requires forall k :: k in after && k.event == id ==> after[k] == FRESH_ROW
    requires forall k: Key :: k.event == id ==> (k in after <==> k.target in targets)
    requires forall k :: k in after && k.event != id ==> k in before && after[k] == before[k]
    requires forall k :: k in before && before[k].status == Pending ==> k.event != id && k in after
    ensures |PendingFor(after, named)| == |PendingFor(before, named)| + |set x | x in targets && x in named|
  {
    var both := set x | x in targets && x in named;
    var added := set x | x in both :: Key(id, x);
    AsManyKeys(id, both);
    assert PendingFor(after, named) == PendingFor(before, named) + added;
    assert PendingFor(before, named) !! added;
  }

  /** An accepted append adds one pending row per target, and its expiry takes none away. */
  lemma PendingAfterAppend(t: Tables, lim: Limits, a: AppendArgs, named: seq<string>)
    requires WellFormed(t) && Append(t, lim, a).Accepted?
    ensures |PendingFor(Append(t, lim, a).tables.rows, named)|
      == |PendingFor(t.rows, named)| + |set x | x in a.targets && x in named|
  {
    AppendAccepted(t, lim, a);
    PendingJoin(t.rows, Append(t, lim, a).tables.rows, a.id, a.targets, named);
  }

  /** A finish that takes effect on a pending row takes it off the count, unless it is to be retried. */
  lemma PendingAfterFinish(t: Tables, k: Key, lease: string, status: Status, next: int, named: seq<string>)
    requires k in t.rows && t.rows[k].lease == lease && t.rows[k].status == Pending
    ensures |PendingFor(Finish(t, k, lease, status, next).rows, named)|
      == |PendingFor(t.rows, named)| - (if status != Pending && k.target in named then 1 else 0)
  {
    var rows := Finish(t, k, lease, status, next).rows;
    if status != Pending && k.target in named {
      assert PendingFor(rows, named) == PendingFor(t.rows, named) - {k};
    } else {
      assert PendingFor(rows, named) == PendingFor(t.rows, named);
    }
  }

  lemma {:induction false} MatchingMembers(events: seq<Event>, session: string, after: int, cutoff: int)
    ensures forall e :: e in Matching(events, session, after, cutoff) <==>
      e in events && e.session == session && after < e.seqNo && cutoff <= e.created
  {
    if events == [] {
    } else {
      MatchingMembers(events[1..], session, after, cutoff);
      assert events == [events[0]] + events[1..];
    }
  }

  lemma {:induction false} MatchingOrder(events: seq<Event>, session: string, after: int, cutoff: int)
    requires Ascending(events) && DistinctIds(events)
    ensures Ascending(Matching(events, session, after, cutoff)) && DistinctIds(Matching(events, session, after, cutoff))
  {
    if events == [] {
    } else {
      Tail(events);
      MatchingOrder(events[1..], session, after, cutoff);
      MatchingMembers(events[1..], session, after, cutoff);
      if Visible(events[0], session, after, cutoff) {
        Prepend(events[0], Matching(events[1..], session, after, cutoff));
      }
    }
  }
}
