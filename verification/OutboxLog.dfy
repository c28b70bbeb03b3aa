/**
 The durable event log as an object: every method of eventbus.Log carried out statement by
 statement on its tables, and proved to have the effect the functions of Outbox.dfy give it.
 A transaction works on local copies; committing assigns the fields, rolling back does not.
 */
module OutboxLog {
  import opened Prelude
  import opened Outbox

  datatype ListError = BadQuery

  lemma RetainedSplit(events: seq<Event>, i: nat, rows: map<Key, Row>, cutoff: int)
    requires i < |events|
    ensures Retained(events[..i + 1], rows, cutoff) ==
      Retained(events[..i], rows, cutoff) + (if Expired(events[i], rows, cutoff) then [] else [events[i]])
  {
    if i == 0 {
      assert events[..1] == [events[0]];
      assert events[..1][1..] == [];
    } else {
      RetainedSplit(events[1..], i - 1, rows, cutoff);
      assert events[..i + 1][1..] == events[1..][..i];
      assert events[..i][1..] == events[1..][..i - 1];
    }
  }

  lemma BytesSplit(events: seq<Event>, i: nat)
    requires i < |events|
    ensures Bytes(events[..i + 1]) == Bytes(events[..i]) + |events[i].body|
  {
    assert events[..i + 1] == events[..i] + [events[i]];
    BytesAppend(events[..i], [events[i]]);
    assert [events[i]][1..] == [];
  }

  lemma ExpiredIdsSplit(events: seq<Event>, i: nat, rows: map<Key, Row>, cutoff: int)
    requires i < |events|
    ensures ExpiredIds(events[..i + 1], rows, cutoff) ==
      ExpiredIds(events[..i], rows, cutoff) + (if Expired(events[i], rows, cutoff) then {events[i].id} else {})
  {
    assert events[..i + 1] == events[..i] + [events[i]];
  }

  lemma ClaimUnfolds(
      t: Tables, lim: Limits, targets: seq<string>, clocks: seq<Clock>, leaseTime: int, leases: seq<string>,
      others: seq<seq<Tx>>)
    requires |targets| == |clocks| == |leases| == |others| && targets != []
    ensures var u := DoAll(t, lim, others[0]);
      ClaimAny(t, lim, targets, clocks, leaseTime, leases, others) ==
      match Grant(u, targets[0], clocks[0], leaseTime, leases[0])
      case None => ClaimAny(u, lim, targets[1..], clocks[1..], leaseTime, leases[1..], others[1..])
      case Some(g) => (g.0, Some(g.1))
  {
  }

  class Log {
    var events: seq<Event>
    var rows: map<Key, Row>
    var n: int
    var b: int
    var lastSeq: nat
    const limits: Limits

    function Model(): Tables
      reads this
    {
      Tables(events, rows, n, b, lastSeq)
    }

    constructor (limits: Limits)
      ensures Model() == EMPTY && this.limits == limits
    {
      this.limits := limits;
      events, rows, n, b, lastSeq := [], map[], 0, 0, 0;
    }

    /** The expiry statement with its delete trigger and cascade, row by row. */
    static method DeleteExpired(t: Tables, cutoff: int) returns (x: Tables)
      ensures x == Expire(t, cutoff)
    {
      var kept, gone: set<string>, n, b := [], {}, t.n, t.b;
      for i := 0 to |t.events|
        invariant kept == Retained(t.events[..i], t.rows, cutoff)
        invariant gone == ExpiredIds(t.events[..i], t.rows, cutoff)
        invariant n == t.n - (i - |kept|)
        invariant b == t.b - (Bytes(t.events[..i]) - Bytes(kept))
      {
        var e := t.events[i];
        RetainedSplit(t.events, i, t.rows, cutoff);
        ExpiredIdsSplit(t.events, i, t.rows, cutoff);
        BytesSplit(t.events, i);
        BytesSplit(kept + [e], |kept|);
        assert (kept + [e])[..|kept|] == kept && (kept + [e])[..|kept| + 1] == kept + [e];
        if Expired(e, t.rows, cutoff) {
          gone, n, b := gone + {e.id}, n - 1, b - |e.body|;
        } else {
          kept := kept + [e];
        }
      }
      assert t.events[..|t.events|] == t.events;
      x := Tables(kept, Cascade(t.rows, gone), n, b, t.lastSeq);
    }

    /** One INSERT per target, up to the first primary key violation. */
    static method InsertDeliveries(rows: map<Key, Row>, id: string, targets: seq<string>)
      returns (r: Option<map<Key, Row>>)
      ensures r == InsertRows(rows, id, targets)
    {
      var inserted := rows;
      for i := 0 to |targets|
        invariant InsertRows(rows, id, targets) == InsertRows(inserted, id, targets[i..])
      {
        var k := Key(id, targets[i]);
        if k in inserted {
          return None;
        }
        inserted := inserted[k := FRESH_ROW];
      }
      r := Some(inserted);
    }

    method Append(a: AppendArgs) returns (r: Result<Event, AppendError>)
      modifies this
      ensures match Outbox.Append(old(Model()), limits, a)
        case Refused(e) => r == Err(e) && Model() == old(Model())
        case Accepted(t, e) => r == Ok(e) && Model() == t
    {
      if !ValidIdentity(a.name, a.session) {
        return Err(InvalidIdentity);
      }
      if a.payload == None {
        return Err(Unencodable);
      }
      if |a.payload.value| > MAX_BODY {
        return Err(TooLarge);
      }
      var x := DeleteExpired(Model(), Milli(a.now - limits.retention));
      r := InsertEvent(x, a);
    }

    /** The second half of the Append transaction: check the quota, insert, commit. */
    method InsertEvent(x: Tables, a: AppendArgs) returns (r: Result<Event, AppendError>)
      requires a.payload.Some?
      modifies this
      ensures match Insert(x, limits, a)
        case Refused(e) => r == Err(e) && Model() == old(Model())
        case Accepted(t, e) => r == Ok(e) && Model() == t
    {
      var body := a.payload.value;
      if x.n >= limits.limit || x.b + |body| > limits.maxBytes {
        return Err(Full);
      }
      if Taken(x.events, a.id) {
        return Err(UniqueViolation);
      }
      var inserted := InsertDeliveries(x.rows, a.id, a.targets);
      if inserted == None {
        return Err(UniqueViolation);
      }
      var e := Event(x.lastSeq + 1, a.id, a.session, a.name, Milli(a.created), body);
      events, rows, n, b, lastSeq := x.events + [e], inserted.value, x.n + 1, x.b + |body|, x.lastSeq + 1;
      r := Ok(e);
    }

    /** The transaction of Claim for one target. */
    method GrantOne(target: string, c: Clock, leaseTime: int, lease: string) returns (r: Option<Claim>)
      modifies this`rows
      ensures match Grant(old(Model()), target, c, leaseTime, lease)
        case None => r == None && Model() == old(Model())
        case Some(g) => r == Some(g.1) && Model() == g.0
    {
      var ready := FirstReady(Model(), target, c, |events|);
      if ready == None {
        return None;
      }
      var k := Key(ready.value.id, target);
      var attempt := rows[k].attempt;
      rows := rows[k := rows[k].(lease := lease, leaseUntil := Milli(c.grant + leaseTime))];
      r := Some(Outbox.Claim(ready.value, target, attempt, lease));
    }

    method Finish(k: Key, lease: string, status: Status, next: int)
      modifies this`rows
      ensures Model() == Outbox.Finish(old(Model()), k, lease, status, next)
    {
      if k in rows && rows[k].lease == lease {
        rows := rows[k := Row(rows[k].attempt + 1, Milli(next), status, "", 0)];
      }
    }

    method Replay(session: string, id: string, targets: seq<string>, now: int, clocks: seq<int>)
      returns (r: Option<ReplayError>)
      requires |targets| == |clocks|
      modifies this`rows
      ensures match Outbox.Replay(old(Model()), limits, session, id, targets, now, clocks)
        case Err(e) => r == Some(e) && Model() == old(Model())
        case Ok(t) => r == None && Model() == t
    {
      if !exists e :: e in events && e.id == id && e.session == session && e.created >= Milli(now - limits.retention) {
        return Some(Missing);
      }
      var reset := rows;
      for i := 0 to |targets|
        invariant ResetRows(rows, id, targets, clocks) == ResetRows(reset, id, targets[i..], clocks[i..])
      {
        var k := Key(id, targets[i]);
        if k in reset && reset[k].leaseUntil > Milli(clocks[i]) {
          return Some(InProgress);
        }
        reset := reset[k := FRESH_ROW];
      }
      rows := reset;
      r := None;
    }

    method Perform(tx: Tx)
      modifies this
      ensures Model() == Do(old(Model()), limits, tx)
    {
      match tx
      case TxAppend(a) => var _ := Append(a);
      case TxGrant(target, c, leaseTime, lease) => var _ := GrantOne(target, c, leaseTime, lease);
      case TxFinish(k, held, status, next) => Finish(k, held, status, next);
      case TxReplay(session, id, targets, now, clocks) =>
        if |targets| == |clocks| {
          var _ := Replay(session, id, targets, now, clocks);
        }
    }

    /** What other callers commit between two transactions of one operation. */
    method PerformAll(txs: seq<Tx>)
      modifies this
      ensures Model() == DoAll(old(Model()), limits, txs)
    {
      for i := 0 to |txs|
        invariant Model() == DoAll(old(Model()), limits, txs[..i])
      {
        assert txs[..i + 1][..i] == txs[..i];
        Perform(txs[i]);
      }
      assert txs[..|txs|] == txs;
    }

    /**
     Each target is tried in its own transaction, with its own clock readings and lease id; others[i] is
     what others commit before that of target i.
     */
    method Claim(
        targets: seq<string>, clocks: seq<Clock>, leaseTime: int, leases: seq<string>, others: seq<seq<Tx>>)
      returns (r: Option<Claim>)
      requires |targets| == |clocks| == |leases| == |others|
      modifies this
      ensures (Model(), r) == ClaimAny(old(Model()), limits, targets, clocks, leaseTime, leases, others)
    {
      for i := 0 to |targets|
        invariant ClaimAny(old(Model()), limits, targets, clocks, leaseTime, leases, others)
          == ClaimAny(Model(), limits, targets[i..], clocks[i..], leaseTime, leases[i..], others[i..])
      {
        ClaimUnfolds(Model(), limits, targets[i..], clocks[i..], leaseTime, leases[i..], others[i..]);
        PerformAll(others[i]);
        r := GrantOne(targets[i], clocks[i], leaseTime, leases[i]);
        if r.Some? {
          return;
        }
        assert targets[i..][1..] == targets[i + 1..] && clocks[i..][1..] == clocks[i + 1..];
        assert leases[i..][1..] == leases[i + 1..] && others[i..][1..] == others[i + 1..];
      }
      r := None;
    }

    /** One page of a session's retained events, oldest first. */
    method List(session: string, after: int, limit: int, now: int) returns (r: Result<seq<Event>, ListError>)
      requires WellFormed(Model())
      ensures r == Err(BadQuery) <==> after < 0 || limit < 1 || limit > 200
      ensures r.Ok? ==> IsPage(Matching(events, session, after, Milli(now - limits.retention)), limit, r.value)
    {
      if after < 0 || limit < 1 || limit > 200 {
        return Err(BadQuery);
      }
      var found := Matching(events, session, after, Milli(now - limits.retention));
      MatchingMembers(events, session, after, Milli(now - limits.retention));
      var top := if |found| < limit then |found| else limit;
      var out, bytes, i := [], 0, 0;
      while i < top
        invariant 0 <= i <= top && out == found[..i] && bytes == Bytes(out) <= PAGE_BYTES
      {
        assert found[i] in events && |found[i].body| <= MAX_BODY;
        if bytes + |found[i].body| > PAGE_BYTES && |out| > 0 {
          return Ok(out);
        }
        BytesSplit(found, i);
        assert found[..i + 1] == out + [found[i]];
        bytes := bytes + |found[i].body|;
        out := out + [found[i]];
        i := i + 1;
      }
      r := Ok(out);
    }

    /** Rows of the named targets that are still to be delivered, counted one by one. */
    method CountPending(targets: seq<string>) returns (count: nat)
      ensures count == |set k | k in rows && rows[k].status == Pending && k.target in targets|
      ensures count == 0 <==> forall k :: k in rows && k.target in targets ==> rows[k].status != Pending
    {
      count := 0;
      if |targets| == 0 {
        assert PendingFor(rows, targets) == {};
        return;
      }
      var rest := rows.Keys;
      ghost var counted: set<Key> := {};
      while rest != {}
        invariant rest <= rows.Keys && counted !! rest && count == |counted|
        invariant counted + (PendingFor(rows, targets) * rest) == PendingFor(rows, targets)
        decreases |rest|
      {
        var k :| k in rest;
        rest := rest - {k};
        if rows[k].status == Pending && k.target in targets {
          count := count + 1;
          counted := counted + {k};
        }
      }
      assert counted == PendingFor(rows, targets);
      assert forall k :: k in rows && k.target in targets && rows[k].status == Pending ==> k in counted;
    }
  }
}
