/**
 What the delivery protocol guarantees over whole runs: exclusive leases, honest attempt counts,
 at-least-once delivery, no silent loss, and a drain that ends.
 */
module OutboxSafety {
  import opened Prelude
  import opened Outbox
  import opened OutboxProtocol

  ghost predicate Reachable(c: Config, s: System) {
    exists s0: System, steps: seq<Step> :: Init(c, s0) && ValidRun(c, s0, steps) && Run(c, s0, steps) == s
  }

  lemma ReachableInv(c: Config, s: System)
    requires Reachable(c, s)
    ensures Inv(c, s)
  {
    var s0: System, steps: seq<Step> :| Init(c, s0) && ValidRun(c, s0, steps) && Run(c, s0, steps) == s;
    RunKeeps(c, s0, steps);
  }

  /// Leases

  ghost predicate Unexpired(c: Config, s: System, w: Worker) {
    Milli(s.now) < Until(c, w)
  }

  /** A running lease is still on its row, and no two workers ever hold running leases on the same row. */
  lemma LeasesAreExclusive(c: Config, s: System, v: nat, w: nat)
    requires Reachable(c, s)
    requires v in s.workers && w in s.workers && v != w
    requires Unexpired(c, s, s.workers[v]) && Unexpired(c, s, s.workers[w])
    ensures Holds(s.tables, s.workers[v]) && Holds(s.tables, s.workers[w])
    ensures s.workers[v].key != s.workers[w].key
  {
    ReachableInv(c, s);
    assert WorkerOk(c, s, s.workers[v]) && WorkerOk(c, s, s.workers[w]);
  }

  /** The delivery began soon after the claim and has not yet outrun its timeout. */
  ghost predicate OnTime(c: Config, s: System, w: Worker) {
    && w.phase.Delivering?
    && w.phase.begun - w.granted <= 15 * SECOND - MILLISECOND && s.now <= w.phase.begun + c.o.timeout
  }

  /** Deliveries that stay within their timeout never overlap on one (event, target). */
  lemma DeliveriesNeverOverlap(c: Config, s: System, v: nat, w: nat)
    requires Reachable(c, s)
    requires v in s.workers && w in s.workers && v != w
    requires OnTime(c, s, s.workers[v]) && OnTime(c, s, s.workers[w])
    ensures s.workers[v].key != s.workers[w].key
  {
    LeasesAreExclusive(c, s, v, w);
  }

  ghost predicate Unused(t: Tables, lease: string) {
    forall k :: k in t.rows ==> t.rows[k].lease != lease
  }

  lemma UnusedStep(c: Config, s: System, st: Step, lease: string)
    requires Inv(c, s) && Enabled(c, s, st)
    requires lease != "" && lease in s.issued && Unused(s.tables, lease)
    ensures lease in Apply(c, s, st).issued && Unused(Apply(c, s, st).tables, lease)
  {
    match st
    case DoAppend(a) =>
      if Append(s.tables, c.lim, a).Accepted? { AppendAccepted(s.tables, c.lim, a); }
    case DoClaim(_, target, clk, l) =>
      if Grant(s.tables, target, clk, LeaseTime(c.o), l).Some? { ClaimGrants(c, s, st); }
    case DoReplay(session, id, targets, _, clocks) =>
      if Replay(s.tables, c.lim, session, id, targets, s.now, clocks).Ok? { ReplayHappens(c, s, st); }
    case _ =>
  }

  lemma {:induction false} UnusedRun(c: Config, s: System, steps: seq<Step>, lease: string)
    requires Inv(c, s) && ValidRun(c, s, steps)
    requires lease != "" && lease in s.issued && Unused(s.tables, lease)
    ensures Unused(Run(c, s, steps).tables, lease)
    decreases |steps|
  {
    if steps == [] {
    } else {
      UnusedStep(c, s, steps[0], lease);
      StepKeeps(c, s, steps[0]);
      UnusedRun(c, Apply(c, s, steps[0]), steps[1..], lease);
    }
  }

  /**
   Once a worker's lease is off its row (finished by nobody, re-granted, replayed or expired), it
   never comes back, and that worker's late finish changes nothing, whatever happened in between.
   */
  lemma {:induction false} LateFinishIsHarmless(c: Config, s: System, steps: seq<Step>, w: nat)
    requires Inv(c, s) && ValidRun(c, s, steps)
    requires w in s.workers && !Holds(s.tables, s.workers[w])
    ensures var z := Run(c, s, steps);
      w in z.workers && z.workers[w].lease == s.workers[w].lease && Enabled(c, z, DoFinish(w)) ==>
        Apply(c, z, DoFinish(w)).tables == z.tables
  {
    var lease := s.workers[w].lease;
    assert WorkerOk(c, s, s.workers[w]);
    UnusedRun(c, s, steps, lease);
  }

  /// Attempts and outcomes

  /**
   The attempt column counts the finishes that took effect since the row was last enqueued; a
   pending row has budget left; the column a worker read when it claimed is still the row's as
   long as its lease is.
   */
  lemma AttemptsAreCounted(c: Config, s: System, k: Key)
    requires Reachable(c, s) && k in s.tables.rows
    ensures s.tables.rows[k].attempt == TrailOf(s.log, k).finishes
    ensures s.tables.rows[k].status == Pending ==> s.tables.rows[k].attempt < c.o.attempts
    ensures forall w :: w in s.workers && s.workers[w].key == k && Holds(s.tables, s.workers[w]) ==>
      s.tables.rows[k].attempt == s.workers[w].attempt && s.tables.rows[k].status == Pending
  {
    ReachableInv(c, s);
    assert RowOk(c, s, k, s.tables.rows[k]);
    forall w | w in s.workers && s.workers[w].key == k && Holds(s.tables, s.workers[w])
      ensures s.tables.rows[k].attempt == s.workers[w].attempt && s.tables.rows[k].status == Pending
    {
      assert WorkerOk(c, s, s.workers[w]);
    }
  }

  /**
   At least once: a row reads delivered exactly when the last finish since its enqueuing said so,
   and then its target did acknowledge the event, under the lease which that finish consumed.
   */
  lemma DeliveredMeansAcknowledged(c: Config, s: System, k: Key)
    requires Reachable(c, s) && k in s.tables.rows
    ensures s.tables.rows[k].status == Delivered <==>
      exists lease :: TrailOf(s.log, k).last == Some((lease, Delivered)) && Acked(k, lease) in s.log
  {
    ReachableInv(c, s);
    assert RowOk(c, s, k, s.tables.rows[k]);
    if s.tables.rows[k].status == Delivered {
      var lease := TrailOf(s.log, k).last.value.0;
      assert TrailOf(s.log, k).last == Some((lease, Delivered)) && Acked(k, lease) in s.log;
    }
  }

  /** This append is accepted, and its expiry takes the event: old, and with nothing pending. */
  ghost predicate ExpiresNow(c: Config, s: System, st: Step, e: Event) {
    && st.DoAppend? && Append(s.tables, c.lim, st.a).Accepted?
    && e in s.tables.events && Expired(e, s.tables.rows, Milli(st.a.now - c.lim.retention))
  }

  /** One step never takes a finished row out of its state, except by replaying the row or expiring its event. */
  lemma TerminalRowsStay(c: Config, s: System, st: Step, k: Key)
    requires Inv(c, s) && Enabled(c, s, st)
    requires k in s.tables.rows && s.tables.rows[k].status != Pending
    ensures var s' := Apply(c, s, st);
      || (k in s'.tables.rows && s'.tables.rows[k] == s.tables.rows[k])
      || (st.DoReplay? && st.id == k.event && k.target in st.targets)
      || (exists e: Event :: e.id == k.event && ExpiresNow(c, s, st, e))
  {
    assert RowOk(c, s, k, s.tables.rows[k]);
    match st
    case DoAppend(a) =>
      RowsBelongToEvents(s.tables, k);
      var e :| e in s.tables.events && e.id == k.event;
      if Append(s.tables, c.lim, a).Accepted? {
        AppendAccepted(s.tables, c.lim, a);
        if !ExpiresNow(c, s, st, e) { AppendKeepsRows(s.tables, c.lim, a, e, k); }
      }
    case DoClaim(_, target, clk, l) =>
      if Grant(s.tables, target, clk, LeaseTime(c.o), l).Some? { ClaimGrants(c, s, st); }
    case DoReplay(session, id, targets, _, clocks) =>
      if Replay(s.tables, c.lim, session, id, targets, s.now, clocks).Ok? { ReplayHappens(c, s, st); }
    case DoFinish(w) => assert WorkerOk(c, s, s.workers[w]);
    case _ =>
  }

  lemma EventsStayStep(c: Config, s: System, st: Step, e: Event)
    requires Inv(c, s) && Enabled(c, s, st)
    requires e in s.tables.events && e !in Apply(c, s, st).tables.events
    ensures st.DoAppend? && Append(s.tables, c.lim, st.a).Accepted?
    ensures Expired(e, s.tables.rows, Milli(st.a.now - c.lim.retention))
  {
    match st
    case DoAppend(a) =>
      if Append(s.tables, c.lim, a).Accepted? { AppendAccepted(s.tables, c.lim, a); }
    case DoClaim(_, target, clk, l) =>
      if Grant(s.tables, target, clk, LeaseTime(c.o), l).Some? {
        GrantPicksOldestDue(s.tables, target, clk, LeaseTime(c.o), l);
      }
    case _ =>
  }

  /** Somewhere in the run an append expires the event. */
  ghost predicate Expires(c: Config, s: System, steps: seq<Step>, e: Event)
    requires ValidRun(c, s, steps)
    decreases |steps|
  {
    steps != [] && (ExpiresNow(c, s, steps[0], e) || Expires(c, Apply(c, s, steps[0]), steps[1..], e))
  }

  /** An effective finish counts one attempt and leaves the row as the target's answer demands, its lease gone. */
  lemma FinishWrites(c: Config, s: System, w: nat)
    requires Inv(c, s) && Enabled(c, s, DoFinish(w)) && Holds(s.tables, s.workers[w])
    ensures var k, outcome := s.workers[w].key, s.workers[w].phase.outcome;
      var was := s.tables.rows[k]; var now := Apply(c, s, DoFinish(w)).tables.rows[k];
      && now.attempt == was.attempt + 1 && now.lease == "" && now.leaseUntil == 0
      && (now.status == Delivered <==> outcome == Acknowledged)
      && (now.status == Failed <==>
            outcome != Acknowledged && (was.attempt + 1 >= c.o.attempts || (outcome.Rejected? && outcome.permanent)))
      && (outcome.Rejected? ==> now.next >= Milli(s.workers[w].phase.at + Min(30 * SECOND, outcome.after)))
      && now.next <= Milli(s.workers[w].phase.at + 30 * SECOND)
  {
    var x := s.workers[w];
    assert WorkerOk(c, s, x);
    SettleMeans(c.o, x.attempt, x.phase.outcome, x.phase.at);
  }

  predicate Replays(st: Step, k: Key) {
    st.DoReplay? && st.id == k.event && k.target in st.targets
  }

  predicate EverReplays(steps: seq<Step>, k: Key) {
    steps != [] && (Replays(steps[0], k) || EverReplays(steps[1..], k))
  }

  /** A worker that has this row claimed it before. */
  ghost predicate NoNewHolder(s: System, z: System, k: Key) {
    forall w :: w in z.workers && z.workers[w].key == k ==>
      w in s.workers && s.workers[w].key == k && s.workers[w].lease == z.workers[w].lease
  }

  lemma OtherEvent(t: Tables, a: Event, b: Event)
    requires WellFormed(t) && a in t.events && b in t.events && a != b
    ensures a.id != b.id
  {
    var i :| 0 <= i < |t.events| && t.events[i] == a;
    var j :| 0 <= j < |t.events| && t.events[j] == b;
  }

  lemma GrantedElsewhere(
      c: Config, s: System, s': System, w: nat, key: Key, clk: Clock, lease: string, k: Key)
    requires Granted(c, s, s', w, key, clk, lease) && k in s.tables.rows && s.tables.rows[k].status != Pending
    ensures NoNewHolder(s, s', k)
  {
  }

  lemma ClaimGets(c: Config, s: System, st: Step, k: Key)
    requires Inv(c, s) && st.DoClaim? && Enabled(c, s, st)
    requires k in s.tables.rows && s.tables.rows[k].status != Pending
    ensures NoNewHolder(s, Apply(c, s, st), k)
  {
    var g := Grant(s.tables, st.target, st.c, LeaseTime(c.o), st.lease);
    if g.Some? {
      ClaimGrants(c, s, st);
      GrantedElsewhere(c, s, Apply(c, s, st), st.w, Key(g.value.1.event.id, st.target), st.c, st.lease, k);
    }
  }

  lemma OthersGetNothing(c: Config, s: System, st: Step, k: Key)
    requires !st.DoClaim? && Enabled(c, s, st)
    ensures NoNewHolder(s, Apply(c, s, st), k)
  {
  }

  lemma NobodyGets(c: Config, s: System, st: Step, k: Key)
    requires Inv(c, s) && Enabled(c, s, st)
    requires k in s.tables.rows && s.tables.rows[k].status != Pending
    ensures NoNewHolder(s, Apply(c, s, st), k)
  {
    if st.DoClaim? {
      ClaimGets(c, s, st, k);
    } else {
      OthersGetNothing(c, s, st, k);
    }
  }

  lemma HoldersCompose(s: System, m: System, z: System, k: Key)
    requires NoNewHolder(s, m, k) && NoNewHolder(m, z, k)
    ensures NoNewHolder(s, z, k)
  {
  }

  lemma TerminalStep(c: Config, s: System, st: Step, e: Event, k: Key)
    requires Inv(c, s) && Enabled(c, s, st) && !Replays(st, k) && !ExpiresNow(c, s, st, e)
    requires e in s.tables.events && k.event == e.id
    requires k in s.tables.rows && s.tables.rows[k].status != Pending
    ensures var t := Apply(c, s, st).tables; e in t.events && k in t.rows && t.rows[k] == s.tables.rows[k]
  {
    TerminalRowsStay(c, s, st, k);
    if e !in Apply(c, s, st).tables.events {
      EventsStayStep(c, s, st, e);
    }
    if x: Event :| x.id == k.event && ExpiresNow(c, s, st, x) {
      OtherEvent(s.tables, x, e);
    }
  }

  /** Unless it is replayed, a delivered or failed row stays as it is until its event expires, and no worker gets it. */
  lemma {:induction false} TerminalIsFinal(c: Config, s: System, steps: seq<Step>, e: Event, k: Key)
    requires Inv(c, s) && ValidRun(c, s, steps) && !EverReplays(steps, k)
    requires e in s.tables.events && k.event == e.id
    requires k in s.tables.rows && s.tables.rows[k].status != Pending
    ensures Expires(c, s, steps, e) || (var z := Run(c, s, steps);
      k in z.tables.rows && z.tables.rows[k] == s.tables.rows[k] && NoNewHolder(s, z, k))
    decreases |steps|
  {
    if steps == [] {
    } else {
      var s' := Apply(c, s, steps[0]);
      if !ExpiresNow(c, s, steps[0], e) {
        NobodyGets(c, s, steps[0], k);
        TerminalStep(c, s, steps[0], e, k);
        StepKeeps(c, s, steps[0]);
        TerminalIsFinal(c, s', steps[1..], e, k);
        if !Expires(c, s', steps[1..], e) {
          HoldersCompose(s, s', Run(c, s', steps[1..]), k);
        }
      }
    }
  }

  /** So an event rejected for good is never delivered to that target again without a replay. */
  lemma RejectedForGood(c: Config, s: System, w: nat, steps: seq<Step>, e: Event)
    requires Inv(c, s) && Enabled(c, s, DoFinish(w)) && Holds(s.tables, s.workers[w])
    requires s.workers[w].phase.outcome.Rejected? && s.workers[w].phase.outcome.permanent
    requires var s' := Apply(c, s, DoFinish(w)); ValidRun(c, s', steps) && e in s'.tables.events
    requires s.workers[w].key.event == e.id && !EverReplays(steps, s.workers[w].key)
    ensures var k, s' := s.workers[w].key, Apply(c, s, DoFinish(w)); var z := Run(c, s', steps);
      Expires(c, s', steps, e) || (k in z.tables.rows && z.tables.rows[k].status == Failed && NoNewHolder(s', z, k))
  {
    FinishWrites(c, s, w);
    StepKeeps(c, s, DoFinish(w));
    TerminalIsFinal(c, Apply(c, s, DoFinish(w)), steps, e, s.workers[w].key);
  }

  /**
   No pending row is ever stranded.  Whatever became of its worker (lost reply, cancelled
   shutdown, crash), it can be claimed again after the longer of the lease and 30 s.
   */
  lemma PendingRowsComeBack(c: Config, s: System, k: Key, clk: Clock, lease: string)
    requires Reachable(c, s) && k in s.tables.rows && s.tables.rows[k].status == Pending
    requires clk.due >= s.now + MAX_DELAY && clk.free >= s.now + LeaseTime(c.o)
    ensures Ready(s.tables.rows[k], clk)
    ensures Grant(s.tables, k.target, clk, LeaseTime(c.o), lease).Some?
  {
    ReachableInv(c, s);
    assert RowOk(c, s, k, s.tables.rows[k]);
    GrantIffReady(s.tables, k.target, clk, LeaseTime(c.o), lease);
  }

  /// No silent loss, bounded size

  /** The stats row tells the truth and both totals are within the configured limits. */
  lemma OutboxIsBounded(c: Config, s: System)
    requires Reachable(c, s)
    ensures s.tables.n == |s.tables.events| <= c.lim.limit
    ensures s.tables.b == Bytes(s.tables.events) <= c.lim.maxBytes
  {
    ReachableInv(c, s);
  }

  /** Delivery rows live as long as their event. */
  lemma RowsStayStep(c: Config, s: System, st: Step, e: Event, k: Key)
    requires WellFormed(s.tables) && Enabled(c, s, st)
    requires e in s.tables.events && k in s.tables.rows && k.event == e.id
    requires e in Apply(c, s, st).tables.events
    ensures k in Apply(c, s, st).tables.rows
  {
    match st
    case DoAppend(a) =>
      if Append(s.tables, c.lim, a).Accepted? {
        AppendKeepsRows(s.tables, c.lim, a, e, k);
      }
    case DoClaim(_, target, clk, l) =>
      if Grant(s.tables, target, clk, LeaseTime(c.o), l).Some? { ClaimGrants(c, s, st); }
    case DoReplay(session, id, targets, _, clocks) =>
      if Replay(s.tables, c.lim, session, id, targets, s.now, clocks).Ok? { ReplayHappens(c, s, st); }
    case _ =>
  }

  /**
   Over any run, an event and its delivery rows disappear only together and only by expiry: older
   than the retention, and no delivery pending.
   */
  lemma {:induction false} NoSilentLoss(c: Config, s: System, steps: seq<Step>, e: Event)
    requires Inv(c, s) && ValidRun(c, s, steps)
    requires e in s.tables.events
    ensures Expires(c, s, steps, e) || (e in Run(c, s, steps).tables.events
      && forall k :: k in s.tables.rows && k.event == e.id ==> k in Run(c, s, steps).tables.rows)
    decreases |steps|
  {
    if steps == [] {
    } else {
      var s' := Apply(c, s, steps[0]);
      if e !in s'.tables.events {
        EventsStayStep(c, s, steps[0], e);
      } else {
        StepKeeps(c, s, steps[0]);
        NoSilentLoss(c, s', steps[1..], e);
        forall k | k in s.tables.rows && k.event == e.id ensures k in s'.tables.rows {
          RowsStayStep(c, s, steps[0], e, k);
        }
      }
    }
  }

  /// Draining

  /** Deliveries a row may still consume. */
  function Weight(attempts: nat, r: Row): nat {
    if r.status == Pending && r.attempt < attempts then attempts - r.attempt else 0
  }

  ghost function Budget(attempts: nat, rows: map<Key, Row>): nat
    decreases |rows|
  {
    if rows == map[] then 0
    else
      var k :| k in rows;
      Weight(attempts, rows[k]) + Budget(attempts, rows - {k})
  }

  lemma {:induction false} BudgetSplit(attempts: nat, rows: map<Key, Row>, k: Key)
    requires k in rows
    ensures Budget(attempts, rows) == Weight(attempts, rows[k]) + Budget(attempts, rows - {k})
    decreases |rows|
  {
    var j :| j in rows && Budget(attempts, rows) == Weight(attempts, rows[j]) + Budget(attempts, rows - {j});
    if j != k {
      BudgetSplit(attempts, rows - {j}, k);
      BudgetSplit(attempts, rows - {k}, j);
      assert rows - {j} - {k} == rows - {k} - {j};
    }
  }

  lemma BudgetUpdate(attempts: nat, rows: map<Key, Row>, k: Key, r: Row)
    requires k in rows
    ensures Budget(attempts, rows[k := r]) + Weight(attempts, rows[k]) == Budget(attempts, rows) + Weight(attempts, r)
  {
    BudgetSplit(attempts, rows, k);
    BudgetSplit(attempts, rows[k := r], k);
    assert rows[k := r] - {k} == rows - {k};
  }

  lemma TakeKey(attempts: nat, rows: map<Key, Row>, k: Key)
    requires k in rows
    ensures |PendingKeys(rows)| == |PendingKeys(rows - {k})| + (if rows[k].status == Pending then 1 else 0)
  {
    if rows[k].status == Pending {
      assert PendingKeys(rows) == PendingKeys(rows - {k}) + {k};
    } else {
      assert PendingKeys(rows) == PendingKeys(rows - {k});
    }
  }

  lemma OneMore(attempts: nat, n: nat)
    ensures attempts * (n + 1) == attempts * n + attempts
  {
  }

  /** The budget is zero exactly when nothing is pending, and at most attempts per pending row. */
  lemma {:induction false} BudgetBounds(attempts: nat, rows: map<Key, Row>)
    requires forall k :: k in rows && rows[k].status == Pending ==> rows[k].attempt < attempts
    ensures |PendingKeys(rows)| <= Budget(attempts, rows) <= attempts * |PendingKeys(rows)|
    decreases |rows|
  {
    if rows == map[] {
      assert PendingKeys(rows) == {};
    } else {
      var k :| k in rows;
      var rest := rows - {k};
      BudgetBounds(attempts, rest);
      BudgetSplit(attempts, rows, k);
      TakeKey(attempts, rows, k);
      OneMore(attempts, |PendingKeys(rest)|);
    }
  }

  function Finishes(log: seq<Note>): nat {
    if log == [] then 0 else (if log[|log| - 1].Finished? then 1 else 0) + Finishes(log[..|log| - 1])
  }

  predicate Draining(st: Step) {
    !st.DoAppend? && !st.DoReplay?
  }

  /** The worker's write takes effect. */
  predicate Spends(s: System, st: Step) {
    st.DoFinish? && st.w in s.workers && Holds(s.tables, s.workers[st.w])
  }

  lemma ClaimSpendsNothing(c: Config, s: System, st: Step)
    requires Inv(c, s) && st.DoClaim? && Enabled(c, s, st)
    ensures Budget(c.o.attempts, Apply(c, s, st).tables.rows) == Budget(c.o.attempts, s.tables.rows)
    ensures Apply(c, s, st).log == s.log
  {
    var g := Grant(s.tables, st.target, st.c, LeaseTime(c.o), st.lease);
    if g.Some? {
      ClaimGrants(c, s, st);
      var key := Key(g.value.1.event.id, st.target);
      BudgetUpdate(c.o.attempts, s.tables.rows, key, Apply(c, s, st).tables.rows[key]);
    }
  }

  lemma SpendStep(c: Config, s: System, st: Step)
    requires Inv(c, s) && st.DoFinish? && Enabled(c, s, st)
    ensures var s' := Apply(c, s, st);
      && Finishes(s'.log) == Finishes(s.log) + (if Spends(s, st) then 1 else 0)
      && (if Spends(s, st) then Budget(c.o.attempts, s'.tables.rows) < Budget(c.o.attempts, s.tables.rows)
          else Budget(c.o.attempts, s'.tables.rows) == Budget(c.o.attempts, s.tables.rows))
  {
    var x := s.workers[st.w];
    assert WorkerOk(c, s, x);
    if Holds(s.tables, x) {
      FinishSettles(c, s, st);
      assert RowOk(c, s, x.key, s.tables.rows[x.key]);
      BudgetUpdate(c.o.attempts, s.tables.rows, x.key, Apply(c, s, st).tables.rows[x.key]);
    }
  }

  /** Every finish that takes effect spends at least one unit of the budget; nothing else touches it. */
  lemma DrainStep(c: Config, s: System, st: Step)
    requires Inv(c, s) && Enabled(c, s, st) && Draining(st)
    ensures var s' := Apply(c, s, st);
      && Finishes(s'.log) == Finishes(s.log) + (if Spends(s, st) then 1 else 0)
      && (if Spends(s, st) then Budget(c.o.attempts, s'.tables.rows) < Budget(c.o.attempts, s.tables.rows)
          else Budget(c.o.attempts, s'.tables.rows) == Budget(c.o.attempts, s.tables.rows))
  {
    match st
    case DoClaim(_, _, _, _) => ClaimSpendsNothing(c, s, st);
    case DoFinish(_) => SpendStep(c, s, st);
    case _ =>
  }

  lemma {:induction false} DrainRun(c: Config, s: System, steps: seq<Step>)
    requires Inv(c, s) && ValidRun(c, s, steps)
    requires forall i :: 0 <= i < |steps| ==> Draining(steps[i])
    ensures var z := Run(c, s, steps);
      Budget(c.o.attempts, z.tables.rows) + Finishes(z.log) <= Budget(c.o.attempts, s.tables.rows) + Finishes(s.log)
    decreases |steps|
  {
    if steps == [] {
    } else {
      DrainStep(c, s, steps[0]);
      StepKeeps(c, s, steps[0]);
      assert forall i :: 0 <= i < |steps[1..]| ==> steps[1..][i] == steps[i + 1];
      DrainRun(c, Apply(c, s, steps[0]), steps[1..]);
    }
  }

  lemma BudgetOf(c: Config, s: System)
    requires Inv(c, s)
    ensures var n := |PendingKeys(s.tables.rows)|; n <= Budget(c.o.attempts, s.tables.rows) <= c.o.attempts * n
    ensures PendingKeys(s.tables.rows) == {} <==> Budget(c.o.attempts, s.tables.rows) == 0
  {
    forall k | k in s.tables.rows && s.tables.rows[k].status == Pending
      ensures s.tables.rows[k].attempt < c.o.attempts
    {
      assert RowOk(c, s, k, s.tables.rows[k]);
    }
    BudgetBounds(c.o.attempts, s.tables.rows);
  }

  /**
   Draining ends: without appends and replays, however the workers interleave and fail, at most
   (attempts x pending) finishes take effect, and after as many as the budget nothing is pending.
   */
  lemma {:induction false} DrainEnds(c: Config, s: System, steps: seq<Step>)
    requires Inv(c, s) && ValidRun(c, s, steps)
    requires forall i :: 0 <= i < |steps| ==> Draining(steps[i])
    ensures var z := Run(c, s, steps); var spent := Finishes(z.log) - Finishes(s.log);
      && spent <= Budget(c.o.attempts, s.tables.rows) <= c.o.attempts * |PendingKeys(s.tables.rows)|
      && (spent == Budget(c.o.attempts, s.tables.rows) ==> PendingKeys(z.tables.rows) == {})
      && (PendingKeys(z.tables.rows) == {} <==> Budget(c.o.attempts, z.tables.rows) == 0)
  {
    DrainRun(c, s, steps);
    RunKeeps(c, s, steps);
    BudgetOf(c, s);
    BudgetOf(c, Run(c, s, steps));
  }

  /// Draining can finish

  /** What a drain leaves: the same rows, the given pending ones delivered and all others untouched. */
  ghost predicate Drained(before: map<Key, Row>, after: map<Key, Row>, done: set<Key>) {
    && after.Keys == before.Keys
    && forall k :: k in before ==> if k in done then after[k].status == Delivered else after[k] == before[k]
  }

  lemma RunCons(c: Config, s: System, st: Step, steps: seq<Step>)
    requires Enabled(c, s, st) && ValidRun(c, Apply(c, s, st), steps)
    ensures ValidRun(c, s, [st] + steps) && Run(c, s, [st] + steps) == Run(c, Apply(c, s, st), steps)
  {
    assert ([st] + steps)[1..] == steps;
  }

  lemma RunThree(c: Config, s: System, x: Step, y: Step, z: Step) returns (steps: seq<Step>)
    requires Enabled(c, s, x) && Enabled(c, Apply(c, s, x), y) && Enabled(c, Apply(c, Apply(c, s, x), y), z)
    ensures steps == [x, y, z] && ValidRun(c, s, steps)
    ensures Run(c, s, steps) == Apply(c, Apply(c, Apply(c, s, x), y), z)
  {
    var s1 := Apply(c, s, x);
    RunCons(c, Apply(c, s1, y), z, []);
    RunCons(c, s1, y, [z] + []);
    RunCons(c, s, x, [y] + ([z] + []));
    steps := [x] + ([y] + ([z] + []));
  }

  lemma AcknowledgedFinish(c: Config, s: System, w: nat, at: int)
    requires w in s.workers && s.workers[w].phase == Replied(Acknowledged, at) && Holds(s.tables, s.workers[w])
    ensures Drained(s.tables.rows, Apply(c, s, DoFinish(w)).tables.rows, {s.workers[w].key})
  {
  }

  /** A worker that holds a claimed row can deliver it and finish. */
  lemma DeliverClaimed(c: Config, s: System, w: nat, at: int) returns (steps: seq<Step>)
    requires Inv(c, s) && s.now <= at
    requires w in s.workers && s.workers[w].phase == Claimed && Holds(s.tables, s.workers[w])
    ensures ValidRun(c, s, steps) && forall i :: 0 <= i < |steps| ==> Draining(steps[i])
    ensures var j := s.workers[w].key;
      j in PendingKeys(s.tables.rows) && Drained(s.tables.rows, Run(c, s, steps).tables.rows, {j})
  {
    assert WorkerOk(c, s, s.workers[w]);
    var s1 := Apply(c, s, DoBegin(w, at));
    var s2 := Apply(c, s1, DoReply(w, Acknowledged, at));
    assert s2.workers[w] == s.workers[w].(phase := Replied(Acknowledged, at)) && s2.tables == s.tables;
    AcknowledgedFinish(c, s2, w, at);
    steps := RunThree(c, s, DoBegin(w, at), DoReply(w, Acknowledged, at), DoFinish(w));
  }

  lemma ClaimAndDeliver(c: Config, s: System, target: string, clk: Clock, lease: string)
    returns (steps: seq<Step>, j: Key)
    requires Inv(c, s) && s.workers == map[]
    requires s.now <= clk.due <= clk.free <= clk.grant && lease != "" && lease !in s.issued
    requires Grant(s.tables, target, clk, LeaseTime(c.o), lease).Some?
    ensures ValidRun(c, s, steps) && forall i :: 0 <= i < |steps| ==> Draining(steps[i])
    ensures j in PendingKeys(s.tables.rows) && Drained(s.tables.rows, Run(c, s, steps).tables.rows, {j})
  {
    var claim := DoClaim(0, target, clk, lease);
    var s' := Apply(c, s, claim);
    StepKeeps(c, s, claim);
    ClaimGrants(c, s, claim);
    j := s'.workers[0].key;
    var rest := DeliverClaimed(c, s', 0, clk.grant);
    RunCons(c, s, claim, rest);
    steps := [claim] + rest;
  }

  /**
   Draining can always go on: from every reachable state with something pending for a target, even
   right after a crash, some draining run delivers one pending row and touches no other.
   */
  lemma DrainCanGoOn(c: Config, s: System, k: Key, lease: string) returns (all: seq<Step>, done: Key)
    requires Reachable(c, s) && k in s.tables.rows && s.tables.rows[k].status == Pending
    requires lease != "" && lease !in s.issued
    ensures ValidRun(c, s, all) && forall i :: 0 <= i < |all| ==> Draining(all[i])
    ensures done in PendingKeys(s.tables.rows) && Drained(s.tables.rows, Run(c, s, all).tables.rows, {done})
  {
    ReachableInv(c, s);
    var at := s.now + Max(MAX_DELAY, LeaseTime(c.o));
    var clk := Clock(at, at, at);
    PendingRowsComeBack(c, s, k, clk, lease);
    var s1 := Apply(c, s, DoCrash);
    StepKeeps(c, s, DoCrash);
    var steps, j := ClaimAndDeliver(c, s1, k.target, clk, lease);
    RunCons(c, s, DoCrash, steps);
    all, done := [DoCrash] + steps, j;
  }

  lemma {:induction false} RunJoin(c: Config, s: System, a: seq<Step>, b: seq<Step>)
    requires ValidRun(c, s, a) && ValidRun(c, Run(c, s, a), b)
    ensures ValidRun(c, s, a + b) && Run(c, s, a + b) == Run(c, Run(c, s, a), b)
    decreases |a|
  {
    if a == [] {
      assert a + b == b;
    } else {
      RunJoin(c, Apply(c, s, a[0]), a[1..], b);
      assert a + b == [a[0]] + (a[1..] + b);
      RunCons(c, s, a[0], a[1..] + b);
    }
  }

  lemma ReachableOn(c: Config, s: System, steps: seq<Step>)
    requires Reachable(c, s) && ValidRun(c, s, steps)
    ensures Reachable(c, Run(c, s, steps))
  {
    var s0: System, before: seq<Step> :| Init(c, s0) && ValidRun(c, s0, before) && Run(c, s0, before) == s;
    RunJoin(c, s0, before, steps);
  }

  lemma {:induction false} LongerThanAll(used: set<string>) returns (n: nat)
    ensures forall l :: l in used ==> |l| < n
  {
    if used == {} {
      n := 0;
    } else {
      var l :| l in used;
      var m := LongerThanAll(used - {l});
      n := m + |l| + 1;
    }
  }

  /** There is always another lease id. */
  lemma FreshLease(used: set<string>) returns (lease: string)
    ensures lease != "" && lease !in used
  {
    var n := LongerThanAll(used);
    lease := seq(n + 1, _ => 'x');
  }

  /**
   And it can finish: from every reachable state, even right after a crash, some draining run ends
   with every pending row delivered, every other row as it was, and so nothing pending.
   */
  lemma {:induction false} DrainCanFinish(c: Config, s: System) returns (steps: seq<Step>)
    requires Reachable(c, s)
    ensures ValidRun(c, s, steps) && forall i :: 0 <= i < |steps| ==> Draining(steps[i])
    ensures var rows := Run(c, s, steps).tables.rows;
      Drained(s.tables.rows, rows, PendingKeys(s.tables.rows)) && PendingKeys(rows) == {}
    decreases |PendingKeys(s.tables.rows)|
  {
    if PendingKeys(s.tables.rows) == {} {
      steps := [];
    } else {
      var k :| k in PendingKeys(s.tables.rows);
      var lease := FreshLease(s.issued);
      var first, done := DrainCanGoOn(c, s, k, lease);
      var s' := Run(c, s, first);
      ReachableOn(c, s, first);
      assert PendingKeys(s'.tables.rows) == PendingKeys(s.tables.rows) - {done};
      var rest := DrainCanFinish(c, s');
      RunJoin(c, s, first, rest);
      steps := first + rest;
    }
  }
}
