/**
 Any number of workers claim, deliver and write back (internal/eventbus/bus.go), amid appends, replays, lost replies,
 shutdowns and crashes.  Each transaction is one step, the clock never runs back, and lease ids are never reused. */
module OutboxProtocol {
  import opened Prelude
  import opened Outbox

  /// Options, outcomes and back-off

  datatype Options = Options(workers: int, attempts: int, timeout: int, retryBase: int)

  /** What New accepts. */
  predicate ValidOptions(o: Options) {
    && 1 <= o.workers <= 32
    && 1 <= o.attempts <= 10
    && 0 < o.timeout <= 60 * SECOND
    && 0 < o.retryBase
  }

  function LeaseTime(o: Options): int {
    o.timeout + 15 * SECOND
  }

  const MAX_DELAY := 30 * SECOND

  /** What a target's Deliver returns: nil, a DeliveryError, or any other error. */
  datatype Outcome = Acknowledged | Rejected(permanent: bool, after: int) | Broken

  function Shift(k: nat): int {
    if k == 0 then 1 else 2 * Shift(k - 1)
  }

  function Backoff(retryBase: int, attempt: nat): int {
    Min(MAX_DELAY, Wrap64(retryBase * Shift(Min(attempt, 7))))
  }

  function Delay(o: Options, attempt: nat, outcome: Outcome): int {
    var delay := Backoff(o.retryBase, attempt);
    if outcome.Rejected? then Max(delay, Min(MAX_DELAY, outcome.after)) else delay
  }

  /** The state and due time written back for an outcome observed at instant `at`. */
  function Settle(o: Options, attempt: nat, outcome: Outcome, at: int): (Status, int) {
    if outcome == Acknowledged then (Delivered, at)
    else
      var spent := attempt + 1 >= o.attempts || (outcome.Rejected? && outcome.permanent);
      (if spent then Failed else Pending, at + Delay(o, attempt, outcome))
  }

  /** The worker's code after Deliver returns. */
  method SettleStepByStep(o: Options, attempt: nat, outcome: Outcome, at: int) returns (status: Status, next: int)
    ensures (status, next) == Settle(o, attempt, outcome, at)
    ensures status == Delivered <==> outcome == Acknowledged
    ensures status == Failed <==>
      outcome != Acknowledged && (attempt + 1 >= o.attempts || (outcome.Rejected? && outcome.permanent))
    ensures outcome == Acknowledged ==> next == at
    ensures outcome.Rejected? ==> next >= at + Min(30 * SECOND, outcome.after)
    ensures next <= at + 30 * SECOND
  {
    status, next := Delivered, at;
    if outcome != Acknowledged {
      status := Pending;
      var delay := Min(MAX_DELAY, Wrap64(o.retryBase * Shift(Min(attempt, 7))));
      if outcome.Rejected? {
        if outcome.permanent {
          status := Failed;
        }
        delay := Max(delay, Min(MAX_DELAY, outcome.after));
      }
      if attempt + 1 >= o.attempts {
        status := Failed;
      }
      next := next + delay;
    }
  }

  /**
   What an outcome means: acknowledged is delivered, now; a permanent rejection or the last attempt is a
   failure, and everything else is tried again, after the back-off or what the target asked for,
   whichever is longer, and never later than 30 s.
   */
  lemma SettleMeans(o: Options, attempt: nat, outcome: Outcome, at: int)
    ensures var (status, next) := Settle(o, attempt, outcome, at); var backoff := Backoff(o.retryBase, attempt);
      && (status == Delivered <==> outcome == Acknowledged)
      && (status == Failed <==>
            outcome != Acknowledged && (attempt + 1 >= o.attempts || (outcome.Rejected? && outcome.permanent)))
      && (outcome == Acknowledged ==> next == at)
      && (outcome == Broken ==> next == at + backoff)
      && (outcome.Rejected? ==>
            && next >= at + backoff && next >= at + Min(30 * SECOND, outcome.after)
            && (next == at + backoff || next == at + Min(30 * SECOND, outcome.after)))
      && next <= at + 30 * SECOND
  {
  }

  /** The factors of the back-off. */
  lemma ShiftMeans(k: nat)
    requires k < 8
    ensures Shift(k) == [1, 2, 4, 8, 16, 32, 64, 128][k]
  {
    assert Shift(1) == 2;
    assert Shift(2) == 4;
    assert Shift(3) == 8;
    assert Shift(4) == 16;
    assert Shift(5) == 32;
    assert Shift(6) == 64;
    assert Shift(7) == 128;
  }

  /**
   The exponential back-off is the intended min(30 s, base * 2^attempt) exactly when the product
   fits in 64 bits or wraps to at least 30 s; it makes the row due at once exactly when the product
   wraps to zero or below; and never does it put a row off for more than 30 s.
   */
  lemma BackoffMeans(retryBase: int, attempt: nat)
    requires 0 < retryBase < 0x8000_0000_0000_0000
    ensures Backoff(retryBase, attempt) <= 30_000_000_000
    ensures var product := retryBase * Shift(Min(attempt, 7)); var low := product % 0x1_0000_0000_0000_0000;
      && (Backoff(retryBase, attempt) == Min(30_000_000_000, product) <==>
            product < 0x8000_0000_0000_0000 || 30_000_000_000 <= low < 0x8000_0000_0000_0000)
      && (Backoff(retryBase, attempt) <= 0 <==> low == 0 || 0x8000_0000_0000_0000 <= low)
    ensures Backoff(0x4000_0000_0000_0000, 1) < 0
  {
    ShiftMeans(Min(attempt, 7));
    assert 0 < retryBase * Shift(Min(attempt, 7));
    assert Shift(1) == 2;
  }

  /// The system

  datatype Config = Config(o: Options, lim: Limits)

  datatype Phase = Claimed | Delivering(begun: int) | Replied(outcome: Outcome, at: int)

  datatype Worker = Worker(key: Key, attempt: nat, lease: string, granted: int, phase: Phase)

  /** The trace: enqueuings by Append and Replay, acknowledgements by targets, and finishes that took effect. */
  datatype Note =
    | Enqueued(key: Key)
    | Acked(key: Key, lease: string)
    | Finished(key: Key, lease: string, status: Status)

  datatype System = System(tables: Tables, now: int, workers: map<nat, Worker>, issued: set<string>, log: seq<Note>)

  datatype Step =
    | DoAppend(a: AppendArgs)
    | DoClaim(w: nat, target: string, c: Clock, lease: string)
    | DoBegin(w: nat, at: int)
    | DoLostAck(w: nat)  // the target takes the event, but its reply never arrives
    | DoReply(w: nat, outcome: Outcome, at: int)
    | DoFinish(w: nat)
    | DoDrop(w: nat)     // cancelled shutdown, or the outcome could not be written
    | DoCrash
    | DoReplay(session: string, id: string, targets: seq<string>, at: int, clocks: seq<int>)
    | DoTick(at: int)

  function Until(c: Config, w: Worker): int {
    Milli(w.granted + LeaseTime(c.o))
  }

  ghost predicate Init(c: Config, s: System) {
    && ValidOptions(c.o)
    && 0 <= c.lim.limit && 0 <= c.lim.maxBytes
    && s.tables == EMPTY && 0 <= s.now && s.workers == map[] && s.issued == {} && s.log == []
  }

  ghost predicate Enabled(c: Config, s: System, st: Step) {
    match st
    case DoAppend(a) => s.now <= a.now && a.created <= a.now
    case DoClaim(w, _, clk, lease) =>
      w !in s.workers && lease != "" && lease !in s.issued && s.now <= clk.due <= clk.free <= clk.grant
    case DoBegin(w, at) => w in s.workers && s.workers[w].phase.Claimed? && s.now <= at
    case DoLostAck(w) => w in s.workers && s.workers[w].phase.Delivering?
    case DoReply(w, _, at) => w in s.workers && s.workers[w].phase.Delivering? && s.now <= at
    case DoFinish(w) => w in s.workers && s.workers[w].phase.Replied?
    case DoDrop(w) => w in s.workers
    case DoCrash => true
    case DoReplay(_, _, targets, at, clocks) =>
      |targets| == |clocks| && s.now <= at && forall i :: 0 <= i < |clocks| ==> s.now <= clocks[i] <= at
    case DoTick(at) => s.now <= at
  }

  function Enqueues(id: string, targets: seq<string>): seq<Note> {
    if targets == [] then [] else Enqueues(id, targets[..|targets| - 1]) + [Enqueued(Key(id, targets[|targets| - 1]))]
  }

  function Leave(workers: map<nat, Worker>, w: nat): map<nat, Worker> {
    map x | x in workers && x != w :: workers[x]
  }

  predicate Holds(t: Tables, w: Worker) {
    w.key in t.rows && t.rows[w.key].lease == w.lease
  }

  function Apply(c: Config, s: System, st: Step): System
    requires Enabled(c, s, st)
  {
    match st
    case DoAppend(a) =>
      (match Append(s.tables, c.lim, a)
       case Refused(_) => s.(now := a.now)
       case Accepted(t, e) => s.(tables := t, now := a.now, log := s.log + Enqueues(a.id, a.targets)))
    case DoClaim(w, target, clk, lease) =>
      (match Grant(s.tables, target, clk, LeaseTime(c.o), lease)
       case None => s.(now := clk.grant)
       case Some((t, d)) =>
         s.(tables := t, now := clk.grant, issued := s.issued + {lease},
            workers := s.workers[w := Worker(Key(d.event.id, target), d.attempt, lease, clk.grant, Claimed)]))
    case DoBegin(w, at) => s.(now := at, workers := s.workers[w := s.workers[w].(phase := Delivering(at))])
    case DoLostAck(w) => s.(log := s.log + [Acked(s.workers[w].key, s.workers[w].lease)])
    case DoReply(w, outcome, at) =>
      s.(now := at,
         workers := s.workers[w := s.workers[w].(phase := Replied(outcome, at))],
         log := if outcome == Acknowledged then s.log + [Acked(s.workers[w].key, s.workers[w].lease)] else s.log)
    case DoFinish(w) =>
      var x := s.workers[w];
      var (status, next) := Settle(c.o, x.attempt, x.phase.outcome, x.phase.at);
      s.(tables := Finish(s.tables, x.key, x.lease, status, next),
         workers := Leave(s.workers, w),
         log := if Holds(s.tables, x) then s.log + [Finished(x.key, x.lease, status)] else s.log)
    case DoDrop(w) => s.(workers := Leave(s.workers, w))
    case DoCrash => s.(workers := map[])
    case DoReplay(session, id, targets, at, clocks) =>
      (match Replay(s.tables, c.lim, session, id, targets, s.now, clocks)
       case Err(_) => s.(now := at)
       case Ok(t) => s.(tables := t, now := at, log := s.log + Enqueues(id, targets)))
    case DoTick(at) => s.(now := at)
  }

  ghost predicate ValidRun(c: Config, s: System, steps: seq<Step>)
    decreases |steps|
  {
    steps == [] || (Enabled(c, s, steps[0]) && ValidRun(c, Apply(c, s, steps[0]), steps[1..]))
  }

  ghost function Run(c: Config, s: System, steps: seq<Step>): System
    requires ValidRun(c, s, steps)
    decreases |steps|
  {
    if steps == [] then s else Run(c, Apply(c, s, steps[0]), steps[1..])
  }

  /// The history of one row

  /** Finishes that took effect since the last enqueuing of k, and the last of them. */
  datatype Trail = Trail(finishes: nat, last: Option<(string, Status)>)

  function TrailOf(log: seq<Note>, k: Key): Trail {
    if log == [] then Trail(0, None)
    else
      var before := TrailOf(log[..|log| - 1], k);
      match log[|log| - 1]
      case Enqueued(j) => if j == k then Trail(0, None) else before
      case Acked(_, _) => before
      case Finished(j, lease, status) => if j == k then Trail(before.finishes + 1, Some((lease, status))) else before
  }

  lemma {:induction false} TrailEnqueues(log: seq<Note>, id: string, targets: seq<string>, k: Key)
    ensures TrailOf(log + Enqueues(id, targets), k) ==
      if k.event == id && k.target in targets then Trail(0, None) else TrailOf(log, k)
  {
    if targets == [] {
      assert log + Enqueues(id, targets) == log;
    } else {
      var front, last := targets[..|targets| - 1], targets[|targets| - 1];
      TrailEnqueues(log, id, front, k);
      assert log + Enqueues(id, targets) == (log + Enqueues(id, front)) + [Enqueued(Key(id, last))];
      assert targets == front + [last];
    }
  }

  /// The invariant

  ghost predicate Bounded(c: Config, s: System) {
    && WellFormed(s.tables)
    && s.tables.n <= c.lim.limit && s.tables.b <= c.lim.maxBytes
    && 0 <= s.now
  }

  ghost predicate RowOk(c: Config, s: System, k: Key, r: Row) {
    var trail := TrailOf(s.log, k);
    && r.attempt == trail.finishes
    && (match trail.last
        case None => r.status == Pending
        case Some((lease, status)) => status == r.status && (status == Delivered ==> Acked(k, lease) in s.log))
    && (if r.status == Pending then r.attempt < c.o.attempts else r.lease == "")
    && (r.lease != "" ==> r.lease in s.issued)
    && r.next <= Milli(s.now + MAX_DELAY)
    && r.leaseUntil <= Milli(s.now + LeaseTime(c.o))
  }

  ghost predicate RowsOk(c: Config, s: System) {
    forall k :: k in s.tables.rows ==> RowOk(c, s, k, s.tables.rows[k])
  }

  ghost predicate WorkerOk(c: Config, s: System, w: Worker) {
    && w.lease != "" && w.lease in s.issued
    && w.granted <= s.now
    && (Holds(s.tables, w) || Until(c, w) <= Milli(s.now))
    && (Holds(s.tables, w) ==>
          var r := s.tables.rows[w.key]; r.status == Pending && r.attempt == w.attempt && r.leaseUntil == Until(c, w))
    && (forall k :: k in s.tables.rows && s.tables.rows[k].lease == w.lease ==> k == w.key)
    && (w.phase.Delivering? ==> w.granted <= w.phase.begun <= s.now)
    && (w.phase.Replied? ==>
        w.granted <= w.phase.at <= s.now && (w.phase.outcome == Acknowledged ==> Acked(w.key, w.lease) in s.log))
  }

  ghost predicate WorkersOk(c: Config, s: System) {
    && (forall w :: w in s.workers ==> WorkerOk(c, s, s.workers[w]))
    && (forall v, w :: v in s.workers && w in s.workers && v != w ==> s.workers[v].lease != s.workers[w].lease)
  }

  ghost predicate Inv(c: Config, s: System) {
    && ValidOptions(c.o)
    && Bounded(c, s)
    && RowsOk(c, s)
    && WorkersOk(c, s)
  }

  /// Each step keeps the invariant

  /** Time passes and facts are added to the trace; the row's own history is unchanged. */
  lemma RowOkLater(c: Config, s: System, s': System, k: Key, r: Row)
    requires RowOk(c, s, k, r)
    requires s.now <= s'.now && s.issued <= s'.issued && TrailOf(s'.log, k) == TrailOf(s.log, k)
    requires forall x :: x in s.log ==> x in s'.log
    ensures RowOk(c, s', k, r)
  {
  }

  /** A worker that keeps its row, or that had already lost it. */
  lemma WorkerOkLater(c: Config, s: System, s': System, w: Worker)
    requires WorkerOk(c, s, w)
    requires s.now <= s'.now && s.issued <= s'.issued
    requires forall x :: x in s.log ==> x in s'.log
    requires Holds(s.tables, w) ==>
      || (w.key in s'.tables.rows && s'.tables.rows[w.key] == s.tables.rows[w.key])
      || (!Holds(s'.tables, w) && Until(c, w) <= Milli(s'.now))
    requires forall k :: k in s'.tables.rows ==>
      s'.tables.rows[k].lease != w.lease || (k in s.tables.rows && s.tables.rows[k] == s'.tables.rows[k])
    ensures WorkerOk(c, s', w)
  {
  }

  /** Only time passes, and perhaps some workers vanish. */
  lemma IdleKeeps(c: Config, s: System, s': System)
    requires Inv(c, s)
    requires s'.tables == s.tables && s'.issued == s.issued && s'.log == s.log && s.now <= s'.now
    requires forall w :: w in s'.workers ==> w in s.workers && s'.workers[w] == s.workers[w]
    ensures Inv(c, s')
  {
    forall k | k in s'.tables.rows ensures RowOk(c, s', k, s'.tables.rows[k]) {
      RowOkLater(c, s, s', k, s.tables.rows[k]);
    }
    forall w | w in s'.workers ensures WorkerOk(c, s', s'.workers[w]) {
      WorkerOkLater(c, s, s', s.workers[w]);
    }
  }

  lemma AppendKeeps(c: Config, s: System, st: Step)
    requires Inv(c, s) && st.DoAppend? && Enabled(c, s, st)
    ensures Inv(c, Apply(c, s, st))
  {
    var s', a := Apply(c, s, st), st.a;
    if Append(s.tables, c.lim, a).Accepted? {
      AppendAccepted(s.tables, c.lim, a);
      forall k | k in s'.tables.rows ensures RowOk(c, s', k, s'.tables.rows[k]) {
        TrailEnqueues(s.log, a.id, a.targets, k);
        if k.event != a.id { RowOkLater(c, s, s', k, s.tables.rows[k]); }
      }
      forall w | w in s'.workers ensures WorkerOk(c, s', s'.workers[w]) {
        WorkerOkLater(c, s, s', s.workers[w]);
      }
    } else {
      IdleKeeps(c, s, s');
    }
  }

  /** The effect of a successful claim: a due, unleased row gets a new lease and the worker holds it. */
  ghost predicate Granted(c: Config, s: System, s': System, w: nat, key: Key, clk: Clock, lease: string) {
    && key in s.tables.rows && Ready(s.tables.rows[key], clk)
    && lease != "" && lease !in s.issued && w !in s.workers && s.now <= clk.free <= clk.grant == s'.now
    && s'.tables.rows ==
        s.tables.rows[key := s.tables.rows[key].(lease := lease, leaseUntil := Milli(clk.grant + LeaseTime(c.o)))]
    && s'.workers == s.workers[w := Worker(key, s.tables.rows[key].attempt, lease, clk.grant, Claimed)]
    && s'.issued == s.issued + {lease} && s'.log == s.log
  }

  lemma GrantedRows(c: Config, s: System, s': System, w: nat, key: Key, clk: Clock, lease: string)
    requires RowsOk(c, s) && Granted(c, s, s', w, key, clk, lease)
    ensures RowsOk(c, s')
  {
    forall k | k in s'.tables.rows ensures RowOk(c, s', k, s'.tables.rows[k]) {
      RowOkLater(c, s, s', k, s.tables.rows[k]);
    }
  }

  lemma GrantedWorkers(c: Config, s: System, s': System, w: nat, key: Key, clk: Clock, lease: string)
    requires RowsOk(c, s) && WorkersOk(c, s) && Granted(c, s, s', w, key, clk, lease)
    ensures WorkersOk(c, s')
  {
    forall v | v in s'.workers ensures WorkerOk(c, s', s'.workers[v]) {
      if v == w {
        assert forall k :: k in s.tables.rows ==> RowOk(c, s, k, s.tables.rows[k]);
      }
    }
  }

  lemma ClaimGrants(c: Config, s: System, st: Step)
    requires WellFormed(s.tables) && st.DoClaim? && Enabled(c, s, st)
    requires Grant(s.tables, st.target, st.c, LeaseTime(c.o), st.lease).Some?
    ensures var s' := Apply(c, s, st); var d := Grant(s.tables, st.target, st.c, LeaseTime(c.o), st.lease).value.1;
      && Granted(c, s, s', st.w, Key(d.event.id, st.target), st.c, st.lease)
      && WellFormed(s'.tables) && s'.tables.n == s.tables.n && s'.tables.b == s.tables.b
  {
    GrantPicksOldestDue(s.tables, st.target, st.c, LeaseTime(c.o), st.lease);
  }

  lemma ClaimKeeps(c: Config, s: System, st: Step)
    requires Inv(c, s) && st.DoClaim? && Enabled(c, s, st)
    ensures Inv(c, Apply(c, s, st))
  {
    var s', g := Apply(c, s, st), Grant(s.tables, st.target, st.c, LeaseTime(c.o), st.lease);
    if g.None? {
      IdleKeeps(c, s, s');
    } else {
      var key := Key(g.value.1.event.id, st.target);
      ClaimGrants(c, s, st);
      GrantedRows(c, s, s', st.w, key, st.c, st.lease);
      GrantedWorkers(c, s, s', st.w, key, st.c, st.lease);
    }
  }

  /** The effect of beginning a delivery or hearing of its outcome: one worker moves on, and an ack may be noted. */
  ghost predicate Moved(s: System, s': System, w: nat) {
    && w in s.workers && w in s'.workers
    && s'.workers == s.workers[w := s.workers[w].(phase := s'.workers[w].phase)]
    && (s'.log == s.log || s'.log == s.log + [Acked(s.workers[w].key, s.workers[w].lease)])
    && s'.tables == s.tables && s'.issued == s.issued && s.now <= s'.now
    && (s'.workers[w].phase.Delivering? ==>
        s'.workers[w].phase == s.workers[w].phase || s'.workers[w].phase.begun == s'.now)
    && (s'.workers[w].phase.Replied? ==> s'.workers[w].phase.at == s'.now)
    && (s'.workers[w].phase.Replied? && s'.workers[w].phase.outcome == Acknowledged ==>
          Acked(s.workers[w].key, s.workers[w].lease) in s'.log)
  }

  lemma MovedRows(c: Config, s: System, s': System, w: nat)
    requires RowsOk(c, s) && Moved(s, s', w)
    ensures RowsOk(c, s')
  {
    forall k | k in s'.tables.rows ensures RowOk(c, s', k, s'.tables.rows[k]) {
      RowOkLater(c, s, s', k, s.tables.rows[k]);
    }
  }

  lemma MovedWorkers(c: Config, s: System, s': System, w: nat)
    requires WorkersOk(c, s) && Moved(s, s', w)
    ensures WorkersOk(c, s')
  {
    forall v | v in s'.workers ensures WorkerOk(c, s', s'.workers[v]) {
      WorkerOkLater(c, s, s', s.workers[v]);
    }
  }

  lemma DeliveryKeeps(c: Config, s: System, st: Step)
    requires Inv(c, s) && (st.DoBegin? || st.DoLostAck? || st.DoReply?) && Enabled(c, s, st)
    ensures Inv(c, Apply(c, s, st))
  {
    var s' := Apply(c, s, st);
    assert Moved(s, s', st.w);
    MovedRows(c, s, s', st.w);
    MovedWorkers(c, s, s', st.w);
  }

  /** The effect of a finish whose lease is still on the row. */
  ghost predicate Settled(c: Config, s: System, s': System, w: nat, status: Status, next: int) {
    && w in s.workers && Holds(s.tables, s.workers[w])
    && (status == Delivered ==> Acked(s.workers[w].key, s.workers[w].lease) in s.log)
    && (status == Pending ==> s.workers[w].attempt + 1 < c.o.attempts)
    && next <= s.now + MAX_DELAY
    && (var x := s.workers[w];
        && s'.tables.rows == s.tables.rows[x.key := Row(s.tables.rows[x.key].attempt + 1, Milli(next), status, "", 0)]
        && s'.log == s.log + [Finished(x.key, x.lease, status)])
    && s'.workers == Leave(s.workers, w) && s'.issued == s.issued && s'.now == s.now
  }

  lemma SettledRows(c: Config, s: System, s': System, w: nat, status: Status, next: int)
    requires Inv(c, s) && Settled(c, s, s', w, status, next)
    ensures RowsOk(c, s')
  {
    var x := s.workers[w];
    forall k | k in s'.tables.rows ensures RowOk(c, s', k, s'.tables.rows[k]) {
      if k != x.key { RowOkLater(c, s, s', k, s.tables.rows[k]); }
    }
  }

  lemma SettledWorkers(c: Config, s: System, s': System, w: nat, status: Status, next: int)
    requires WorkersOk(c, s) && Settled(c, s, s', w, status, next)
    ensures WorkersOk(c, s')
  {
    forall v | v in s'.workers ensures WorkerOk(c, s', s'.workers[v]) {
      WorkerOkLater(c, s, s', s.workers[v]);
    }
  }

  lemma FinishSettles(c: Config, s: System, st: Step)
    requires WellFormed(s.tables) && st.DoFinish? && Enabled(c, s, st)
    requires WorkerOk(c, s, s.workers[st.w]) && Holds(s.tables, s.workers[st.w])
    ensures var s' := Apply(c, s, st); var x := s.workers[st.w];
      && (var (status, next) := Settle(c.o, x.attempt, x.phase.outcome, x.phase.at);
          Settled(c, s, s', st.w, status, next))
      && WellFormed(s'.tables) && s'.tables.n == s.tables.n && s'.tables.b == s.tables.b
  {
    var x := s.workers[st.w];
    var (status, next) := Settle(c.o, x.attempt, x.phase.outcome, x.phase.at);
    FinishWellFormed(s.tables, x.key, x.lease, status, next);
  }

  lemma FinishKeeps(c: Config, s: System, st: Step)
    requires Inv(c, s) && st.DoFinish? && Enabled(c, s, st)
    ensures Inv(c, Apply(c, s, st))
  {
    var s', x := Apply(c, s, st), s.workers[st.w];
    if Holds(s.tables, x) {
      FinishSettles(c, s, st);
      var settled := Settle(c.o, x.attempt, x.phase.outcome, x.phase.at);
      SettledRows(c, s, s', st.w, settled.0, settled.1);
      SettledWorkers(c, s, s', st.w, settled.0, settled.1);
    } else {
      IdleKeeps(c, s, s');
    }
  }

  /** The effect of a successful replay: the named rows are fresh, and none of them was leased. */
  ghost predicate Replayed(s: System, s': System, id: string, targets: seq<string>) {
    && (forall k :: k in s'.tables.rows ==>
          if k.event == id && k.target in targets then s'.tables.rows[k] == FRESH_ROW
          else k in s.tables.rows && s'.tables.rows[k] == s.tables.rows[k])
    && (forall k :: k in s.tables.rows ==> k in s'.tables.rows)
    && (forall k :: k in s.tables.rows && k.event == id && k.target in targets ==>
        s.tables.rows[k].leaseUntil <= Milli(s'.now))
    && s'.workers == s.workers && s'.issued == s.issued && s'.log == s.log + Enqueues(id, targets) && s.now <= s'.now
  }

  lemma ReplayedRows(c: Config, s: System, s': System, id: string, targets: seq<string>)
    requires Inv(c, s) && Replayed(s, s', id, targets)
    ensures RowsOk(c, s')
  {
    forall k | k in s'.tables.rows ensures RowOk(c, s', k, s'.tables.rows[k]) {
      TrailEnqueues(s.log, id, targets, k);
      if !(k.event == id && k.target in targets) { RowOkLater(c, s, s', k, s.tables.rows[k]); }
    }
  }

  lemma ReplayedWorkers(c: Config, s: System, s': System, id: string, targets: seq<string>)
    requires WorkersOk(c, s) && Replayed(s, s', id, targets)
    ensures WorkersOk(c, s')
  {
    forall w | w in s'.workers ensures WorkerOk(c, s', s'.workers[w]) {
      WorkerOkLater(c, s, s', s.workers[w]);
    }
  }

  lemma ReplayHappens(c: Config, s: System, st: Step)
    requires WellFormed(s.tables) && st.DoReplay? && Enabled(c, s, st)
    requires Replay(s.tables, c.lim, st.session, st.id, st.targets, s.now, st.clocks).Ok?
    ensures var s' := Apply(c, s, st);
      && Replayed(s, s', st.id, st.targets)
      && WellFormed(s'.tables) && s'.tables.n == s.tables.n && s'.tables.b == s.tables.b
  {
    ReplayResets(s.tables, c.lim, st.session, st.id, st.targets, s.now, st.clocks);
    forall k | k in s.tables.rows && k.event == st.id && k.target in st.targets
      ensures s.tables.rows[k].leaseUntil <= Milli(st.at)
    {
      var i :| 0 <= i < |st.clocks| && s.tables.rows[k].leaseUntil <= Milli(st.clocks[i]);
    }
  }

  lemma ReplayKeeps(c: Config, s: System, st: Step)
    requires Inv(c, s) && st.DoReplay? && Enabled(c, s, st)
    ensures Inv(c, Apply(c, s, st))
  {
    var s' := Apply(c, s, st);
    if Replay(s.tables, c.lim, st.session, st.id, st.targets, s.now, st.clocks).Ok? {
      ReplayHappens(c, s, st);
      ReplayedRows(c, s, s', st.id, st.targets);
      ReplayedWorkers(c, s, s', st.id, st.targets);
    } else {
      IdleKeeps(c, s, s');
    }
  }

  lemma StepKeeps(c: Config, s: System, st: Step)
    requires Inv(c, s) && Enabled(c, s, st)
    ensures Inv(c, Apply(c, s, st))
  {
    match st
    case DoAppend(_) => AppendKeeps(c, s, st);
    case DoClaim(_, _, _, _) => ClaimKeeps(c, s, st);
    case DoBegin(_, _) => DeliveryKeeps(c, s, st);
    case DoLostAck(_) => DeliveryKeeps(c, s, st);
    case DoReply(_, _, _) => DeliveryKeeps(c, s, st);
    case DoFinish(_) => FinishKeeps(c, s, st);
    case DoReplay(_, _, _, _, _) => ReplayKeeps(c, s, st);
    case _ => IdleKeeps(c, s, Apply(c, s, st));
  }

  /** Every reachable state satisfies the invariant. */
  lemma {:induction false} RunKeeps(c: Config, s: System, steps: seq<Step>)
    requires Inv(c, s) && ValidRun(c, s, steps)
    ensures Inv(c, Run(c, s, steps))
    decreases |steps|
  {
    if steps == [] {
    } else {
      StepKeeps(c, s, steps[0]);
      RunKeeps(c, Apply(c, s, steps[0]), steps[1..]);
    }
  }
}
