/**
 The object vault (internal/vault/vault.go) over two stores without a common transaction, metadata table and bucket.
 Archivings, deletions and cleanups interleave; an ambiguously failed upload may still land later, at most once. */
module Vault {
  import opened Prelude
  import opened MediaTable
  import History

  const RESERVATION := HOUR

  /// Names and ownership

  function ItemText(chat: string, id: string): string {
    chat + "\0" + id
  }

  function KeyOf(session: string, chat: string, id: string, generation: nat): Key {
    Key(Digest(session), Digest(ItemText(chat, id)), generation)
  }

  /** owns: the key starts with the object key of this session and message. */
  predicate Owns(session: string, m: Media) {
    m.key.account == Digest(session) && m.key.item == Digest(ItemText(m.chat, m.id))
  }

  lemma LastNul(a: string, x: string, i: nat)
    requires '\0' !in x && |a| <= i < |a + "\0" + x|
    ensures (a + "\0" + x)[i] == '\0' <==> i == |a|
  {
    if i > |a| {
      assert (a + "\0" + x)[i] == x[i - |a| - 1];
    }
  }

  lemma SplitAtNul(a: string, x: string, b: string, y: string)
    requires '\0' !in x && '\0' !in y && a + "\0" + x == b + "\0" + y
    ensures a == b && x == y
  {
    var s := a + "\0" + x;
    LastNul(a, x, if |a| < |b| then |b| else |a|);
    LastNul(b, y, if |a| < |b| then |b| else |a|);
    assert s[..|a|] == a && s[|a| + 1..] == x && s[..|b|] == b && s[|b| + 1..] == y;
  }

  /** Whoever owns a stored key is the session, chat and message it was made for. */
  lemma KeyIdentifiesItem(session: string, chat: string, id: string, generation: nat, other: string, m: Media)
    requires History.ValidId(id) && History.ValidId(m.id) && m.key == KeyOf(session, chat, id, generation)
    ensures Owns(other, m) <==> other == session && m.chat == chat && m.id == id
  {
    if ItemText(m.chat, m.id) == ItemText(chat, id) {
      SplitAtNul(m.chat, m.id, chat, id);
    }
  }

  /// State

  datatype Call =
    | Uploading(m: Media)
    | Uploaded(m: Media)
    | Deleting(todo: seq<Media>, removed: bool)

  /** An upload under way, or one that failed without saying whether the object arrived. */
  datatype Upload = Upload(data: seq<byte>, deadline: int)

  /**
   Besides the two stores: uploads that may still land, and for the statements only, the keys
   whose upload landed and the keys a deletion removed.
   */
  datatype System = System(
    now: int, rows: seq<Media>, bucket: map<Key, seq<byte>>, pending: map<Key, Upload>,
    landed: set<Key>, removed: set<Key>, issued: nat, calls: map<nat, Call>)

  datatype Config = Config(session: string, retention: int)

  predicate ValidConfig(c: Config) {
    0 < c.retention <= 30 * 24 * HOUR
  }

  datatype Request = Request(chat: string, id: string, chatValid: bool, mime: string, data: seq<byte>)

  /** Three readings of the clock: for the retention, for the reservation, and by ReserveMedia. */
  datatype Clock = Clock(retain: int, reserve: int, check: int)

  function MediaOf(c: Config, r: Request, generation: nat, clk: Clock): Media {
    Media(r.chat, r.id, KeyOf(c.session, r.chat, r.id, generation), r.mime, |r.data|, ContentHash(r.data),
          Milli(clk.retain + c.retention), true)
  }

  function Reservation(m: Media, clk: Clock): Media {
    m.(expires := Milli(clk.reserve + RESERVATION), ready := false)
  }

  /// Steps

  datatype Step =
    | Archive(call: nat, r: Request, clk: Clock)
    | Land(key: Key)
    | Lose(key: Key)
    | Confirm(call: nat)
    | Finish(call: nat)
    | PickStored(call: nat, m: Media)
    | PickExpired(call: nat, page: seq<Media>)
    | RemoveObject(call: nat)
    | ForgetRow(call: nat)
    | Drop(call: nat)
    | Crash
    | Foreign(key: Key, data: Option<seq<byte>>)
    | Tick(at: int)

  ghost predicate Enabled(c: Config, s: System, st: Step) {
    match st
    case Archive(call, r, clk) =>
      call !in s.calls && s.now <= clk.retain <= clk.reserve <= clk.check && ValidConfig(c)
    case Land(key) => key in s.pending
    case Lose(key) => key in s.pending
    case Confirm(call) => call in s.calls && s.calls[call].Uploading? && s.calls[call].m.key in s.landed
    case Finish(call) => call in s.calls && s.calls[call].Uploaded?
    case PickStored(call, m) => call !in s.calls && m in s.rows && Available(m, m.chat, m.id, s.now)
    case PickExpired(call, page) => call !in s.calls && page != [] && IsExpiredPage(page, s.rows, Milli(s.now))
    case RemoveObject(call) =>
      call in s.calls && s.calls[call].Deleting? && !s.calls[call].removed && s.calls[call].todo != []
      && Owns(c.session, s.calls[call].todo[0])
    case ForgetRow(call) =>
      call in s.calls && s.calls[call].Deleting? && s.calls[call].removed && s.calls[call].todo != []
    case Drop(call) => call in s.calls
    case Crash => true
    case Foreign(key, _) => key.account != Digest(c.session)
    case Tick(at) => s.now <= at
  }

  function Without(calls: map<nat, Call>, call: nat): map<nat, Call> {
    map k | k in calls && k != call :: calls[k]
  }

  function Apply(c: Config, s: System, st: Step): System
    requires Enabled(c, s, st)
  {
    match st
    case Archive(call, r, clk) =>
      var m := MediaOf(c, r, s.issued, clk);
      (match Reserve(s.rows, Reservation(m, clk), r.chatValid, clk.check)
       case Err(_) => s.(now := clk.check, issued := s.issued + 1)
       case Ok(rows) =>
         s.(now := clk.check, issued := s.issued + 1, rows := rows,
            pending := s.pending[m.key := Upload(r.data, Reservation(m, clk).expires)],
            calls := s.calls[call := Uploading(m)]))
    case Land(key) =>
      s.(bucket := s.bucket[key := s.pending[key].data], pending := s.pending - {key}, landed := s.landed + {key})
    case Lose(key) => s.(pending := s.pending - {key})
    case Confirm(call) => s.(calls := s.calls[call := Uploaded(s.calls[call].m)])
    case Finish(call) => s.(rows := Acknowledge(s.rows, s.calls[call].m), calls := Without(s.calls, call))
    case PickStored(call, m) => s.(calls := s.calls[call := Deleting([m], false)])
    case PickExpired(call, page) => s.(calls := s.calls[call := Deleting(page, false)])
    case RemoveObject(call) =>
      var key := s.calls[call].todo[0].key;
      s.(bucket := s.bucket - {key}, removed := s.removed + {key},
         calls := s.calls[call := Deleting(s.calls[call].todo, true)])
    case ForgetRow(call) =>
      var todo := s.calls[call].todo;
      s.(rows := Forget(s.rows, todo[0]),
         calls := if |todo| == 1 then Without(s.calls, call) else s.calls[call := Deleting(todo[1..], false)])
    case Drop(call) => s.(calls := Without(s.calls, call))
    case Crash => s.(calls := map[])
    case Foreign(key, data) =>
      s.(bucket := match data case None => s.bucket - {key} case Some(d) => s.bucket[key := d])
    case Tick(at) => s.(now := at)
  }

  ghost predicate ValidRun(c: Config, s: System, steps: seq<Step>)
    decreases |steps|
  {
    steps == [] || (Enabled(c, s, steps[0]) && ValidRun(c, Apply(c, s, steps[0]), steps[1..]))
  }

  ghost function Run(c: Config, s: System, steps: seq<Step>): System
    requires ValidRun(c, s, steps)
    decreases |steps|
  {
    if steps == [] then s else Run(c, Apply(c, s, steps[0]), steps[1..])
  }

  /** The upload of this key, if it lands in this step, does so before the reservation made for it expires. */
  ghost predicate Punctual(s: System, st: Step, key: Key) {
    st == Land(key) && key in s.pending ==> Milli(s.now) < s.pending[key].deadline
  }

  ghost predicate LandsInTime(c: Config, s: System, steps: seq<Step>, key: Key)
    requires ValidRun(c, s, steps)
    decreases |steps|
  {
    steps == [] || (Punctual(s, steps[0], key) && LandsInTime(c, Apply(c, s, steps[0]), steps[1..], key))
  }

  /// The invariant

  ghost predicate Mine(c: Config, s: System, m: Media) {
    Owns(c.session, m) && History.ValidId(m.id) && m.key.generation < s.issued
  }

  ghost predicate Holds(r: Media, data: seq<byte>) {
    r.hash == ContentHash(data) && r.size == |data|
  }

  ghost predicate RowOk(c: Config, s: System, r: Media) {
    && Mine(c, s, r)
    && (r.ready ==> r.key in s.landed)
    && (r.key in s.bucket ==> Holds(r, s.bucket[r.key]))
    && (r.key in s.pending ==> Holds(r, s.pending[r.key].data) && r.expires == s.pending[r.key].deadline)
  }

  ghost predicate KeyIn(rows: seq<Media>, key: Key) {
    exists r :: r in rows && r.key == key
  }

  ghost predicate HasRow(s: System, key: Key) {
    KeyIn(s.rows, key)
  }

  /** The upload can no longer land in time. */
  ghost predicate TooLate(s: System, key: Key) {
    key in s.pending ==> s.pending[key].deadline <= Milli(s.now)
  }

  ghost predicate KeysOk(c: Config, s: System) {
    && (forall key :: key in s.pending ==>
          key.account == Digest(c.session) && key !in s.landed && key !in s.bucket && key.generation < s.issued
          && (HasRow(s, key) || TooLate(s, key)))
    && (forall key :: key in s.landed ==>
          key.account == Digest(c.session) && key.generation < s.issued && (key in s.bucket || key in s.removed))
    && (forall key :: key in s.bucket && key.account == Digest(c.session) ==> key.generation < s.issued)
    && (forall key :: key in s.removed ==> key.generation < s.issued)
  }

  ghost predicate CallOk(c: Config, s: System, x: Call) {
    match x
    case Uploading(m) => Mine(c, s, m)
    case Uploaded(m) => Mine(c, s, m) && m.key in s.landed
    case Deleting(todo, removed) =>
      && todo != []
      && (forall m :: m in todo ==> Mine(c, s, m) && TooLate(s, m.key))
      && (removed ==> todo[0].key in s.removed)
  }

  ghost predicate RowsOk(c: Config, s: System) {
    forall r :: r in s.rows ==> RowOk(c, s, r)
  }

  ghost predicate CallsOk(c: Config, s: System) {
    forall k :: k in s.calls ==> CallOk(c, s, s.calls[k])
  }

  ghost predicate Inv(c: Config, s: System) {
    WellFormed(s.rows) && RowsOk(c, s) && KeysOk(c, s) && CallsOk(c, s)
  }

  /// Each step keeps the invariant

  /** The effect of a granted reservation: an unready row and a pending upload under a new key. */
  ghost predicate Reserved(c: Config, s: System, s': System, call: nat, m: Media, deadline: int) {
    && Owns(c.session, m) && History.ValidId(m.id) && m.key.generation == s.issued
    && s'.issued == s.issued + 1 && s.now <= s'.now
    && (var r := m.(expires := deadline, ready := false); forall x :: x in s'.rows <==> x in s.rows || x == r)
    && s'.pending == s.pending[m.key := Upload(m.hash.data, deadline)] && m.size == |m.hash.data|
    && s'.bucket == s.bucket && s'.landed == s.landed && s'.removed == s.removed
    && call !in s.calls && s'.calls == s.calls[call := Uploading(m)]
  }

  lemma ReservedRows(c: Config, s: System, s': System, call: nat, m: Media, deadline: int)
    requires RowsOk(c, s) && KeysOk(c, s) && Reserved(c, s, s', call, m, deadline)
    ensures RowsOk(c, s')
  {
    forall x | x in s'.rows ensures RowOk(c, s', x) {
      if x in s.rows { assert RowOk(c, s, x); }
    }
  }

  lemma ReservedKeys(c: Config, s: System, s': System, call: nat, m: Media, deadline: int)
    requires KeysOk(c, s) && Reserved(c, s, s', call, m, deadline)
    ensures KeysOk(c, s')
  {
    forall key | HasRow(s, key) ensures HasRow(s', key) {
      var x :| x in s.rows && x.key == key;
      assert x in s'.rows;
    }
    assert m.(expires := deadline, ready := false) in s'.rows;
    assert HasRow(s', m.key);
  }

  lemma ReserveKeeps(c: Config, s: System, st: Step)
    requires Inv(c, s) && st.Archive? && Enabled(c, s, st)
    ensures Inv(c, Apply(c, s, st))
  {
    var s', m := Apply(c, s, st), MediaOf(c, st.r, s.issued, st.clk);
    var r := Reservation(m, st.clk);
    if Reserve(s.rows, r, st.r.chatValid, st.clk.check).Err? {
      CallMovesOn(c, s, s');
    } else {
      ReserveAdds(s.rows, r, st.r.chatValid, st.clk.check);
      assert Reserved(c, s, s', st.call, m, r.expires);
      ReservedRows(c, s, s', st.call, m, r.expires);
      ReservedKeys(c, s, s', st.call, m, r.expires);
    }
  }

  /** Time passes, a name may be used up without effect, and calls may vanish. */
  lemma CallMovesOn(c: Config, s: System, s': System)
    requires Inv(c, s) && s'.(issued := s.issued, now := s.now, calls := s.calls) == s
    requires s.now <= s'.now && s.issued <= s'.issued
    requires forall k :: k in s'.calls ==> k in s.calls && s'.calls[k] == s.calls[k]
    ensures Inv(c, s')
  {
    forall k | k in s'.calls ensures CallOk(c, s', s'.calls[k]) { assert CallOk(c, s, s.calls[k]); }
    forall r | r in s'.rows ensures RowOk(c, s', r) { assert RowOk(c, s, r); }
  }

  lemma LandKeeps(c: Config, s: System, st: Step)
    requires Inv(c, s) && st.Land? && Enabled(c, s, st)
    ensures Inv(c, Apply(c, s, st))
  {
    var s' := Apply(c, s, st);
    forall k | k in s'.calls ensures CallOk(c, s', s'.calls[k]) { assert CallOk(c, s, s.calls[k]); }
    forall r | r in s'.rows ensures RowOk(c, s', r) { assert RowOk(c, s, r); }
    assert forall k :: HasRow(s', k) == HasRow(s, k);
  }

  lemma LoseKeeps(c: Config, s: System, st: Step)
    requires Inv(c, s) && st.Lose? && Enabled(c, s, st)
    ensures Inv(c, Apply(c, s, st))
  {
    var s' := Apply(c, s, st);
    forall k | k in s'.calls ensures CallOk(c, s', s'.calls[k]) { assert CallOk(c, s, s.calls[k]); }
    forall r | r in s'.rows ensures RowOk(c, s', r) { assert RowOk(c, s, r); }
    assert forall k :: HasRow(s', k) == HasRow(s, k);
  }

  lemma AcknowledgedKeys(c: Config, s: System, s': System, m: Media)
    requires KeysOk(c, s)
    requires s'.(rows := s.rows, calls := s.calls) == s && s'.rows == Acknowledge(s.rows, m)
    ensures KeysOk(c, s')
  {
    forall key | HasRow(s, key) ensures HasRow(s', key) {
      var r :| r in s.rows && r.key == key;
      var x := if Is(r, m) then r.(ready := true, expires := m.expires) else r;
      AcknowledgeMembers(s.rows, m, x);
      assert x in s'.rows && x.key == key;
    }
  }

  /** Acknowledging an upload that landed: the row, if it is still there, becomes ready. */
  lemma FinishKeeps(c: Config, s: System, st: Step)
    requires Inv(c, s) && st.Finish? && Enabled(c, s, st)
    ensures Inv(c, Apply(c, s, st))
  {
    var s', m := Apply(c, s, st), s.calls[st.call].m;
    assert CallOk(c, s, s.calls[st.call]);
    AcknowledgeKeeps(s.rows, m);
    AcknowledgedKeys(c, s, s', m);
    forall x | x in s'.rows ensures RowOk(c, s', x) {
      AcknowledgeMembers(s.rows, m, x);
      if r :| r in s.rows && Is(r, m) && x == r.(ready := true, expires := m.expires) {
        assert RowOk(c, s, r);
      } else {
        assert RowOk(c, s, x);
      }
    }
    forall k | k in s'.calls ensures CallOk(c, s', s'.calls[k]) {
      assert CallOk(c, s, s.calls[k]);
    }
  }

  lemma PickedOk(c: Config, s: System, st: Step)
    requires RowsOk(c, s) && (st.PickStored? || st.PickExpired?) && Enabled(c, s, st)
    requires forall key :: key in s.landed ==> key !in s.pending
    ensures CallOk(c, Apply(c, s, st), Apply(c, s, st).calls[st.call])
  {
    var s' := Apply(c, s, st);
    forall m | m in s'.calls[st.call].todo ensures Mine(c, s', m) && TooLate(s', m.key) {
      assert RowOk(c, s, m);
    }
  }

  /** Choosing what to delete: a stored row, or a page of expired ones; no upload of theirs can still land in time. */
  lemma PickKeeps(c: Config, s: System, st: Step)
    requires Inv(c, s) && (st.PickStored? || st.PickExpired?) && Enabled(c, s, st)
    ensures Inv(c, Apply(c, s, st))
  {
    PickedOk(c, s, st);
    var s' := Apply(c, s, st);
    forall k | k in s'.calls ensures CallOk(c, s', s'.calls[k]) {
      if k != st.call { assert CallOk(c, s, s.calls[k]); }
    }
    forall r | r in s'.rows ensures RowOk(c, s', r) { assert RowOk(c, s, r); }
    assert forall k :: HasRow(s', k) == HasRow(s, k);
  }

  lemma RemoveKeeps(c: Config, s: System, st: Step)
    requires Inv(c, s) && st.RemoveObject? && Enabled(c, s, st)
    ensures Inv(c, Apply(c, s, st))
  {
    var s' := Apply(c, s, st);
    assert CallOk(c, s, s.calls[st.call]);
    forall r | r in s'.rows ensures RowOk(c, s', r) { assert RowOk(c, s, r); }
    assert forall k :: HasRow(s', k) == HasRow(s, k);
  }

  lemma ForgottenCalls(c: Config, s: System, st: Step)
    requires CallsOk(c, s) && st.ForgetRow? && Enabled(c, s, st)
    ensures CallsOk(c, Apply(c, s, st))
  {
    assert CallOk(c, s, s.calls[st.call]);
    forall k | k in s.calls ensures CallOk(c, s, s.calls[k]) {
    }
  }

  lemma ForgottenKeys(c: Config, s: System, s': System, m: Media)
    requires KeysOk(c, s) && TooLate(s, m.key)
    requires s'.(rows := s.rows, calls := s.calls) == s && s'.rows == Forget(s.rows, m)
    ensures KeysOk(c, s')
  {
    forall key | HasRow(s, key) && key != m.key ensures HasRow(s', key) {
      var r :| r in s.rows && r.key == key;
      ForgetMembers(s.rows, m, r);
    }
  }

  /** The second half of a deletion: no upload of the key can still arrive in time. */
  lemma ForgetRowKeeps(c: Config, s: System, st: Step)
    requires Inv(c, s) && st.ForgetRow? && Enabled(c, s, st)
    ensures Inv(c, Apply(c, s, st))
  {
    var s', m := Apply(c, s, st), s.calls[st.call].todo[0];
    assert CallOk(c, s, s.calls[st.call]);
    ForgottenCalls(c, s, st);
    ForgetKeeps(s.rows, m);
    ForgottenKeys(c, s, s', m);
    forall r | r in s'.rows ensures RowOk(c, s', r) {
      ForgetMembers(s.rows, m, r);
      assert RowOk(c, s, r);
    }
  }

  lemma LeaveKeeps(c: Config, s: System, st: Step)
    requires Inv(c, s) && (st.Drop? || st.Crash? || st.Tick? || st.Confirm?) && Enabled(c, s, st)
    ensures Inv(c, Apply(c, s, st))
  {
    if st.Confirm? {
      assert CallOk(c, s, s.calls[st.call]);
    } else {
      CallMovesOn(c, s, Apply(c, s, st));
    }
  }

  lemma StepKeeps(c: Config, s: System, st: Step)
    requires Inv(c, s) && Enabled(c, s, st)
    ensures Inv(c, Apply(c, s, st))
  {
    match st
    case Archive(_, _, _) => ReserveKeeps(c, s, st);
    case Land(_) => LandKeeps(c, s, st);
    case Lose(_) => LoseKeeps(c, s, st);
    case Finish(_) => FinishKeeps(c, s, st);
    case PickStored(_, _) => PickKeeps(c, s, st);
    case PickExpired(_, _) => PickKeeps(c, s, st);
    case RemoveObject(_) => RemoveKeeps(c, s, st);
    case ForgetRow(_) => ForgetRowKeeps(c, s, st);
    case Foreign(_, _) =>
    case _ => LeaveKeeps(c, s, st);
  }

  /** Every state of every run satisfies the invariant; time passes, and names are used up. */
  lemma {:induction false} RunKeeps(c: Config, s: System, steps: seq<Step>)
    requires Inv(c, s) && ValidRun(c, s, steps)
    ensures var t := Run(c, s, steps); Inv(c, t) && s.now <= t.now && s.issued <= t.issued
    decreases |steps|
  {
    if steps == [] {
    } else {
      StepKeeps(c, s, steps[0]);
      RunKeeps(c, Apply(c, s, steps[0]), steps[1..]);
    }
  }

  const INIT := System(0, [], map[], map[], {}, {}, 0, map[])

  lemma InitOk(c: Config, foreign: map<Key, seq<byte>>)
    requires forall key :: key in foreign ==> key.account != Digest(c.session)
    ensures Inv(c, INIT.(bucket := foreign))
  {
  }

  /// Which objects are left without a row

  /** An object that nothing refers to any more. */
  ghost predicate Uncovered(s: System, key: Key) {
    key in s.bucket && !HasRow(s, key)
  }

  /** The step removes the object of this key, or forgets its row. */
  predicate Removes(s: System, st: Step, key: Key) {
    st.RemoveObject? && st.call in s.calls && s.calls[st.call].Deleting? && s.calls[st.call].todo != []
    && s.calls[st.call].todo[0].key == key
  }

  predicate Forgets(s: System, st: Step, key: Key) {
    st.ForgetRow? && st.call in s.calls && s.calls[st.call].Deleting? && s.calls[st.call].todo != []
    && s.calls[st.call].todo[0].key == key
  }

  ghost predicate EverRemoves(c: Config, s: System, steps: seq<Step>, key: Key)
    requires ValidRun(c, s, steps)
    decreases |steps|
  {
    steps != [] && (Removes(s, steps[0], key) || EverRemoves(c, Apply(c, s, steps[0]), steps[1..], key))
  }

  ghost predicate EverForgets(c: Config, s: System, steps: seq<Step>, key: Key)
    requires ValidRun(c, s, steps)
    decreases |steps|
  {
    steps != [] && (Forgets(s, steps[0], key) || EverForgets(c, Apply(c, s, steps[0]), steps[1..], key))
  }

  /** At some point of the run the object lands, and it is not removed from then on. */
  ghost predicate LandsForGood(c: Config, s: System, steps: seq<Step>, key: Key)
    requires ValidRun(c, s, steps)
    decreases |steps|
  {
    steps != [] &&
    (var s' := Apply(c, s, steps[0]);
     (steps[0] == Land(key) && !EverRemoves(c, s', steps[1..], key)) || LandsForGood(c, s', steps[1..], key))
  }

  lemma BucketStep(c: Config, s: System, st: Step, key: Key)
    requires Enabled(c, s, st) && key.account == Digest(c.session)
    ensures key in Apply(c, s, st).bucket <==> st == Land(key) || (key in s.bucket && !Removes(s, st, key))
  {
  }

  lemma {:induction false} InBucketIff(c: Config, s: System, steps: seq<Step>, key: Key)
    requires ValidRun(c, s, steps) && key.account == Digest(c.session)
    ensures key in Run(c, s, steps).bucket <==>
      LandsForGood(c, s, steps, key) || (key in s.bucket && !EverRemoves(c, s, steps, key))
    decreases |steps|
  {
    if steps == [] {
    } else {
      BucketStep(c, s, steps[0], key);
      InBucketIff(c, Apply(c, s, steps[0]), steps[1..], key);
    }
  }

  /** A key already made up loses its row exactly when a deletion forgets it, and never gets another. */
  lemma RowStep(c: Config, s: System, st: Step, key: Key)
    requires Inv(c, s) && Enabled(c, s, st) && key.generation < s.issued
    ensures HasRow(Apply(c, s, st), key) <==> HasRow(s, key) && !Forgets(s, st, key)
    ensures key in Apply(c, s, st).pending ==> key in s.pending
    ensures key.generation < Apply(c, s, st).issued
  {
    match st
    case Archive(_, _, _) => ReservedRow(c, s, st, key);
    case Finish(_) => AcknowledgedRow(s.rows, s.calls[st.call].m, key);
    case ForgetRow(_) =>
      assert CallOk(c, s, s.calls[st.call]);
      forall r | r in s.rows ensures Mine(c, s, r) { assert RowOk(c, s, r); }
      ForgottenRow(c, s, s.calls[st.call].todo[0], key);
    case _ =>
  }

  lemma ReservedRow(c: Config, s: System, st: Step, key: Key)
    requires Inv(c, s) && st.Archive? && Enabled(c, s, st) && key.generation < s.issued
    ensures HasRow(Apply(c, s, st), key) <==> HasRow(s, key)
  {
    var m := Reservation(MediaOf(c, st.r, s.issued, st.clk), st.clk);
    if Reserve(s.rows, m, st.r.chatValid, st.clk.check).Ok? {
      ReserveAdds(s.rows, m, st.r.chatValid, st.clk.check);
      if HasRow(s, key) {
        var r :| r in s.rows && r.key == key;
        assert r in Apply(c, s, st).rows;
      }
    }
  }

  lemma AcknowledgedRow(rows: seq<Media>, m: Media, key: Key)
    ensures KeyIn(Acknowledge(rows, m), key) <==> KeyIn(rows, key)
  {
    if r :| r in rows && r.key == key {
      AcknowledgeMembers(rows, m, if Is(r, m) then r.(ready := true, expires := m.expires) else r);
    }
    if x :| x in Acknowledge(rows, m) && x.key == key {
      AcknowledgeMembers(rows, m, x);
    }
  }

  lemma ForgottenRow(c: Config, s: System, m: Media, key: Key)
    requires Mine(c, s, m) && forall r :: r in s.rows ==> Mine(c, s, r)
    ensures KeyIn(Forget(s.rows, m), key) <==> KeyIn(s.rows, key) && m.key != key
  {
    forall r ensures r in Forget(s.rows, m) <==> r in s.rows && !Is(r, m) { ForgetMembers(s.rows, m, r); }
    forall r | r in s.rows && r.key == m.key ensures Is(r, m) {
      SplitAtNul(r.chat, r.id, m.chat, m.id);
    }
  }

  lemma {:induction false} RowIff(c: Config, s: System, steps: seq<Step>, key: Key)
    requires Inv(c, s) && ValidRun(c, s, steps) && key.generation < s.issued
    ensures HasRow(Run(c, s, steps), key) <==> HasRow(s, key) && !EverForgets(c, s, steps, key)
    ensures LandsForGood(c, s, steps, key) ==> key in s.pending
    decreases |steps|
  {
    if steps == [] {
    } else {
      RowStep(c, s, steps[0], key);
      StepKeeps(c, s, steps[0]);
      RowIff(c, Apply(c, s, steps[0]), steps[1..], key);
    }
  }

  /** The same from before the key was made up: whatever lands had a row, until a deletion forgets it. */
  lemma {:induction false} RowOfLanded(c: Config, s: System, steps: seq<Step>, key: Key)
    requires Inv(c, s) && ValidRun(c, s, steps) && s.issued <= key.generation
    requires LandsForGood(c, s, steps, key)
    ensures HasRow(Run(c, s, steps), key) <==> !EverForgets(c, s, steps, key)
    decreases |steps|
  {
    var s' := Apply(c, s, steps[0]);
    StepKeeps(c, s, steps[0]);
    assert !Forgets(s, steps[0], key) by {
      if steps[0].ForgetRow? { assert CallOk(c, s, s.calls[steps[0].call]); }
    }
    if s'.issued <= key.generation {
      RowOfLanded(c, s', steps[1..], key);
    } else {
      RowIff(c, s', steps[1..], key);
      ReserveAdds(s.rows, Reservation(MediaOf(c, steps[0].r, s.issued, steps[0].clk), steps[0].clk),
                  steps[0].r.chatValid, steps[0].clk.check);
      assert s'.rows[|s.rows|].key == key;
    }
  }

  /** Nobody has removed the object and is about to forget the row. */
  ghost predicate Unarmed(s: System, key: Key) {
    forall k :: k in s.calls && s.calls[k].Deleting? && s.calls[k].removed && s.calls[k].todo != [] ==>
      s.calls[k].todo[0].key != key
  }

  /** A landing leaves an object uncovered exactly when its row is already gone, which it is not before its deadline. */
  lemma LandCoversIff(c: Config, s: System, key: Key)
    requires Inv(c, s) && key in s.pending
    ensures Uncovered(Apply(c, s, Land(key)), key) <==> !HasRow(s, key)
    ensures Punctual(s, Land(key), key) ==> HasRow(s, key)
  {
    var s' := Apply(c, s, Land(key));
    assert HasRow(s', key) == HasRow(s, key);
  }

  lemma {:induction false} UnarmedForgetsNothing(c: Config, s: System, steps: seq<Step>, key: Key)
    requires ValidRun(c, s, steps) && Unarmed(s, key) && !EverRemoves(c, s, steps, key)
    ensures !EverForgets(c, s, steps, key)
    decreases |steps|
  {
    if steps == [] {
    } else {
      UnarmedForgetsNothing(c, Apply(c, s, steps[0]), steps[1..], key);
    }
  }

  /** A punctual landing comes before any deletion of the key, so what it leaves stays covered until removed. */
  lemma {:induction false} PunctualIsCovered(c: Config, s: System, steps: seq<Step>, key: Key)
    requires Inv(c, s) && ValidRun(c, s, steps) && LandsInTime(c, s, steps, key)
    requires LandsForGood(c, s, steps, key)
    ensures HasRow(Run(c, s, steps), key)
    decreases |steps|
  {
    var s' := Apply(c, s, steps[0]);
    StepKeeps(c, s, steps[0]);
    if steps[0] == Land(key) && !EverRemoves(c, s', steps[1..], key) {
      LandCoversIff(c, s, key);
      forall k | k in s.calls && s.calls[k].Deleting? ensures key != s.calls[k].todo[0].key {
        assert CallOk(c, s, s.calls[k]) && s.calls[k].todo[0] in s.calls[k].todo;
      }
      UnarmedForgetsNothing(c, s', steps[1..], key);
      RowIff(c, s', steps[1..], key);
    } else {
      PunctualIsCovered(c, s', steps[1..], key);
    }
  }

  /**
   In any run at all, exactly those objects end up without a row that landed and were not removed
   since, while a deletion forgot their row; none of them landed before its reservation expired.
   */
  lemma UncoveredIff(c: Config, foreign: map<Key, seq<byte>>, steps: seq<Step>, key: Key)
    requires forall k :: k in foreign ==> k.account != Digest(c.session)
    requires ValidRun(c, INIT.(bucket := foreign), steps) && key.account == Digest(c.session)
    ensures var s0 := INIT.(bucket := foreign);
      && (Uncovered(Run(c, s0, steps), key) <==> LandsForGood(c, s0, steps, key) && EverForgets(c, s0, steps, key))
      && (LandsInTime(c, s0, steps, key) ==> !Uncovered(Run(c, s0, steps), key))
  {
    var s0 := INIT.(bucket := foreign);
    InitOk(c, foreign);
    InBucketIff(c, s0, steps, key);
    if LandsForGood(c, s0, steps, key) {
      RowOfLanded(c, s0, steps, key);
      if LandsInTime(c, s0, steps, key) {
        PunctualIsCovered(c, s0, steps, key);
      }
    }
  }

  /** The rows stay within both quotas, and every object that landed in time has one. */
  lemma EveryObjectHasARow(c: Config, foreign: map<Key, seq<byte>>, steps: seq<Step>, key: Key)
    requires forall k :: k in foreign ==> k.account != Digest(c.session)
    requires ValidRun(c, INIT.(bucket := foreign), steps)
    ensures var s0 := INIT.(bucket := foreign); var s := Run(c, s0, steps);
      && |s.rows| <= 1000 && Total(s.rows) <= 536_870_912
      && (key in s.bucket && key.account == Digest(c.session) && LandsInTime(c, s0, steps, key) ==>
            s.rows != [] && exists r :: r in s.rows && r.key == key)
  {
    InitOk(c, foreign);
    RunKeeps(c, INIT.(bucket := foreign), steps);
    var s := Run(c, INIT.(bucket := foreign), steps);
    if key.account == Digest(c.session) {
      UncoveredIff(c, foreign, steps, key);
      assert key in s.bucket && !Uncovered(s, key) ==> HasRow(s, key);
    }
  }

  /// Deletions

  /** No deletion under way has listed the key. */
  ghost predicate Unlisted(s: System, key: Key) {
    forall k :: k in s.calls && s.calls[k].Deleting? ==> forall m :: m in s.calls[k].todo ==> m.key != key
  }

  /** The step chooses the key for deletion. */
  ghost predicate Picks(st: Step, key: Key) {
    || (st.PickStored? && st.m.key == key)
    || (st.PickExpired? && exists m :: m in st.page && m.key == key)
  }

  /** A new archiving has a key that nothing so far refers to: no deletion, listed or under way, is of it. */
  lemma ArchivingIsFresh(c: Config, s: System, st: Step)
    requires Inv(c, s) && st.Archive?
    ensures var key := KeyOf(c.session, st.r.chat, st.r.id, s.issued);
      key !in s.bucket && key !in s.pending && key !in s.landed && !HasRow(s, key) && Unlisted(s, key)
  {
    var key := KeyOf(c.session, st.r.chat, st.r.id, s.issued);
    forall k, m | k in s.calls && s.calls[k].Deleting? && m in s.calls[k].todo ensures m.key != key {
      assert CallOk(c, s, s.calls[k]);
    }
    forall r | r in s.rows ensures r.key != key { assert RowOk(c, s, r); }
  }

  /** What is not listed stays unlisted until some call picks it, and is neither removed nor forgotten meanwhile. */
  lemma UnlistedStep(c: Config, s: System, st: Step, key: Key)
    requires Enabled(c, s, st) && Unlisted(s, key) && !Picks(st, key)
    ensures Unlisted(Apply(c, s, st), key) && !Removes(s, st, key) && !Forgets(s, st, key)
  {
  }

  lemma StepSpares(c: Config, s: System, st: Step, key: Key)
    requires Inv(c, s) && Enabled(c, s, st) && key.account == Digest(c.session) && key.generation < s.issued
    requires Unlisted(s, key) && !Picks(st, key)
    ensures var s' := Apply(c, s, st);
      && (key in s.bucket ==> key in s'.bucket && s'.bucket[key] == s.bucket[key])
      && (HasRow(s, key) ==> HasRow(s', key))
      && Unlisted(s', key) && key.generation < s'.issued
  {
    UnlistedStep(c, s, st, key);
    RowStep(c, s, st, key);
  }

  /**
   Over whole runs, a deletion or cleanup touches nothing but what it picked: an object and a row
   that no call under way has listed stay as long as no call picks their key.
   */
  lemma {:induction false} StaleDeletionsAreHarmless(c: Config, s: System, steps: seq<Step>, key: Key)
    requires Inv(c, s) && ValidRun(c, s, steps) && key.account == Digest(c.session) && key.generation < s.issued
    requires Unlisted(s, key) && forall i :: 0 <= i < |steps| ==> !Picks(steps[i], key)
    ensures var t := Run(c, s, steps);
      && (key in s.bucket ==> key in t.bucket && t.bucket[key] == s.bucket[key])
      && (HasRow(s, key) ==> HasRow(t, key))
    decreases |steps|
  {
    if steps == [] {
    } else {
      StepKeeps(c, s, steps[0]);
      StepSpares(c, s, steps[0], key);
      assert forall i :: 0 <= i < |steps[1..]| ==> steps[1..][i] == steps[i + 1];
      StaleDeletionsAreHarmless(c, Apply(c, s, steps[0]), steps[1..], key);
    }
  }

  /** What is true of an archive from its reservation on, as long as nothing picks it. */
  ghost predicate Kept(c: Config, s: System, m: Media, deadline: int) {
    var key := m.key;
    && key.account == Digest(c.session) && key.generation < s.issued
    && Unlisted(s, key) && HasRow(s, key) && key !in s.removed
    && (key in s.pending ==> s.pending[key].data == m.hash.data)
    && (key in s.bucket ==> s.bucket[key] == m.hash.data)
    && (forall r :: r in s.rows && r.key == key ==> Dated(r, m, deadline))
    && CalledFor(s, m)
  }

  /** A row of this archive expires with its reservation, and once the upload is acknowledged with the archive. */
  predicate Dated(r: Media, m: Media, deadline: int) {
    r == m.(ready := r.ready, expires := if r.ready then m.expires else deadline)
  }

  /** Every archiving under way with this key is this one. */
  ghost predicate CalledFor(s: System, m: Media) {
    forall k :: k in s.calls && !s.calls[k].Deleting? && s.calls[k].m.key == m.key ==> s.calls[k].m == m
  }

  lemma KeptCalls(c: Config, s: System, st: Step, m: Media)
    requires Enabled(c, s, st) && CalledFor(s, m) && m.key.generation < s.issued
    ensures CalledFor(Apply(c, s, st), m)
  {
  }

  lemma KeptRows(c: Config, s: System, st: Step, m: Media, deadline: int)
    requires Inv(c, s) && Enabled(c, s, st) && Kept(c, s, m, deadline)
    ensures forall r :: r in Apply(c, s, st).rows && r.key == m.key ==> Dated(r, m, deadline)
  {
    var s' := Apply(c, s, st);
    forall r | r in s'.rows && r.key == m.key ensures Dated(r, m, deadline) {
      match st
      case Finish(call) => AcknowledgeMembers(s.rows, s.calls[call].m, r);
      case ForgetRow(call) => ForgetMembers(s.rows, s.calls[call].todo[0], r);
      case _ =>
    }
  }

  /** The step asks for the deletion of this very archive, or is a cleanup that finds its row expired. */
  ghost predicate Dooms(s: System, st: Step, key: Key) {
    || (st.PickStored? && st.m.key == key)
    || (st.PickExpired? && exists r :: r in s.rows && r.key == key && r.expires <= Milli(s.now))
  }

  ghost predicate EverDooms(c: Config, s: System, steps: seq<Step>, key: Key)
    requires ValidRun(c, s, steps)
    decreases |steps|
  {
    steps != [] && (Dooms(s, steps[0], key) || EverDooms(c, Apply(c, s, steps[0]), steps[1..], key))
  }

  lemma KeptStep(c: Config, s: System, st: Step, m: Media, deadline: int)
    requires Inv(c, s) && Enabled(c, s, st) && Kept(c, s, m, deadline) && !Dooms(s, st, m.key)
    ensures Kept(c, Apply(c, s, st), m, deadline)
  {
    assert !Picks(st, m.key);
    StepSpares(c, s, st, m.key);
    UnlistedStep(c, s, st, m.key);
    KeptRows(c, s, st, m, deadline);
    KeptCalls(c, s, st, m);
  }

  lemma {:induction false} KeptRun(c: Config, s: System, steps: seq<Step>, m: Media, deadline: int)
    requires Inv(c, s) && ValidRun(c, s, steps) && Kept(c, s, m, deadline) && !EverDooms(c, s, steps, m.key)
    ensures Kept(c, Run(c, s, steps), m, deadline)
    decreases |steps|
  {
    if steps == [] {
    } else {
      KeptStep(c, s, steps[0], m, deadline);
      StepKeeps(c, s, steps[0]);
      KeptRun(c, Apply(c, s, steps[0]), steps[1..], m, deadline);
    }
  }

  lemma ArchivedKept(c: Config, s: System, a: Step)
    requires Inv(c, s) && a.Archive? && Enabled(c, s, a)
    requires Reserve(s.rows, Reservation(MediaOf(c, a.r, s.issued, a.clk), a.clk), a.r.chatValid, a.clk.check).Ok?
    ensures var m := MediaOf(c, a.r, s.issued, a.clk); Kept(c, Apply(c, s, a), m, Reservation(m, a.clk).expires)
  {
    var m, s' := MediaOf(c, a.r, s.issued, a.clk), Apply(c, s, a);
    ArchivingIsFresh(c, s, a);
    ReserveAdds(s.rows, Reservation(m, a.clk), a.r.chatValid, a.clk.check);
    assert Reservation(m, a.clk).(ready := false) in s'.rows;
    assert m.key !in s.removed;
    forall r | r in s.rows ensures r.key != m.key { assert RowOk(c, s, r); }
    forall k | k in s.calls && !s.calls[k].Deleting?
      ensures s.calls[k].m.key != m.key
    {
      assert CallOk(c, s, s.calls[k]);
    }
  }

  /**
   A message archived again is safe from every deletion and cleanup of its earlier archives, however
   late they run: unless its own deletion is asked for, or a cleanup finds its own row expired, the
   new row stays, and so do exactly the archived bytes once they have landed.  The row expires an
   hour after the reservation, and once the upload is acknowledged at the end of the retention.
   */
  lemma ArchivedStays(c: Config, s: System, a: Step, steps: seq<Step>)
    requires Inv(c, s) && a.Archive? && Enabled(c, s, a) && ValidRun(c, Apply(c, s, a), steps)
    requires var r := Reservation(MediaOf(c, a.r, s.issued, a.clk), a.clk);
      Reserve(s.rows, r, a.r.chatValid, a.clk.check).Ok? && !EverDooms(c, Apply(c, s, a), steps, r.key)
    ensures var key := KeyOf(c.session, a.r.chat, a.r.id, s.issued); var t := Run(c, Apply(c, s, a), steps);
      && HasRow(t, key)
      && (forall r :: r in t.rows && r.key == key ==>
            && r.chat == a.r.chat && r.id == a.r.id && r.mime == a.r.mime
            && r.size == |a.r.data| && r.hash == ContentHash(a.r.data)
            && (r.ready ==> r.key in t.landed && r.expires == Milli(a.clk.retain + c.retention))
            && (!r.ready ==> r.expires == Milli(a.clk.reserve) + 3_600_000))
      && (key in t.landed ==> key in t.bucket && t.bucket[key] == a.r.data)
  {
    var m, s' := MediaOf(c, a.r, s.issued, a.clk), Apply(c, s, a);
    ArchivedKept(c, s, a);
    StepKeeps(c, s, a);
    KeptRun(c, s', steps, m, Reservation(m, a.clk).expires);
    RunKeeps(c, s', steps);
    var t := Run(c, s', steps);
    forall r | r in t.rows ensures r.ready ==> r.key in t.landed { assert RowOk(c, t, r); }
    assert HasRow(t, m.key) && KeyOf(c.session, a.r.chat, a.r.id, s.issued) == m.key;
  }

  /** Nor does any step of this session touch another session's objects. */
  lemma ForeignObjectsStay(c: Config, s: System, st: Step, key: Key)
    requires Inv(c, s) && Enabled(c, s, st) && !st.Foreign? && key.account != Digest(c.session)
    ensures key in s.bucket <==> key in Apply(c, s, st).bucket
    ensures key in s.bucket ==> Apply(c, s, st).bucket[key] == s.bucket[key]
  {
  }

  lemma RunTwo(c: Config, s: System, a: Step, b: Step, rest: seq<Step>)
    requires Enabled(c, s, a)
    requires var s1 := Apply(c, s, a); Enabled(c, s1, b) && ValidRun(c, Apply(c, s1, b), rest)
    ensures ValidRun(c, s, [a, b] + rest)
    ensures Run(c, s, [a, b] + rest) == Run(c, Apply(c, Apply(c, s, a), b), rest)
  {
    var steps := [a, b] + rest;
    assert steps[1..] == [b] + rest && steps[1..][1..] == rest;
    assert ValidRun(c, Apply(c, s, a), steps[1..]);
  }

  /** What is left of a table when the listed rows are deleted. */
  ghost predicate Cleared(before: seq<Media>, after: seq<Media>, todo: seq<Media>) {
    forall r :: r in after <==> r in before && forall m :: m in todo ==> !Is(r, m)
  }

  /** A call that has listed rows to delete can always finish: two steps a row, and none of them is left. */
  lemma {:induction false} CleanupCanFinish(c: Config, s: System, call: nat) returns (steps: seq<Step>)
    requires Inv(c, s) && call in s.calls && s.calls[call].Deleting? && !s.calls[call].removed
    ensures ValidRun(c, s, steps) && |steps| == 2 * |s.calls[call].todo|
    ensures call !in Run(c, s, steps).calls && Cleared(s.rows, Run(c, s, steps).rows, s.calls[call].todo)
    decreases |s.calls[call].todo|
  {
    var todo := s.calls[call].todo;
    assert CallOk(c, s, s.calls[call]) && todo[0] in todo;
    var a, b := RemoveObject(call), ForgetRow(call);
    var s1 := Apply(c, s, a);
    StepKeeps(c, s, a);
    var s2 := Apply(c, s1, b);
    StepKeeps(c, s1, b);
    var rest := [];
    if |todo| > 1 {
      rest := CleanupCanFinish(c, s2, call);
      ClearedMore(s.rows, s2.rows, Run(c, s2, rest).rows, todo);
    } else {
      ClearedOne(s.rows, todo);
    }
    steps := [a, b] + rest;
    RunTwo(c, s, a, b, rest);
  }

  lemma ClearedOne(before: seq<Media>, todo: seq<Media>)
    requires |todo| == 1
    ensures Cleared(before, Forget(before, todo[0]), todo)
  {
    forall r ensures r in Forget(before, todo[0]) <==> r in before && !Is(r, todo[0]) {
      ForgetMembers(before, todo[0], r);
    }
  }

  lemma ClearedMore(before: seq<Media>, middle: seq<Media>, after: seq<Media>, todo: seq<Media>)
    requires todo != [] && middle == Forget(before, todo[0]) && Cleared(middle, after, todo[1..])
    ensures Cleared(before, after, todo)
  {
    ClearedOne(before, todo[..1]);
    assert todo == [todo[0]] + todo[1..];
  }

  /// Download

  datatype DownloadError = NotFound | WrongOwner | Unavailable | Corrupt

  function Download(
      session: string, found: Option<Media>, served: Option<seq<byte>>): Result<seq<byte>, DownloadError>
  {
    match found
    case None => Err(NotFound)
    case Some(m) =>
      if !Owns(session, m) then Err(WrongOwner)
      else
        match served
        case None => Err(Unavailable)
        case Some(data) => if |data| != m.size || ContentHash(data) != m.hash then Err(Corrupt) else Ok(data)
  }

  /**
   Whatever the bucket returns, a download yields only bytes with the archived digest, and only to
   the session that archived them; and it yields them as long as the object was not deleted.
   */
  lemma DownloadGivesTheArchived(c: Config, s: System, r: Media, session: string, served: Option<seq<byte>>)
    requires Inv(c, s) && r in s.rows && r.ready
    ensures Download(session, Some(r), served).Ok? ==>
      Download(session, Some(r), served).value == r.hash.data && session == c.session
    ensures r.key !in s.removed ==>
      r.key in s.bucket && Download(c.session, Some(r), Some(s.bucket[r.key])) == Ok(r.hash.data)
  {
    assert RowOk(c, s, r);
  }

  /// Why uploads must be punctual

  const LATE := Request("c", "m", true, "t", [0])
  const NOON := Clock(0, 0, 0)

  function LateRow(c: Config): Media {
    Reservation(MediaOf(c, LATE, 0, NOON), NOON)
  }

  /** The reservation of an upload that is still pending, at a given time. */
  function LateState(c: Config, now: int, calls: map<nat, Call>): System {
    var m := LateRow(c);
    System(now, [m], map[], map[m.key := Upload([0], m.expires)], {}, {}, 1, calls)
  }

  lemma LateStart(c: Config)
    requires ValidConfig(c)
    ensures Enabled(c, INIT, Archive(0, LATE, NOON))
    ensures Apply(c, INIT, Archive(0, LATE, NOON)) == LateState(c, 0, map[0 := Uploading(MediaOf(c, LATE, 0, NOON))])
  {
    assert [] + [LateRow(c)] == [LateRow(c)];
    assert Total([]) == 0;
  }

  lemma LateCleanup(c: Config, calls: map<nat, Call>)
    requires 1 !in calls
    ensures var s, m := LateState(c, HOUR, calls), LateRow(c);
      var s1 := s.(calls := calls[1 := Deleting([m], false)]);
      && Enabled(c, s, PickExpired(1, [m])) && Apply(c, s, PickExpired(1, [m])) == s1
      && Enabled(c, s1, RemoveObject(1)) && Enabled(c, Apply(c, s1, RemoveObject(1)), ForgetRow(1))
      && (var s3 := Apply(c, Apply(c, s1, RemoveObject(1)), ForgetRow(1)); s3.rows == [] && s3.pending == s.pending)
  {
    var m := LateRow(c);
    assert m in [m];
    assert Forget([m], m) == Forget([], m) by {
      assert [m][..0] == [];
    }
  }

  /** The cleanup, and then the late arrival. */
  function LateRest(c: Config): seq<Step> {
    [PickExpired(1, [LateRow(c)]), RemoveObject(1)] + ([ForgetRow(1), Land(LateRow(c).key)] + [])
  }

  function LateSteps(c: Config): seq<Step> {
    [Archive(0, LATE, NOON), Tick(HOUR)] + LateRest(c)
  }

  lemma LateTail(c: Config, calls: map<nat, Call>)
    requires 1 !in calls
    ensures var s := LateState(c, HOUR, calls);
      ValidRun(c, s, LateRest(c)) && Uncovered(Run(c, s, LateRest(c)), LateRow(c).key)
  {
    var s2, m := LateState(c, HOUR, calls), LateRow(c);
    LateCleanup(c, calls);
    var s4 := Apply(c, Apply(c, s2, PickExpired(1, [m])), RemoveObject(1));
    RunTwo(c, s4, ForgetRow(1), Land(m.key), []);
    RunTwo(c, s2, PickExpired(1, [m]), RemoveObject(1), [ForgetRow(1), Land(m.key)] + []);
  }

  /**
   Punctuality is needed: an upload fails ambiguously, its reservation expires and is cleaned up an
   hour later, and only then the object arrives; nothing refers to it any more.
   */
  lemma LateUploadIsUncovered(c: Config)
    requires ValidConfig(c)
    ensures ValidRun(c, INIT, LateSteps(c))
    ensures Uncovered(Run(c, INIT, LateSteps(c)), LateRow(c).key)
  {
    var calls: map<nat, Call> := map[0 := Uploading(MediaOf(c, LATE, 0, NOON))];
    LateStart(c);
    LateTail(c, calls);
    RunTwo(c, INIT, Archive(0, LATE, NOON), Tick(HOUR), LateRest(c));
  }
}
