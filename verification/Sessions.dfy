/**
 The session lifecycle (internal/session) as a protocol: one operation at a time holds the operation lock, in several
 steps, and the process may die between any two.  Records and credentials outlive it; handles do not. */
module Sessions {
  import opened Prelude

  const MAX_LIVE := 100

  type Credential = nat

  /** <name>.session.json; an absent file reads as Record(false, false, ""). */
  datatype Record = Record(restore: bool, revoked: bool, settings: string)

  const NO_RECORD := Record(false, false, "")

  /** Record files and, for each <name>.db, the device credentials in it. */
  datatype Disk = Disk(records: map<string, Record>, devices: map<string, set<Credential>>)

  function ReadRecord(d: Disk, name: string): Record {
    if name in d.records then d.records[name] else NO_RECORD
  }

  function Devices(d: Disk, name: string): set<Credential> {
    if name in d.devices then d.devices[name] else {}
  }

  datatype Handle = Handle(id: nat, settings: string)

  /** What the holder of the operation lock is doing. */
  datatype Op =
    | Idle
    | Opening(name: string)                             // openHandle, which may be deleting devices
    | Opened(name: string, h: Handle)                   // owned by Start, not yet recorded
    | Recorded(name: string, h: Handle)                 // recorded, not yet in the map
    | Published(name: string, h: Handle)                // in the map, connecting
    | Ending(name: string, h: Handle, inMap: bool, draining: bool)  // about to be released
    | Ended(name: string, h: Handle, draining: bool)    // released, still in the map
    | Draining                                          // shutdown, between two handles

  /**
   `created` and `released` are the handles open returned and those released since, in this process;
   `tainted` are the credentials that were on disk when a revocation of their session was recorded;
   `used` are the credentials that some start began to connect with.
   */
  datatype System = System(
    disk: Disk, live: map<string, Handle>, op: Op, stopping: bool, drained: bool,
    created: set<nat>, released: set<nat>, tainted: set<Credential>, used: set<Credential>, creds: nat)

  datatype Step =
    // Start, and the start half of restore
    | BeginStart(name: string)
    | DeleteDevice(c: Credential)
    | OpenOk(id: nat)
    | OpenFails
    | RecordStart
    | RecordStartFails
    | Publish
    | Connected
    | ConnectFails
    // The other operations, up to the release of the handle
    | Close(name: string)
    | Logout(name: string, recorded: bool)
    | Permanent(name: string, id: nat, revoked: bool, recorded: bool)
    | UpdateSettings(name: string, settings: string)
    // Ending a handle
    | Release
    | Remove
    // Shutdown
    | Announce
    | BeginDrain
    | DrainNext(name: string)
    | EndDrain
    // Outside the lock
    | Pair(name: string)
    | Unpair(name: string, c: Credential)
    | Restart

  ghost predicate MayStart(s: System, name: string) {
    s.op == Idle && !s.stopping && name !in s.live && |s.live| < MAX_LIVE
  }

  ghost predicate Enabled(s: System, st: Step) {
    match st
    case BeginStart(name) => MayStart(s, name)
    case DeleteDevice(c) =>
      s.op.Opening? && ReadRecord(s.disk, s.op.name).revoked && c in Devices(s.disk, s.op.name)
    case OpenOk(id) =>
      s.op.Opening? && id !in s.created && (ReadRecord(s.disk, s.op.name).revoked ==> Devices(s.disk, s.op.name) == {})
    case OpenFails => s.op.Opening?
    case RecordStart => s.op.Opened?
    case RecordStartFails => s.op.Opened?
    case Publish => s.op.Recorded?
    case Connected => s.op.Published?
    case ConnectFails => s.op.Published?
    case Close(_) => s.op == Idle && !s.stopping
    case Logout(name, _) => s.op == Idle && !s.stopping && name in s.live
    case Permanent(_, _, _, _) => s.op == Idle
    case UpdateSettings(_, _) => s.op == Idle && !s.stopping
    case Release => s.op.Ending?
    case Remove => s.op.Ended?
    case Announce => true
    case BeginDrain => s.op == Idle && s.stopping && !s.drained
    case DrainNext(name) => s.op == Draining && name in s.live
    case EndDrain => s.op == Draining && s.live == map[]
    case Pair(name) => name in s.live && s.live[name].id !in s.released
    case Unpair(name, _) => name in s.live && s.live[name].id !in s.released
    case Restart => true
  }

  function Write(d: Disk, name: string, r: Record): Disk {
    d.(records := d.records[name := r])
  }

  /** Writing a revocation taints what is on disk for that session. */
  function Revoke(s: System, name: string, r: Record): System {
    s.(disk := Write(s.disk, name, r), tainted := if r.revoked then s.tainted + Devices(s.disk, name) else s.tainted)
  }

  function Without<V>(m: map<string, V>, name: string): map<string, V> {
    map n | n in m && n != name :: m[n]
  }

  function Apply(s: System, st: Step): System
    requires Enabled(s, st)
  {
    match st
    case BeginStart(name) =>
      s.(op := Opening(name), disk := s.disk.(devices := s.disk.devices[name := Devices(s.disk, name)]))
    case DeleteDevice(c) =>
      s.(disk := s.disk.(devices := s.disk.devices[s.op.name := Devices(s.disk, s.op.name) - {c}]))
    case OpenOk(id) =>
      s.(op := Opened(s.op.name, Handle(id, ReadRecord(s.disk, s.op.name).settings)), created := s.created + {id},
         used := s.used + Devices(s.disk, s.op.name))
    case OpenFails => s.(op := Idle)
    case RecordStart =>
      s.(op := Recorded(s.op.name, s.op.h),
         disk := Write(s.disk, s.op.name, ReadRecord(s.disk, s.op.name).(restore := true, revoked := false)))
    case RecordStartFails => s.(op := Ending(s.op.name, s.op.h, false, false))
    case Publish => s.(op := Published(s.op.name, s.op.h), live := s.live[s.op.name := s.op.h])
    case Connected => s.(op := Idle)
    case ConnectFails => s.(op := Ending(s.op.name, s.op.h, true, false))
    case Close(name) =>
      s.(disk := Write(s.disk, name, ReadRecord(s.disk, name).(restore := false)),
         op := if name in s.live then Ending(name, s.live[name], true, false) else Idle)
    case Logout(name, recorded) =>
      var t := if recorded then Revoke(s, name, Record(false, true, s.live[name].settings)) else s;
      t.(op := Ending(name, s.live[name], true, false))
    case Permanent(name, id, revoked, recorded) =>
      if name in s.live && s.live[name].id == id then
        var t := if recorded then Revoke(s, name, Record(false, revoked, s.live[name].settings)) else s;
        t.(op := Ending(name, s.live[name], true, false))
      else s
    case UpdateSettings(name, settings) =>
      s.(disk := Write(s.disk, name, ReadRecord(s.disk, name).(settings := settings)),
         live := if name in s.live then s.live[name := s.live[name].(settings := settings)] else s.live)
    case Release =>
      s.(released := s.released + {s.op.h.id},
         op := if s.op.inMap then Ended(s.op.name, s.op.h, s.op.draining) else Idle)
    case Remove => s.(live := Without(s.live, s.op.name), op := if s.op.draining then Draining else Idle)
    case Announce => s.(stopping := true)
    case BeginDrain => s.(op := Draining)
    case DrainNext(name) => s.(op := Ending(name, s.live[name], true, true))
    case EndDrain => s.(op := Idle, drained := true)
    case Pair(name) =>
      s.(disk := s.disk.(devices := s.disk.devices[name := Devices(s.disk, name) + {s.creds}]), creds := s.creds + 1)
    case Unpair(name, c) =>
      s.(disk := s.disk.(devices := s.disk.devices[name := Devices(s.disk, name) - {c}]))
    case Restart =>
      s.(live := map[], op := Idle, stopping := false, drained := false, created := {}, released := {})
  }

  ghost predicate ValidRun(s: System, steps: seq<Step>)
    decreases |steps|
  {
    steps == [] || (Enabled(s, steps[0]) && ValidRun(Apply(s, steps[0]), steps[1..]))
  }

  ghost function Run(s: System, steps: seq<Step>): System
    requires ValidRun(s, steps)
    decreases |steps|
  {
    if steps == [] then s else Run(Apply(s, steps[0]), steps[1..])
  }

  /// Handles

  ghost predicate InMap(s: System, id: nat) {
    exists n :: n in s.live && s.live[n].id == id
  }

  /** A handle only the running operation knows of. */
  predicate Held(op: Op, id: nat) {
    (op.Opened? || op.Recorded? || (op.Ending? && !op.inMap)) && op.h.id == id
  }

  ghost predicate MapOk(s: System) {
    && (forall n, m :: n in s.live && m in s.live && s.live[n].id == s.live[m].id ==> n == m)
    && (forall n :: n in s.live ==> s.live[n].id in s.created)
    && (forall n :: n in s.live && s.live[n].id in s.released ==> s.op.Ended? && s.op.name == n)
    && |s.live| <= MAX_LIVE
  }

  ghost predicate OpOk(s: System) {
    match s.op
    case Idle => true
    case Opening(name) => name !in s.live && |s.live| < MAX_LIVE
    case Opened(name, h) =>
      name !in s.live && |s.live| < MAX_LIVE && h.id in s.created && h.id !in s.released && !InMap(s, h.id)
    case Recorded(name, h) =>
      name !in s.live && |s.live| < MAX_LIVE && h.id in s.created && h.id !in s.released && !InMap(s, h.id)
    case Published(name, h) => name in s.live && s.live[name] == h
    case Ending(name, h, inMap, draining) =>
      && h.id in s.created && h.id !in s.released
      && (if inMap then name in s.live && s.live[name] == h else name !in s.live && !InMap(s, h.id) && !draining)
      && (draining ==> s.stopping)
    case Ended(name, h, draining) =>
      name in s.live && s.live[name] == h && h.id in s.released && (draining ==> s.stopping)
    case Draining => s.stopping
  }

  /** Every handle opened in this process is released, in the map, or held by the running operation. */
  ghost predicate HandlesOk(s: System) {
    && MapOk(s) && OpOk(s)
    && s.released <= s.created
    && (forall id :: id in s.created ==> id in s.released || InMap(s, id) || Held(s.op, id))
    && (s.drained ==> s.stopping && s.op == Idle && s.live == map[])
  }

  lemma InMapAfter(s: System, s': System, name: string, h: Handle)
    requires s'.live == s.live[name := h]
    requires name in s.live ==> s.live[name].id == h.id
    ensures forall id :: InMap(s', id) <==> InMap(s, id) || id == h.id
  {
    assert name in s'.live && s'.live[name].id == h.id;
    forall id | InMap(s, id) ensures InMap(s', id) {
      var n :| n in s.live && s.live[n].id == id;
      assert s'.live[n].id == id;
    }
  }

  lemma InMapWithout(s: System, s': System, name: string)
    requires MapOk(s) && name in s.live && s'.live == Without(s.live, name)
    ensures forall id :: InMap(s', id) <==> InMap(s, id) && id != s.live[name].id
    ensures |s'.live| == |s.live| - 1
  {
    forall id | InMap(s, id) && id != s.live[name].id ensures InMap(s', id) {
      var n :| n in s.live && s.live[n].id == id;
      assert n in s'.live;
    }
    assert s'.live.Keys == s.live.Keys - {name};
  }

  /** The map and the handles are untouched; the operation moves on. */
  lemma OpMoves(s: System, s': System)
    requires HandlesOk(s) && s'.live == s.live && s'.created == s.created && s'.released == s.released
    requires OpOk(s') && (s.stopping ==> s'.stopping) && s'.drained == s.drained
    requires s.op == s'.op || (!s.op.Ended? && !s.drained)
    requires forall id :: Held(s.op, id) ==> Held(s'.op, id)
    ensures HandlesOk(s')
  {
  }

  lemma StartHandles(s: System, st: Step)
    requires HandlesOk(s) && Enabled(s, st)
    requires st.BeginStart? || st.DeleteDevice? || st.OpenFails? || st.RecordStart? || st.RecordStartFails?
      || st.Connected? || st.ConnectFails?
    ensures HandlesOk(Apply(s, st))
  {
    OpMoves(s, Apply(s, st));
  }

  lemma OpenHandles(s: System, st: Step)
    requires HandlesOk(s) && Enabled(s, st) && st.OpenOk?
    ensures HandlesOk(Apply(s, st))
  {
  }

  lemma PublishHandles(s: System, st: Step)
    requires HandlesOk(s) && Enabled(s, st) && st.Publish?
    ensures HandlesOk(Apply(s, st))
  {
    var s' := Apply(s, st);
    InMapAfter(s, s', s.op.name, s.op.h);
    assert s'.live.Keys == s.live.Keys + {s.op.name};
    assert |s'.live| == |s.live| + 1;
  }

  lemma EndHandles(s: System, st: Step)
    requires HandlesOk(s) && Enabled(s, st) && (st.Close? || st.Logout? || st.Permanent?)
    ensures HandlesOk(Apply(s, st))
  {
    OpMoves(s, Apply(s, st));
  }

  lemma ReleaseHandles(s: System, st: Step)
    requires HandlesOk(s) && Enabled(s, st) && st.Release?
    ensures HandlesOk(Apply(s, st))
  {
  }

  lemma RemoveHandles(s: System, st: Step)
    requires HandlesOk(s) && Enabled(s, st) && st.Remove?
    ensures HandlesOk(Apply(s, st))
  {
    InMapWithout(s, Apply(s, st), s.op.name);
  }

  lemma UpdateHandles(s: System, st: Step)
    requires HandlesOk(s) && Enabled(s, st) && st.UpdateSettings?
    ensures HandlesOk(Apply(s, st))
  {
    var s' := Apply(s, st);
    if st.name in s.live {
      InMapAfter(s, s', st.name, s'.live[st.name]);
      assert s'.live.Keys == s.live.Keys;
      assert |s'.live| == |s.live|;
    }
  }

  lemma ShutdownHandles(s: System, st: Step)
    requires HandlesOk(s) && Enabled(s, st)
    requires st.Announce? || st.BeginDrain? || st.Pair? || st.Unpair?
    ensures HandlesOk(Apply(s, st))
  {
    OpMoves(s, Apply(s, st));
  }

  lemma DrainedHandles(s: System)
    requires HandlesOk(s) && Enabled(s, EndDrain)
    ensures HandlesOk(Apply(s, EndDrain))
  {
  }

  lemma RestartHandles(s: System)
    ensures HandlesOk(Apply(s, Restart))
  {
  }

  lemma HandlesStep(s: System, st: Step)
    requires HandlesOk(s) && Enabled(s, st)
    ensures HandlesOk(Apply(s, st))
  {
    match st
    case OpenOk(_) => OpenHandles(s, st);
    case Publish => PublishHandles(s, st);
    case Close(_) => EndHandles(s, st);
    case Logout(_, _) => EndHandles(s, st);
    case Permanent(_, _, _, _) => EndHandles(s, st);
    case DrainNext(_) =>
    case Release => ReleaseHandles(s, st);
    case Remove => RemoveHandles(s, st);
    case UpdateSettings(_, _) => UpdateHandles(s, st);
    case Announce => ShutdownHandles(s, st);
    case BeginDrain => ShutdownHandles(s, st);
    case EndDrain => DrainedHandles(s);
    case Pair(_) => ShutdownHandles(s, st);
    case Unpair(_, _) => ShutdownHandles(s, st);
    case Restart => RestartHandles(s);
    case _ => StartHandles(s, st);
  }

  /// Records and credentials

  ghost predicate RecordsOk(d: Disk) {
    forall n :: n in d.records ==> !(d.records[n].restore && d.records[n].revoked)
  }

  /** Every credential belongs to one session and is known by its number. */
  ghost predicate CredentialsOk(s: System) {
    && (forall n, c :: c in Devices(s.disk, n) ==> c < s.creds)
    && (forall n, m, c :: c in Devices(s.disk, n) && c in Devices(s.disk, m) ==> n == m)
    && (forall c :: c in s.tainted ==> c < s.creds)
  }

  /** No handle of that session can be in use: there is none, or it is being ended. */
  ghost predicate Inactive(s: System, name: string) {
    && (name in s.live ==> (s.op.Ending? || s.op.Ended?) && s.op.name == name)
    && !((s.op.Opened? || s.op.Recorded? || s.op.Published?) && s.op.name == name)
  }

  ghost predicate TaintOk(s: System) {
    forall n, c :: c in Devices(s.disk, n) && c in s.tainted ==> ReadRecord(s.disk, n).revoked && Inactive(s, n)
  }

  /** A handle carries the settings on record. */
  ghost predicate SettingsOk(s: System) {
    && (forall n :: n in s.live ==> s.live[n].settings == ReadRecord(s.disk, n).settings)
    && (s.op.Opened? || s.op.Recorded? ==> s.op.h.settings == ReadRecord(s.disk, s.op.name).settings)
  }

  ghost predicate Inv(s: System) {
    HandlesOk(s) && RecordsOk(s.disk) && CredentialsOk(s) && TaintOk(s) && SettingsOk(s)
  }

  lemma RecordsStep(s: System, st: Step)
    requires RecordsOk(s.disk) && Enabled(s, st)
    ensures RecordsOk(Apply(s, st).disk)
  {
  }

  /** What one step does to one session's credentials: it may delete some, and pairing adds a new one. */
  lemma DevicesStep(s: System, st: Step, n: string)
    requires Enabled(s, st)
    ensures Devices(Apply(s, st).disk, n) <= Devices(s.disk, n) + (if st == Pair(n) then {s.creds} else {})
  {
    match st
    case BeginStart(_) =>
    case DeleteDevice(_) =>
    case Pair(_) =>
    case Unpair(_, _) =>
    case _ =>
      assert Apply(s, st).disk.devices == s.disk.devices;
  }

  ghost predicate Grown(s: System, s': System, st: Step) {
    && s'.creds == s.creds + (if st.Pair? then 1 else 0)
    && (forall n :: Devices(s'.disk, n) <= Devices(s.disk, n) + (if st == Pair(n) then {s.creds} else {}))
    && (s'.tainted == s.tainted ||
        ((st.Logout? || st.Permanent?) && s'.tainted == s.tainted + Devices(s.disk, st.name)))
  }

  lemma GrownStep(s: System, st: Step)
    requires Enabled(s, st)
    ensures Grown(s, Apply(s, st), st)
  {
    forall n ensures Devices(Apply(s, st).disk, n) <= Devices(s.disk, n) + (if st == Pair(n) then {s.creds} else {}) {
      DevicesStep(s, st, n);
    }
  }

  lemma CredentialsStep(s: System, s': System, st: Step)
    requires CredentialsOk(s) && Grown(s, s', st)
    ensures CredentialsOk(s')
  {
    forall n, c | c in Devices(s'.disk, n) ensures c in Devices(s.disk, n) || (st == Pair(n) && c == s.creds) {
    }
  }

  lemma RecordSettingsStep(s: System, st: Step, n: string)
    requires Enabled(s, st)
    ensures var t := ReadRecord(Apply(s, st).disk, n);
      || t.settings == ReadRecord(s.disk, n).settings
      || (st.UpdateSettings? && st.name == n)
      || ((st.Logout? || st.Permanent?) && st.name == n && n in s.live && t.settings == s.live[n].settings)
  {
  }

  lemma LiveSettings(s: System, st: Step, n: string)
    requires HandlesOk(s) && SettingsOk(s) && Enabled(s, st) && n in Apply(s, st).live
    ensures Apply(s, st).live[n].settings == ReadRecord(Apply(s, st).disk, n).settings
  {
    RecordSettingsStep(s, st, n);
  }

  lemma SettingsStep(s: System, st: Step)
    requires HandlesOk(s) && SettingsOk(s) && Enabled(s, st)
    ensures SettingsOk(Apply(s, st))
  {
    var s' := Apply(s, st);
    forall n | n in s'.live ensures s'.live[n].settings == ReadRecord(s'.disk, n).settings {
      LiveSettings(s, st, n);
    }
  }

  lemma StillTainted(s: System, st: Step, n: string, c: Credential)
    requires HandlesOk(s) && TaintOk(s) && Enabled(s, st) && c in Devices(s.disk, n) && c in s.tainted
    requires c in Devices(Apply(s, st).disk, n)
    ensures ReadRecord(Apply(s, st).disk, n).revoked && Inactive(Apply(s, st), n)
  {
    assert Inactive(s, n) && ReadRecord(s.disk, n).revoked;
  }

  ghost predicate TaintStays(s: System, s': System) {
    forall n, c :: c in Devices(s.disk, n) && c in s.tainted && c in Devices(s'.disk, n) ==>
      ReadRecord(s'.disk, n).revoked && Inactive(s', n)
  }

  lemma TaintStep(s: System, s': System, st: Step)
    requires CredentialsOk(s) && TaintOk(s) && Grown(s, s', st)
    requires TaintStays(s, s')
    requires s'.tainted != s.tainted ==> Inactive(s', st.name) && ReadRecord(s'.disk, st.name).revoked
    ensures TaintOk(s')
  {
    forall n, c | c in Devices(s'.disk, n) && c in s'.tainted
      ensures ReadRecord(s'.disk, n).revoked && Inactive(s', n)
    {
      assert c in Devices(s.disk, n);
    }
  }

  lemma TaintedStay(s: System, st: Step)
    requires HandlesOk(s) && TaintOk(s) && Enabled(s, st)
    ensures TaintStays(s, Apply(s, st))
  {
    forall n, c | c in Devices(s.disk, n) && c in s.tainted && c in Devices(Apply(s, st).disk, n)
      ensures ReadRecord(Apply(s, st).disk, n).revoked && Inactive(Apply(s, st), n)
    {
      StillTainted(s, st, n, c);
    }
  }

  lemma StepKeeps(s: System, st: Step)
    requires Inv(s) && Enabled(s, st)
    ensures Inv(Apply(s, st))
  {
    HandlesStep(s, st);
    RecordsStep(s, st);
    GrownStep(s, st);
    CredentialsStep(s, Apply(s, st), st);
    TaintedStay(s, st);
    TaintStep(s, Apply(s, st), st);
    SettingsStep(s, st);
  }

  /** Every reachable state satisfies the invariant, across crashes and restarts; no credential is ever untainted. */
  lemma {:induction false} RunKeeps(s: System, steps: seq<Step>)
    requires Inv(s) && ValidRun(s, steps)
    ensures var t := Run(s, steps); Inv(t) && s.tainted <= t.tainted && s.creds <= t.creds
    decreases |steps|
  {
    if steps == [] {
    } else {
      StepKeeps(s, steps[0]);
      GrownStep(s, steps[0]);
      RunKeeps(Apply(s, steps[0]), steps[1..]);
    }
  }

  /// What the steps put on disk

  /** Which record each step writes: its restoration, its revocation and its settings; the other steps write none. */
  lemma RecordsWritten(s: System, st: Step)
    requires Enabled(s, st)
    ensures var d := Apply(s, st).disk;
      match st
      case RecordStart =>
        d.records == s.disk.records[s.op.name := Record(true, false, ReadRecord(s.disk, s.op.name).settings)]
      case Close(name) =>
        var r := ReadRecord(s.disk, name); d.records == s.disk.records[name := Record(false, r.revoked, r.settings)]
      case Logout(name, recorded) =>
        d.records ==
          if recorded then s.disk.records[name := Record(false, true, s.live[name].settings)] else s.disk.records
      case Permanent(name, id, revoked, recorded) =>
        d.records ==
          if recorded && name in s.live && s.live[name].id == id
          then s.disk.records[name := Record(false, revoked, s.live[name].settings)] else s.disk.records
      case UpdateSettings(name, settings) =>
        var r := ReadRecord(s.disk, name); d.records == s.disk.records[name := Record(r.restore, r.revoked, settings)]
      case _ => d.records == s.disk.records
  {
  }

  /** A session without a record is neither to be restored nor revoked. */
  lemma NothingRecorded(d: Disk, name: string)
    requires name !in d.records
    ensures ReadRecord(d, name) == Record(false, false, "")
  {
  }

  /** Opening uses all credentials that are there, and recording a revocation taints them; nothing else does. */
  lemma CredentialsNoted(s: System, st: Step)
    requires Enabled(s, st)
    ensures var t := Apply(s, st);
      && t.used == (if st.OpenOk? then s.used + Devices(s.disk, s.op.name) else s.used)
      && t.tainted ==
          if (st.Logout? && st.recorded)
             || (st.Permanent? && st.recorded && st.revoked && st.name in s.live && s.live[st.name].id == st.id)
          then s.tainted + Devices(s.disk, st.name) else s.tainted
  {
  }

  /// What follows

  /** A first process, over whatever earlier ones left on disk. */
  lemma InitOk(d: Disk, creds: nat)
    requires RecordsOk(d)
    requires forall n, c :: c in Devices(d, n) ==> c < creds
    requires forall n, m, c :: c in Devices(d, n) && c in Devices(d, m) ==> n == m
    ensures Inv(System(d, map[], Idle, false, false, {}, {}, {}, {}, creds))
  {
  }

  /** No record ever asks for restoration while it is revoked, in this process or any later one. */
  lemma NeverRestorableAndRevoked(s: System, steps: seq<Step>, n: string)
    requires Inv(s) && ValidRun(s, steps)
    ensures var r := ReadRecord(Run(s, steps).disk, n); !(r.restore && r.revoked)
  {
    RunKeeps(s, steps);
  }

  /** Whenever the operation lock is free the map holds exactly the handles not yet released, at most a hundred. */
  lemma MapHoldsTheUnreleased(s: System, steps: seq<Step>)
    requires Inv(s) && ValidRun(s, steps) && Run(s, steps).op == Idle
    ensures var t := Run(s, steps);
      (forall id :: InMap(t, id) <==> id in t.created - t.released) && |t.live| <= 100
  {
    RunKeeps(s, steps);
    var t := Run(s, steps);
    forall id | InMap(t, id) ensures id in t.created - t.released {
      var n :| n in t.live && t.live[n].id == id;
    }
  }

  ghost predicate Releases(s: System, st: Step, id: nat) {
    st == Release && s.op.Ending? && s.op.h.id == id
  }

  /** How many steps of a run release a given handle. */
  ghost function Releasings(s: System, steps: seq<Step>, id: nat): nat
    requires ValidRun(s, steps)
    decreases |steps|
  {
    if steps == [] then 0
    else (if Releases(s, steps[0], id) then 1 else 0) + Releasings(Apply(s, steps[0]), steps[1..], id)
  }

  ghost predicate SameProcess(steps: seq<Step>) {
    steps == [] || (steps[0] != Restart && SameProcess(steps[1..]))
  }

  /** Within a process no handle is released twice, and `released` holds exactly those that were. */
  lemma {:induction false} ReleasedOnce(s: System, steps: seq<Step>, id: nat)
    requires Inv(s) && ValidRun(s, steps) && SameProcess(steps)
    ensures Releasings(s, steps, id) + (if id in s.released then 1 else 0)
      == if id in Run(s, steps).released then 1 else 0
    decreases |steps|
  {
    if steps == [] {
    } else {
      StepKeeps(s, steps[0]);
      ReleasedOnce(Apply(s, steps[0]), steps[1..], id);
    }
  }

  /** A permanent stop ends the handle it was raised for or nothing: never a newer one of the same name. */
  lemma LatePermanentIsHarmless(s: System, st: Step)
    requires Inv(s) && st.Permanent? && Enabled(s, st)
    ensures if InMap(s, st.id) && st.name in s.live && s.live[st.name].id == st.id
            then Apply(s, st).op.Ending? && Apply(s, st).op.h.id == st.id && Apply(s, st).live == s.live
            else Apply(s, st) == s
    ensures st.id in s.released ==> Apply(s, st) == s
  {
  }

  /** Only a released handle leaves the map. */
  lemma OnlyTheReleasedLeave(s: System, st: Step, name: string)
    requires Inv(s) && Enabled(s, st) && st != Restart && name in s.live && name !in Apply(s, st).live
    ensures s.live[name].id in s.released
  {
  }

  /** After shutdown has completed the map stays empty and nothing is opened, until a new process. */
  lemma {:induction false} ShutdownIsFinal(s: System, steps: seq<Step>)
    requires Inv(s) && ValidRun(s, steps) && s.drained && SameProcess(steps)
    ensures var t := Run(s, steps); t.drained && t.live == map[] && t.created == s.created && t.created <= t.released
    decreases |steps|
  {
    if steps != [] {
      StepKeeps(s, steps[0]);
      ShutdownIsFinal(Apply(s, steps[0]), steps[1..]);
    } else {
      forall id | id in s.created ensures id in s.released {
        assert !InMap(s, id);
      }
    }
  }

  ghost predicate Starts(s: System, steps: seq<Step>, n: string)
    requires ValidRun(s, steps)
    decreases |steps|
  {
    steps != [] &&
    ((steps[0] == RecordStart && s.op.name == n) || Starts(Apply(s, steps[0]), steps[1..], n))
  }

  /** Only a start turns automatic restoration on, in this process or any later one. */
  lemma {:induction false} OnlyStartRestores(s: System, steps: seq<Step>, n: string)
    requires ValidRun(s, steps) && !ReadRecord(s.disk, n).restore && ReadRecord(Run(s, steps).disk, n).restore
    ensures Starts(s, steps, n)
    decreases |steps|
  {
    if !ReadRecord(Apply(s, steps[0]).disk, n).restore {
      OnlyStartRestores(Apply(s, steps[0]), steps[1..], n);
    }
  }

  /** What a start begins to connect with holds no tainted credential. */
  lemma OpensUntainted(s: System, st: Step, c: Credential)
    requires TaintOk(s) && st.OpenOk? && Enabled(s, st) && c in s.tainted
    ensures c !in Devices(s.disk, s.op.name)
  {
    var n := s.op.name;
    assert c in Devices(s.disk, n) && c in s.tainted ==> ReadRecord(s.disk, n).revoked;
  }

  lemma UseStep(s: System, st: Step, c: Credential)
    requires Inv(s) && Enabled(s, st) && c in s.tainted
    ensures c in Apply(s, st).used ==> c in s.used
    ensures c in Apply(s, st).tainted
  {
    if st.OpenOk? {
      OpensUntainted(s, st, c);
    }
  }

  /** Credentials that were there when a revocation was recorded are never used by a later start. */
  lemma {:induction false} TaintedAreNeverUsed(s: System, steps: seq<Step>, c: Credential)
    requires Inv(s) && ValidRun(s, steps) && c in s.tainted
    ensures c in Run(s, steps).used ==> c in s.used
    decreases |steps|
  {
    if steps == [] {
    } else {
      StepKeeps(s, steps[0]);
      UseStep(s, steps[0], c);
      TaintedAreNeverUsed(Apply(s, steps[0]), steps[1..], c);
    }
  }

  /** A session's settings change by UpdateSettings alone: stops and restarts write back what they read. */
  lemma {:induction false} SettingsSurvive(s: System, steps: seq<Step>, n: string)
    requires Inv(s) && ValidRun(s, steps) && forall st :: st in steps ==> !(st.UpdateSettings? && st.name == n)
    ensures ReadRecord(Run(s, steps).disk, n).settings == ReadRecord(s.disk, n).settings
    decreases |steps|
  {
    if steps == [] {
    } else {
      StepKeeps(s, steps[0]);
      RecordSettingsStep(s, steps[0], n);
      assert steps[0] in steps;
      SettingsSurvive(Apply(s, steps[0]), steps[1..], n);
    }
  }

  function Gone(s: System, name: string): System
    requires name in s.live
  {
    s.(live := Without(s.live, name), released := s.released + {s.live[name].id})
  }

  lemma DrainOne(s: System, name: string)
    requires s.op == Draining && name in s.live
    ensures Enabled(s, DrainNext(name)) && Enabled(Apply(s, DrainNext(name)), Release)
    ensures Enabled(Apply(Apply(s, DrainNext(name)), Release), Remove)
    ensures Apply(Apply(Apply(s, DrainNext(name)), Release), Remove) == Gone(s, name)
    ensures |Gone(s, name).live| == |s.live| - 1
  {
    assert Without(s.live, name).Keys == s.live.Keys - {name};
  }

  lemma DrainOneKeeps(s: System, name: string)
    requires Inv(s) && s.op == Draining && name in s.live
    ensures Inv(Gone(s, name))
  {
    DrainOne(s, name);
    StepKeeps(s, DrainNext(name));
    StepKeeps(Apply(s, DrainNext(name)), Release);
    StepKeeps(Apply(Apply(s, DrainNext(name)), Release), Remove);
  }

  lemma RunCons(s: System, a: Step, rest: seq<Step>)
    requires Enabled(s, a) && ValidRun(Apply(s, a), rest)
    ensures ValidRun(s, [a] + rest) && Run(s, [a] + rest) == Run(Apply(s, a), rest)
  {
    assert ([a] + rest)[1..] == rest;
  }

  lemma RunThree(s: System, a: Step, b: Step, c: Step, rest: seq<Step>)
    requires Enabled(s, a) && Enabled(Apply(s, a), b) && Enabled(Apply(Apply(s, a), b), c)
    requires ValidRun(Apply(Apply(Apply(s, a), b), c), rest)
    ensures ValidRun(s, [a, b, c] + rest)
    ensures Run(s, [a, b, c] + rest) == Run(Apply(Apply(Apply(s, a), b), c), rest)
  {
    RunCons(Apply(Apply(s, a), b), c, rest);
    RunCons(Apply(s, a), b, [c] + rest);
    RunCons(s, a, [b] + ([c] + rest));
    assert [a, b, c] + rest == [a] + ([b] + ([c] + rest));
  }

  /** A shutdown that has begun can always finish: three steps a handle, and every handle is then released. */
  lemma {:induction false} DrainCanFinish(s: System) returns (steps: seq<Step>)
    requires Inv(s) && s.op == Draining
    ensures ValidRun(s, steps) && |steps| == 3 * |s.live| + 1
    ensures var t := Run(s, steps); t.drained && t.live == map[] && t.created == s.created && t.created <= t.released
    decreases |s.live|
  {
    if s.live == map[] {
      steps := [EndDrain];
    } else {
      var name :| name in s.live;
      DrainOne(s, name);
      DrainOneKeeps(s, name);
      var rest := DrainCanFinish(Gone(s, name));
      RunThree(s, DrainNext(name), Release, Remove, rest);
      steps := [DrainNext(name), Release, Remove] + rest;
    }
  }

  /** What restore looks for: a paired store with no record, or with one that asks for it. */
  predicate Restorable(d: Disk, name: string) {
    Devices(d, name) != {} && (name in d.records ==> d.records[name].restore && !d.records[name].revoked)
  }

  /**
   Saving settings leaves restoration alone exactly when the session is on record or not paired: for a
   paired store without a record it writes one that does not ask for restoration.
   */
  lemma SavingSettingsKeepsRestorationIff(s: System, st: Step)
    requires Enabled(s, st) && st.UpdateSettings?
    ensures (Restorable(Apply(s, st).disk, st.name) <==> Restorable(s.disk, st.name)) <==>
      st.name in s.disk.records || Devices(s.disk, st.name) == {}
  {
    assert Devices(Apply(s, st).disk, st.name) == Devices(s.disk, st.name);
  }

  /** Such a session: paired and not on record, it would be restored, and after its settings are saved it is not. */
  lemma SavedAndNotRestored()
    ensures var d := Disk(map[], map["s" := {0}]);
      var s := System(d, map[], Idle, false, false, {}, {}, {}, {}, 1); var st := UpdateSettings("s", "x");
      Enabled(s, st) && Restorable(s.disk, "s") && !Restorable(Apply(s, st).disk, "s")
  {
    var d := Disk(map[], map["s" := {0}]);
    assert 0 in Devices(d, "s");
  }

  /** A record that does not ask for restoration is never gone, and asks for it only after another start. */
  lemma {:induction false} RecordStaysDown(s: System, steps: seq<Step>, n: string)
    requires ValidRun(s, steps) && !Starts(s, steps, n)
    requires n in s.disk.records && !ReadRecord(s.disk, n).restore
    ensures var d := Run(s, steps).disk; n in d.records && !ReadRecord(d, n).restore
    decreases |steps|
  {
    if steps == [] {
    } else {
      RecordStaysDown(Apply(s, steps[0]), steps[1..], n);
    }
  }

  /**
   Ending a session, when that is written down, makes it stay down: whatever happens afterwards,
   crashes and restarts of the process included, it is not restored until it is started again.
   */
  lemma EndedStaysDown(s: System, st: Step, steps: seq<Step>)
    requires Enabled(s, st) && (st.Close? || ((st.Logout? || st.Permanent?) && st.recorded && Apply(s, st) != s))
    requires ValidRun(Apply(s, st), steps) && !Starts(Apply(s, st), steps, st.name)
    ensures !Restorable(Apply(s, st).disk, st.name)
    ensures !Restorable(Run(Apply(s, st), steps).disk, st.name)
  {
    RecordStaysDown(Apply(s, st), steps, st.name);
  }
}
