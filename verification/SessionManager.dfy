/**
 session.Manager as an object: each operation carried out under the operation lock, from beginning to
 end.  Sessions.dfy is about what such operations amount to when they interleave with crashes.
 */
module SessionManager {
  import opened Prelude
  import opened Sessions

  /** A live session; `releases` counts how often its resources were released. */
  class Session {
    const name: string
    var settings: string
    var releases: nat

    constructor (name: string, settings: string)
      ensures this.name == name && this.settings == settings && releases == 0
    {
      this.name, this.settings, releases := name, settings, 0;
    }
  }

  datatype StartError = Stopping | TooMany | NotOpened | NotRecorded | NotConnected

  /** How far a start gets: `kept` devices of a revoked session could not be deleted, and so on. */
  datatype Fate = Fate(kept: set<Credential>, opens: bool, recorded: bool, connects: bool)

  datatype EndError = InvalidInput | ManagerStopping | Disconnected | NotWritten

  /** What the other holders of the operation lock may do while Restore does not hold it. */
  datatype Other =
    | OtherStart(name: string, fate: Fate)
    | OtherClose(name: string, written: bool)
    | OtherLogout(name: string, loggedIn: bool, revokes: bool, written: bool)
    | OtherPermanent(name: string, revoked: bool, written: bool)
    | OtherUpdate(name: string, settings: string, valid: bool, written: bool)
    | OtherShutdown

  predicate About(op: Other, name: string) {
    !op.OtherShutdown? && op.name == name
  }

  ghost predicate Concerns(ops: seq<Other>, name: string) {
    exists op :: op in ops && About(op, name)
  }

  /** Some operation between the turns `lo` and `hi` is about this name. */
  ghost predicate Disturbed(others: seq<seq<Other>>, lo: nat, hi: nat, name: string) {
    exists j :: lo <= j < hi && j < |others| && Concerns(others[j], name)
  }

  /** What became of one name: nothing to restore, or an attempted start, with the error if it failed. */
  datatype Turn = Skipped | Tried(error: Option<StartError>)

  /** The turns that ended with a live session. */
  ghost function Started(turns: seq<Turn>): set<nat> {
    set j: nat | j < |turns| && turns[j] == Tried(None)
  }

  lemma StartedSnoc(turns: seq<Turn>, turn: Turn)
    ensures |Started(turns + [turn])| == |Started(turns)| + (if turn == Tried(None) then 1 else 0)
  {
    var more := turns + [turn];
    if turn == Tried(None) {
      assert Started(more) == Started(turns) + {|turns|};
    } else {
      assert Started(more) == Started(turns);
    }
  }

  /** How many sessions a list of operations may add. */
  function StartsIn(ops: seq<Other>): nat {
    if ops == [] then 0 else StartsIn(ops[..|ops| - 1]) + (if ops[|ops| - 1].OtherStart? then 1 else 0)
  }

  function AllStarts(others: seq<seq<Other>>): nat {
    if others == [] then 0 else AllStarts(others[..|others| - 1]) + StartsIn(others[|others| - 1])
  }

  function Restored(r: Record): Record {
    r.(restore := true, revoked := false)
  }

  /** The record and the credentials of one session are as before. */
  ghost predicate SameFor(before: Disk, after: Disk, n: string) {
    && Devices(after, n) == Devices(before, n)
    && (n in after.records <==> n in before.records) && ReadRecord(after, n) == ReadRecord(before, n)
  }

  ghost predicate OnlyTouches(before: Disk, after: Disk, name: string) {
    forall n :: n != name ==> SameFor(before, after, n)
  }

  ghost predicate Distinct(names: seq<string>) {
    forall i, j :: 0 <= i < j < |names| ==> names[i] != names[j]
  }

  /** The map is as before for this name. */
  ghost predicate Keeps(before: map<string, Session>, after: map<string, Session>, n: string) {
    (n in after <==> n in before) && (n in after ==> after[n] == before[n])
  }

  ghost predicate KeepsOthers(before: map<string, Session>, after: map<string, Session>, name: string) {
    forall n :: n != name ==> Keeps(before, after, n)
  }

  lemma WriteTouches(before: Disk, after: Disk, name: string)
    requires after.devices == before.devices
    requires after.records == before.records ||
      (name in after.records && after.records == before.records[name := after.records[name]])
    ensures OnlyTouches(before, after, name)
  {
  }

  /** What a list of operations leaves alone. */
  ghost predicate DiskApart(ops: seq<Other>, first: Disk, d: Disk) {
    forall n :: !Concerns(ops, n) ==> SameFor(first, d, n)
  }

  ghost predicate SessionsApart(ops: seq<Other>, first: map<string, Session>, ss: map<string, Session>) {
    forall n :: !Concerns(ops, n) ==> Keeps(first, ss, n)
  }

  lemma ApartStep(
      ops: seq<Other>, op: Other, first: Disk, d: Disk, d': Disk,
      ss0: map<string, Session>, ss: map<string, Session>, ss': map<string, Session>, stopping: bool)
    requires op in ops && !op.OtherShutdown? && OnlyTouches(d, d', op.name)
    requires ss' == ss || ss' == ss - {op.name} || (op.name in ss' && ss' == ss[op.name := ss'[op.name]])
    requires DiskApart(ops, first, d) && (!stopping ==> SessionsApart(ops, ss0, ss))
    ensures DiskApart(ops, first, d') && (!stopping ==> SessionsApart(ops, ss0, ss'))
  {
    forall n | !Concerns(ops, n) ensures n != op.name && SameFor(first, d', n) && (!stopping ==> Keeps(ss0, ss', n)) {
      assert About(op, op.name);
      assert SameFor(first, d, n) && SameFor(d, d', n);
    }
  }

  /// What Restore has done after `k` turns and the other operations before turn `i`

  ghost predicate DiskSo(names: seq<string>, k: nat, others: seq<seq<Other>>, i: nat, first: Disk, d: Disk)
    requires k <= |names|
  {
    forall n :: n !in names[..k] && !Disturbed(others, 0, i, n) ==> SameFor(first, d, n)
  }

  ghost predicate TriedSo(
      names: seq<string>, unreadable: set<string>, others: seq<seq<Other>>, first: Disk, turns: seq<Turn>)
  {
    |turns| <= |names| && forall j :: 0 <= j < |turns| && !Disturbed(others, 0, j + 1, names[j]) ==>
      (turns[j].Tried? <==> names[j] !in unreadable && Restorable(first, names[j]))
  }

  /**
   How an undisturbed name that was tried fared: live already, no room, or as its store and its
   connection allow.
   */
  ghost predicate FaredSo(
      names: seq<string>, fates: seq<Fate>, others: seq<seq<Other>>, first: map<string, Session>, turns: seq<Turn>)
    requires |turns| <= |names| == |fates| == |others|
  {
    forall j :: 0 <= j < |turns| && turns[j].Tried? && !Disturbed(others, 0, j + 1, names[j]) ==>
      if names[j] in first then turns[j] == Tried(None)
      else
        || (turns[j] == Tried(Some(TooMany)) && |first| + j + AllStarts(others[..j + 1]) >= 100)
        || (turns[j] == Tried(None) <==> fates[j].opens && fates[j].recorded && fates[j].connects)
  }

  ghost predicate LiveSo(
      names: seq<string>, others: seq<seq<Other>>, i: nat, ss: map<string, Session>, turns: seq<Turn>)
  {
    |turns| <= |names| &&
    forall j :: 0 <= j < |turns| && turns[j] == Tried(None) && !Disturbed(others, j + 1, i, names[j]) ==> names[j] in ss
  }

  ghost predicate KeptSo(
      names: seq<string>, k: nat, others: seq<seq<Other>>, i: nat,
      first: map<string, Session>, ss: map<string, Session>)
    requires k <= |names|
  {
    forall n :: n !in names[..k] && !Disturbed(others, 0, i, n) ==> Keeps(first, ss, n)
  }

  lemma DisturbedNext(others: seq<seq<Other>>, lo: nat, i: nat, n: string)
    requires lo <= i < |others|
    ensures Disturbed(others, lo, i + 1, n) <==> Disturbed(others, lo, i, n) || Concerns(others[i], n)
  {
  }

  lemma DiskAfterOthers(names: seq<string>, i: nat, others: seq<seq<Other>>, first: Disk, before: Disk, after: Disk)
    requires i < |others| == |names| && DiskSo(names, i, others, i, first, before)
    requires DiskApart(others[i], before, after)
    ensures DiskSo(names, i, others, i + 1, first, after)
  {
    forall n | n !in names[..i] && !Disturbed(others, 0, i + 1, n) ensures SameFor(first, after, n) {
      DisturbedNext(others, 0, i, n);
      assert SameFor(first, before, n) && SameFor(before, after, n);
    }
  }

  lemma LiveAfterOthers(
      names: seq<string>, others: seq<seq<Other>>, i: nat,
      before: map<string, Session>, after: map<string, Session>, turns: seq<Turn>)
    requires i == |turns| < |others| == |names| && LiveSo(names, others, i, before, turns)
    requires SessionsApart(others[i], before, after)
    ensures LiveSo(names, others, i + 1, after, turns)
  {
    forall j | 0 <= j < |turns| && turns[j] == Tried(None) && !Disturbed(others, j + 1, i + 1, names[j])
      ensures names[j] in after
    {
      DisturbedNext(others, j + 1, i, names[j]);
      assert Keeps(before, after, names[j]);
    }
  }

  lemma KeptAfterOthers(
      names: seq<string>, i: nat, others: seq<seq<Other>>,
      first: map<string, Session>, before: map<string, Session>, after: map<string, Session>)
    requires i < |others| == |names| && KeptSo(names, i, others, i, first, before)
    requires SessionsApart(others[i], before, after)
    ensures KeptSo(names, i, others, i + 1, first, after)
  {
    forall n | n !in names[..i] && !Disturbed(others, 0, i + 1, n) ensures Keeps(first, after, n) {
      DisturbedNext(others, 0, i, n);
      assert Keeps(first, before, n) && Keeps(before, after, n);
    }
  }

  /** One turn: its own name was still as at the start, unless another operation concerned it. */
  lemma AfterTurn(
      names: seq<string>, unreadable: set<string>, others: seq<seq<Other>>,
      first: Disk, before: Disk, after: Disk, turns: seq<Turn>, turn: Turn)
    requires Distinct(names) && |turns| < |names| == |others|
    requires DiskSo(names, |turns|, others, |turns| + 1, first, before) && OnlyTouches(before, after, names[|turns|])
    requires TriedSo(names, unreadable, others, first, turns)
    requires turn.Tried? <==> names[|turns|] !in unreadable && Restorable(before, names[|turns|])
    ensures DiskSo(names, |turns| + 1, others, |turns| + 1, first, after)
    ensures TriedSo(names, unreadable, others, first, turns + [turn])
  {
    var i := |turns|;
    forall n | n !in names[..i + 1] && !Disturbed(others, 0, i + 1, n) ensures SameFor(first, after, n) {
      assert names[i] in names[..i + 1] && names[..i + 1] == names[..i] + [names[i]];
      assert SameFor(first, before, n) && SameFor(before, after, n);
    }
    if !Disturbed(others, 0, i + 1, names[i]) {
      assert SameFor(first, before, names[i]);
    }
  }

  lemma SessionsAfterTurn(
      names: seq<string>, others: seq<seq<Other>>,
      first: map<string, Session>, before: map<string, Session>, after: map<string, Session>,
      turns: seq<Turn>, turn: Turn)
    requires |turns| < |names| == |others|
    requires LiveSo(names, others, |turns| + 1, before, turns)
    requires KeptSo(names, |turns|, others, |turns| + 1, first, before)
    requires KeepsOthers(before, after, names[|turns|]) && before.Keys <= after.Keys
    requires turn == Tried(None) ==> names[|turns|] in after
    ensures LiveSo(names, others, |turns| + 1, after, turns + [turn])
    ensures KeptSo(names, |turns| + 1, others, |turns| + 1, first, after)
  {
    var i := |turns|;
    forall n | n !in names[..i + 1] && !Disturbed(others, 0, i + 1, n) ensures Keeps(first, after, n) {
      assert names[..i + 1] == names[..i] + [names[i]];
      assert Keeps(first, before, n) && Keeps(before, after, n);
    }
  }

  lemma FaredNext(
      names: seq<string>, fates: seq<Fate>, others: seq<seq<Other>>,
      first: map<string, Session>, before: map<string, Session>, turns: seq<Turn>, turn: Turn)
    requires |turns| < |names| == |fates| == |others| && Distinct(names)
    requires FaredSo(names, fates, others, first, turns)
    requires KeptSo(names, |turns|, others, |turns| + 1, first, before)
    requires |before| <= |first| + |turns| + AllStarts(others[..|turns| + 1])
    requires turn.Tried? ==> var name, fate := names[|turns|], fates[|turns|];
      if name in before then turn == Tried(None)
      else if |before| >= 100 then turn == Tried(Some(TooMany))
      else turn == Tried(None) <==> fate.opens && fate.recorded && fate.connects
    ensures FaredSo(names, fates, others, first, turns + [turn])
  {
    var i := |turns|;
    if !Disturbed(others, 0, i + 1, names[i]) {
      assert Keeps(first, before, names[i]);
    }
  }

  class Manager {
    var sessions: map<string, Session>
    var disk: Disk
    var stopping: bool

    ghost predicate Valid()
      reads this, sessions.Values
    {
      && (forall n :: n in sessions ==> sessions[n].name == n && sessions[n].releases == 0)
      && |sessions| <= MAX_LIVE
    }

    constructor (disk: Disk)
      ensures Valid() && sessions == map[] && this.disk == disk && !stopping
    {
      sessions, this.disk, stopping := map[], disk, false;
    }

    static method Release(h: Session)
      requires h.releases == 0
      modifies h
      ensures h.releases == 1 && h.settings == old(h.settings)
    {
      h.releases := h.releases + 1;
    }

    /** Deletes the devices of a session one by one, up to the first that cannot be deleted. */
    method DeleteDevices(name: string, kept: set<Credential>) returns (ok: bool)
      modifies this`disk
      ensures disk.records == old(disk).records
      ensures forall n :: n != name ==> Devices(disk, n) == Devices(old(disk), n)
      ensures ok <==> Devices(old(disk), name) * kept == {}
      ensures ok ==> Devices(disk, name) == {}
    {
      var todo := Devices(disk, name);
      while todo != {}
        invariant disk.records == old(disk).records
        invariant forall n :: n != name ==> Devices(disk, n) == Devices(old(disk), n)
        invariant Devices(disk, name) == todo
        invariant todo <= Devices(old(disk), name) && (Devices(old(disk), name) - todo) * kept == {}
        decreases |todo|
      {
        var c :| c in todo;
        if c in kept {
          assert c in Devices(old(disk), name) * kept;
          return false;
        }
        todo := todo - {c};
        disk := disk.(devices := disk.devices[name := Devices(disk, name) - {c}]);
      }
      ok := true;
    }

    /** Opens a session's store; devices of a revoked session are deleted first, or it does not open. */
    method OpenHandle(name: string, fate: Fate) returns (h: Option<Session>)
      modifies this`disk
      ensures disk.records == old(disk).records
      ensures forall n :: n != name ==> Devices(disk, n) == Devices(old(disk), n)
      ensures !ReadRecord(disk, name).revoked ==> Devices(disk, name) == Devices(old(disk), name)
      ensures h.Some? <==> fate.opens && (ReadRecord(disk, name).revoked ==> Devices(old(disk), name) * fate.kept == {})
      ensures h.Some? ==>
        && fresh(h.value) && h.value.name == name && h.value.releases == 0
        && h.value.settings == ReadRecord(disk, name).settings
        && (ReadRecord(disk, name).revoked ==> Devices(disk, name) == {})
    {
      h := None;
      var record := ReadRecord(disk, name);
      disk := disk.(devices := disk.devices[name := Devices(disk, name)]);
      if record.revoked {
        var ok := DeleteDevices(name, fate.kept);
        if !ok {
          return;
        }
      }
      if !fate.opens {
        return;
      }
      var session := new Session(name, record.settings);
      h := Some(session);
    }

    method Publish(h: Session)
      requires Valid() && h.releases == 0 && h.name !in sessions && |sessions| < MAX_LIVE
      modifies this`sessions
      ensures Valid() && sessions == old(sessions)[h.name := h]
    {
      assert sessions[h.name := h].Keys == sessions.Keys + {h.name};
      sessions := sessions[h.name := h];
    }

    /** A handle that never made it into the map. */
    method Discard(h: Session)
      requires Valid() && h.releases == 0 && h.name !in sessions
      modifies h
      ensures Valid() && h.releases == 1 && h.settings == old(h.settings)
    {
      Release(h);
    }

    /** The second half of a start: recorded, published, connected; on failure released and taken off again. */
    method Launch(h: Session, fate: Fate) returns (error: Option<StartError>)
      requires Valid() && h.releases == 0 && h.name !in sessions && |sessions| < MAX_LIVE
      modifies this`sessions, this`disk, h
      ensures Valid() && disk.devices == old(disk).devices
      ensures error ==
        (if !fate.recorded then Some(NotRecorded) else if !fate.connects then Some(NotConnected) else None)
      ensures sessions == (if error == None then old(sessions)[h.name := h] else old(sessions))
      ensures h.releases == (if error == None then 0 else 1) && h.settings == old(h.settings)
      ensures disk.records ==
        if fate.recorded then old(disk).records[h.name := Restored(ReadRecord(old(disk), h.name))]
        else old(disk).records
    {
      if !fate.recorded {
        Discard(h);
        return Some(NotRecorded);
      }
      disk := Write(disk, h.name, Restored(ReadRecord(disk, h.name)));
      Publish(h);
      if !fate.connects {
        End(h.name);
        return Some(NotConnected);
      }
      error := None;
    }

    /**
     The lock-holding part of Start.  A failed start leaves the map as it was and its handle released;
     a start that connects leaves one more session, recorded as one to restore.
     */
    method StartLocked(name: string, fate: Fate)
      returns (r: Result<Session, StartError>, ghost attempt: Option<Session>)
      requires Valid()
      modifies this`sessions, this`disk
      ensures Valid()
      ensures stopping ==> r == Err(Stopping)
      ensures !stopping && name in old(sessions) ==> r == Ok(old(sessions)[name])
      ensures !stopping && name !in old(sessions) && |old(sessions)| >= 100 ==> r == Err(TooMany)
      ensures stopping || name in old(sessions) || |old(sessions)| >= 100 ==>
        sessions == old(sessions) && disk == old(disk) && attempt == None
      ensures !stopping && name !in old(sessions) && |old(sessions)| < 100 ==>
        var was := ReadRecord(old(disk), name);
        var opens := fate.opens && (was.revoked ==> Devices(old(disk), name) * fate.kept == {});
        && (r.Ok? <==> opens && fate.recorded && fate.connects)
        && (!opens ==> r == Err(NotOpened))
        && (opens && !fate.recorded ==> r == Err(NotRecorded))
        && (opens && fate.recorded && !fate.connects ==> r == Err(NotConnected))
        && disk.records ==
          if opens && fate.recorded then old(disk).records[name := Record(true, false, was.settings)]
          else old(disk).records
      ensures r.Ok? && name !in old(sessions) ==>
        && attempt == Some(r.value) && sessions == old(sessions)[name := r.value] && r.value.releases == 0
        && r.value.name == name && r.value.settings == ReadRecord(old(disk), name).settings
        && Devices(disk, name) == if ReadRecord(old(disk), name).revoked then {} else Devices(old(disk), name)
      ensures r.Err? ==> sessions == old(sessions) && (attempt.Some? ==> attempt.value.releases == 1)
      ensures attempt.Some? ==> fresh(attempt.value)
      ensures OnlyTouches(old(disk), disk, name)
    {
      attempt := None;
      if stopping {
        return Err(Stopping), None;
      }
      if name in sessions {
        return Ok(sessions[name]), None;
      }
      if |sessions| >= MAX_LIVE {
        return Err(TooMany), None;
      }
      var h := OpenHandle(name, fate);
      if h == None {
        return Err(NotOpened), None;
      }
      attempt := h;
      var error := Launch(h.value, fate);
      r := if error == None then Ok(h.value) else Err(error.value);
    }

    /** Releases the session and takes it off the map: the end of Close, Logout and a permanent stop. */
    method End(name: string)
      requires Valid() && name in sessions
      modifies this`sessions, sessions[name]
      ensures Valid() && sessions == old(sessions) - {name}
      ensures old(sessions)[name].releases == 1 && old(sessions)[name].settings == old(sessions[name].settings)
    {
      Release(sessions[name]);
      assert forall n :: n in sessions && n != name ==> sessions[n] != sessions[name];
      assert (sessions - {name}).Keys == sessions.Keys - {name};
      sessions := sessions - {name};
    }

    method Close(name: string, written: bool) returns (error: Option<EndError>)
      requires Valid()
      modifies this, if name in sessions then {sessions[name]} else {}
      ensures Valid() && stopping == old(stopping) && disk.devices == old(disk).devices
      ensures error == (if old(stopping) then Some(ManagerStopping) else if !written then Some(NotWritten) else None)
      ensures error.Some? ==>
        sessions == old(sessions) && disk == old(disk) && (name in sessions ==> sessions[name].releases == 0)
      ensures error == None ==>
        && sessions == old(sessions) - {name} && (name in old(sessions) ==> old(sessions)[name].releases == 1)
        && disk.records == old(disk).records[name := ReadRecord(old(disk), name).(restore := false)]
    {
      if stopping {
        return Some(ManagerStopping);
      }
      if !written {
        return Some(NotWritten);
      }
      disk := Write(disk, name, ReadRecord(disk, name).(restore := false));
      if name in sessions {
        End(name);
      }
      error := None;
    }

    /** Failed revocation keeps the session; failure to write that down does not. */
    method Logout(name: string, loggedIn: bool, revokes: bool, written: bool) returns (error: Option<EndError>)
      requires Valid()
      modifies this, if name in sessions then {sessions[name]} else {}
      ensures Valid() && stopping == old(stopping) && disk.devices == old(disk).devices
      ensures old(stopping) || name !in old(sessions) || !loggedIn || !revokes ==>
        && error.Some? && sessions == old(sessions) && disk == old(disk)
        && (name in sessions ==> sessions[name].releases == 0)
      ensures !old(stopping) && name in old(sessions) && loggedIn && revokes ==>
        && sessions == old(sessions) - {name} && old(sessions)[name].releases == 1
        && error == (if written then None else Some(NotWritten))
        && disk.records ==
          if written then old(disk).records[name := Record(false, true, old(sessions[name].settings))]
          else old(disk).records
    {
      if stopping {
        return Some(ManagerStopping);
      }
      if name !in sessions || !loggedIn || !revokes {
        return Some(Disconnected);
      }
      if written {
        disk := Write(disk, name, Record(false, true, sessions[name].settings));
      }
      End(name);
      error := if written then None else Some(NotWritten);
    }

    /** An asynchronous stop, raised for a session that may have ended since. */
    method Permanent(h: Session, revoked: bool, written: bool)
      requires Valid()
      modifies this, h
      ensures Valid() && stopping == old(stopping) && disk.devices == old(disk).devices
      ensures if h.name in old(sessions) && old(sessions)[h.name] == h then
          && sessions == old(sessions) - {h.name} && h.releases == 1
          && disk.records ==
            if written then old(disk).records[h.name := Record(false, revoked, old(h.settings))] else old(disk).records
        else sessions == old(sessions) && disk == old(disk) && h.releases == old(h.releases)
    {
      if h.name !in sessions || sessions[h.name] != h {
        return;
      }
      if written {
        disk := Write(disk, h.name, Record(false, revoked, h.settings));
      }
      End(h.name);
    }

    /** `valid` is what the checks of the name and of the settings say. */
    method UpdateSettings(name: string, settings: string, valid: bool, written: bool) returns (error: Option<EndError>)
      requires Valid()
      modifies this`disk, if name in sessions then {sessions[name]} else {}
      ensures Valid() && disk.devices == old(disk).devices
      ensures error ==
        (if !valid then Some(InvalidInput) else if stopping then Some(ManagerStopping)
         else if !written then Some(NotWritten) else None)
      ensures error.Some? ==>
        disk == old(disk) && (name in sessions ==> sessions[name].settings == old(sessions[name].settings))
      ensures error == None ==>
        && disk.records == old(disk).records[name := ReadRecord(old(disk), name).(settings := settings)]
        && (name in sessions ==> sessions[name].settings == settings)
    {
      if !valid {
        return Some(InvalidInput);
      }
      if stopping {
        return Some(ManagerStopping);
      }
      if !written {
        return Some(NotWritten);
      }
      disk := Write(disk, name, ReadRecord(disk, name).(settings := settings));
      if name in sessions {
        sessions[name].settings := settings;
      }
      error := None;
    }

    /** Shutdown: records and credentials stay as they are, and every session is released once. */
    method Shutdown()
      requires Valid()
      modifies this, sessions.Values
      ensures Valid() && stopping && sessions == map[] && disk == old(disk)
      ensures forall n :: n in old(sessions) ==> old(sessions)[n].releases == 1
    {
      stopping := true;
      ghost var all := sessions;
      while sessions != map[]
        invariant Valid() && stopping && disk == old(disk)
        invariant forall n :: n in sessions ==> n in all && sessions[n] == all[n]
        invariant forall n :: n in all && n !in sessions ==> all[n].releases == 1
        decreases |sessions|
      {
        var name :| name in sessions;
        ghost var before := sessions;
        assert forall n :: n in all && n !in sessions ==> all[n] != sessions[name];
        End(name);
        assert sessions.Keys == before.Keys - {name};
      }
    }

    /** An operation that ends a session. */
    method PerformEnd(op: Other)
      requires Valid() && (op.OtherClose? || op.OtherLogout? || op.OtherPermanent?)
      modifies this, if op.name in sessions then {sessions[op.name]} else {}
      ensures Valid() && stopping == old(stopping)
      ensures sessions == old(sessions) || sessions == old(sessions) - {op.name}
      ensures OnlyTouches(old(disk), disk, op.name)
    {
      ghost var before := disk;
      match op {
        case OtherClose(name, written) => var _ := Close(name, written);
        case OtherLogout(name, loggedIn, revokes, written) => var _ := Logout(name, loggedIn, revokes, written);
        case OtherPermanent(name, revoked, written) =>
          if name in sessions {
            Permanent(sessions[name], revoked, written);
          }
      }
      WriteTouches(before, disk, op.name);
    }

    method Perform(op: Other)
      requires Valid() && !op.OtherShutdown?
      modifies this, if op.name in sessions then {sessions[op.name]} else {}
      ensures Valid() && stopping == old(stopping) && OnlyTouches(old(disk), disk, op.name)
      ensures
        || sessions == old(sessions) || sessions == old(sessions) - {op.name}
        || (op.name in sessions && fresh(sessions[op.name]) && sessions == old(sessions)[op.name := sessions[op.name]])
      ensures |sessions| <= |old(sessions)| + (if op.OtherStart? then 1 else 0)
    {
      assert (sessions - {op.name}).Keys == sessions.Keys - {op.name};
      assert op.name !in sessions ==> |(sessions - {op.name}).Keys| == |sessions.Keys|;
      if op.OtherStart? {
        var _, _ := StartLocked(op.name, op.fate);
      } else if op.OtherUpdate? {
        ghost var before := disk;
        var _ := UpdateSettings(op.name, op.settings, op.valid, op.written);
        WriteTouches(before, disk, op.name);
      } else {
        PerformEnd(op);
      }
    }

    /** The operations that get the lock between two turns of Restore. */
    method PerformAll(ops: seq<Other>)
      requires Valid()
      modifies this, sessions.Values
      ensures Valid() && (old(stopping) ==> stopping)
      ensures forall n :: n in sessions && !fresh(sessions[n]) ==> n in old(sessions) && sessions[n] == old(sessions)[n]
      ensures DiskApart(ops, old(disk), disk)
      ensures !stopping ==> SessionsApart(ops, old(sessions), sessions)
      ensures |sessions| <= |old(sessions)| + StartsIn(ops)
    {
      for i := 0 to |ops|
        invariant |sessions| <= |old(sessions)| + StartsIn(ops[..i])
        invariant Valid() && (old(stopping) ==> stopping)
        invariant forall n :: n in sessions && !fresh(sessions[n]) ==>
          n in old(sessions) && sessions[n] == old(sessions)[n]
        invariant DiskApart(ops, old(disk), disk)
        invariant !stopping ==> SessionsApart(ops, old(sessions), sessions)
      {
        ghost var d, ss := disk, sessions;
        assert ops[..i + 1][..i] == ops[..i];
        if ops[i].OtherShutdown? {
          Shutdown();
        } else {
          Perform(ops[i]);
          ApartStep(ops, ops[i], old(disk), d, disk, old(sessions), ss, sessions, stopping);
        }
      }
      assert ops[..|ops|] == ops;
    }

    /** The critical section of Restore for one name: exactly a restorable one is started, or was live already. */
    method RestoreOne(name: string, readable: bool, fate: Fate) returns (turn: Turn)
      requires Valid() && !stopping
      modifies this`sessions, this`disk
      ensures Valid() && OnlyTouches(old(disk), disk, name)
      ensures turn.Tried? <==>
        && readable && Devices(old(disk), name) != {}
        && (name in old(disk).records ==> old(disk).records[name].restore && !old(disk).records[name].revoked)
      ensures turn == Skipped ==> sessions == old(sessions) && disk == old(disk)
      ensures turn.Tried? && name in old(sessions) ==> turn == Tried(None) && sessions == old(sessions)
      ensures turn.Tried? && name !in old(sessions) ==>
        if |old(sessions)| >= 100 then turn == Tried(Some(TooMany))
        else turn == Tried(None) <==> fate.opens && fate.recorded && fate.connects
      ensures turn.Tried? && turn != Tried(None) ==> sessions == old(sessions) && name !in sessions
      ensures turn == Tried(None) && name !in old(sessions) ==>
        name in sessions && fresh(sessions[name]) && sessions == old(sessions)[name := sessions[name]]
    {
      turn := Skipped;
      if !readable {
        return;
      }
      if name in disk.records && (!disk.records[name].restore || disk.records[name].revoked) {
        return;
      }
      if Devices(disk, name) != {} {
        var r, _ := StartLocked(name, fate);
        turn := Tried(if r.Ok? then None else Some(r.error));
      }
    }

    /** One round of Restore's loop: the others get the lock first; None when the manager has been told to stop. */
    method TakeTurn(
        names: seq<string>, unreadable: set<string>, fates: seq<Fate>, others: seq<seq<Other>>, turns: seq<Turn>,
        ghost d0: Disk, ghost ss0: map<string, Session>)
      returns (turn: Option<Turn>)
      requires Valid() && Distinct(names) && |turns| < |names| == |fates| == |others|
      requires FaredSo(names, fates, others, ss0, turns)
      requires |sessions| <= |ss0| + |turns| + AllStarts(others[..|turns|])
      requires DiskSo(names, |turns|, others, |turns|, d0, disk) && TriedSo(names, unreadable, others, d0, turns)
      requires !stopping ==> LiveSo(names, others, |turns|, sessions, turns)
      requires !stopping ==> KeptSo(names, |turns|, others, |turns|, ss0, sessions)
      modifies this, sessions.Values
      ensures Valid()
      ensures forall n :: n in sessions && !fresh(sessions[n]) ==> n in old(sessions) && sessions[n] == old(sessions)[n]
      ensures turn == None <==> stopping
      ensures turn.Some? ==> var i, more := |turns| + 1, turns + [turn.value];
        && DiskSo(names, i, others, i, d0, disk) && TriedSo(names, unreadable, others, d0, more)
        && LiveSo(names, others, i, sessions, more) && KeptSo(names, i, others, i, ss0, sessions)
        && FaredSo(names, fates, others, ss0, more) && |sessions| <= |ss0| + i + AllStarts(others[..i])
    {
      ghost var i, d, ss := |turns|, disk, sessions;
      PerformAll(others[|turns|]);
      if stopping {
        return None;
      }
      DiskAfterOthers(names, i, others, d0, d, disk);
      LiveAfterOthers(names, others, i, ss, sessions, turns);
      KeptAfterOthers(names, i, others, ss0, ss, sessions);
      d, ss := disk, sessions;
      assert others[..i + 1][..i] == others[..i];
      var tried := RestoreOne(names[|turns|], names[|turns|] !in unreadable, fates[|turns|]);
      FaredNext(names, fates, others, ss0, ss, turns, tried);
      AfterTurn(names, unreadable, others, d0, d, disk, turns, tried);
      SessionsAfterTurn(names, others, ss0, ss, sessions, turns, tried);
      turn := Some(tried);
    }

    /**
     Restoration at startup, one turn per name, until the manager is told to stop or, before the name
     at `cut`, the context ends; others[i] are the operations that run before turn i.  A name no other
     operation concerned is tried exactly if it was restorable at the start, and then started exactly
     if it was live, or if its store opens, its record is written and it connects, unless a hundred
     sessions are live; what was started stays live unless a later operation concerns it; the count is
     that of the successful turns.
     */
    method Restore(names: seq<string>, unreadable: set<string>, fates: seq<Fate>, cut: nat, others: seq<seq<Other>>)
      returns (turns: seq<Turn>, count: nat)
      requires Valid() && Distinct(names) && |fates| == |others| == |names|
      modifies this, sessions.Values
      ensures Valid()
      ensures |turns| <= Min(cut, |names|) && (|turns| < Min(cut, |names|) ==> stopping)
      ensures count == |Started(turns)|
      ensures FaredSo(names, fates, others, old(sessions), turns)
      ensures TriedSo(names, unreadable, others, old(disk), turns)
      ensures !stopping ==> LiveSo(names, others, |turns|, sessions, turns)
      ensures !stopping ==> KeptSo(names, |turns|, others, |turns|, old(sessions), sessions)
    {
      turns, count := [], 0;
      for i := 0 to |names|
        invariant Valid() && i == |turns| <= cut
        invariant forall n :: n in sessions && !fresh(sessions[n]) ==>
          n in old(sessions) && sessions[n] == old(sessions)[n]
        invariant count == |Started(turns)|
        invariant FaredSo(names, fates, others, old(sessions), turns)
        invariant |sessions| <= |old(sessions)| + i + AllStarts(others[..i])
        invariant DiskSo(names, i, others, i, old(disk), disk)
        invariant TriedSo(names, unreadable, others, old(disk), turns)
        invariant !stopping ==> LiveSo(names, others, i, sessions, turns)
        invariant !stopping ==> KeptSo(names, i, others, i, old(sessions), sessions)
      {
        if i == cut {
          return;
        }
        var turn := TakeTurn(names, unreadable, fates, others, turns, old(disk), old(sessions));
        if turn == None {
          return;
        }
        StartedSnoc(turns, turn.value);
        turns := turns + [turn.value];
        count := if turn == Some(Tried(None)) then count + 1 else count;
      }
    }
  }
}
