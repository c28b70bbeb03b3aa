/**
 The chat index (internal/directory/index.go): one entry per chat, patched by events that may arrive
 late, twice or out of order.
 */
module ChatIndex {
  import opened Prelude

  const MAX_CHATS := 10_000
  const WINDOW := 64
  const MAX_UNREAD := 1_000_000

  datatype Chat = Chat(
    name: string, t: int, unread: nat, unreadKnown: bool,
    archived: bool, pinned: bool, muted: bool, muteUntil: int,
    muteAt: int, archiveAt: int, pinAt: int, readAt: int, deletedAt: int,
    seen: seq<string>)

  /** An entry that is not there yet: named after the user part of its address. */
  function NewChat(user: string): Chat {
    Chat(user, 0, 0, false, false, false, false, 0, 0, 0, 0, 0, 0, [])
  }

  /** One conversation of a history sync; absent fields are None. */
  datatype Conversation = Conversation(
    lastMessage: int, conversation: int, name: string, displayName: string,
    unread: Option<nat>, archived: Option<bool>, pinned: Option<bool>, messages: seq<string>)

  datatype Event =
    | Message(id: string, fromMe: bool, at: int)
    | Mute(on: bool, until: int, at: int)
    | Archive(on: bool, at: int)
    | Pin(on: bool, at: int)
    | MarkRead(on: bool, at: int)
    | DeleteChat(at: int)
    | GroupName(name: string)
    | JoinedGroup(name: string, created: Option<int>)
    | Sync(conv: Conversation)

  /// Effects on one chat

  function Last(ids: seq<string>, n: nat): seq<string> {
    if |ids| > n then ids[|ids| - n..] else ids
  }

  function Received(c: Chat, id: string, fromMe: bool, at: int): Chat {
    var t := Max(0, at);
    if id in c.seen then c
    else
      var d := c.(seen := Last(c.seen + [id], WINDOW));
      if c.deletedAt > 0 && t < c.deletedAt then d
      else
        d.(deletedAt := if c.deletedAt > 0 then 0 else c.deletedAt,
           unread := if !fromMe && t > c.readAt && c.unread < MAX_UNREAD then c.unread + 1 else c.unread,
           t := Max(c.t, t))
  }

  /** The ids among `ids` that are short enough and new, each once, in order, after those already seen. */
  function Noted(seen: seq<string>, ids: seq<string>): seq<string> {
    if ids == [] then seen
    else
      var front, id := Noted(seen, ids[..|ids| - 1]), ids[|ids| - 1];
      if id != "" && |id| <= 256 && id !in front then front + [id] else front
  }

  function SyncTime(v: Conversation): int {
    Max(0, if v.lastMessage == 0 then v.conversation else v.lastMessage)
  }

  function SyncName(v: Conversation): string {
    if v.name == "" then v.displayName else v.name
  }

  function SyncNamed(c: Chat, v: Conversation, user: string): Chat {
    if SyncName(v) != "" && (c.name == user || SyncTime(v) >= c.t) then c.(name := SyncName(v)) else c
  }

  function SyncCounted(c: Chat, v: Conversation): Chat {
    var counted := v.unread.Some? && SyncTime(v) >= c.readAt;
    if SyncTime(v) < c.t then c
    else
      c.(t := SyncTime(v),
         unread := if counted then v.unread.value else c.unread,
         unreadKnown := counted || c.unreadKnown,
         seen := Last(Noted(c.seen, v.messages[..Min(|v.messages|, WINDOW)]), WINDOW))
  }

  function SyncArchived(c: Chat, v: Conversation): Chat {
    if SyncTime(v) >= c.archiveAt && v.archived.Some?
    then c.(archived := v.archived.value, archiveAt := SyncTime(v)) else c
  }

  function SyncPinned(c: Chat, v: Conversation): Chat {
    if SyncTime(v) >= c.pinAt && v.pinned.Some? then c.(pinned := v.pinned.value, pinAt := SyncTime(v)) else c
  }

  function Synced(c: Chat, v: Conversation, user: string): Chat {
    if c.deletedAt > 0 && SyncTime(v) <= c.deletedAt then c
    else
      var c1 := c.(deletedAt := if c.deletedAt > 0 then 0 else c.deletedAt);
      SyncPinned(SyncArchived(SyncCounted(SyncNamed(c1, v, user), v), v), v)
  }

  predicate Deletes(c: Chat, at: int) {
    at > c.deletedAt && at >= c.t
  }

  function Changed(c: Chat, e: Event, user: string): Chat {
    match e
    case Message(id, fromMe, at) => Received(c, id, fromMe, at)
    case Mute(on, until, at) => if at >= c.muteAt then c.(muted := on, muteUntil := until, muteAt := at) else c
    case Archive(on, at) => if at >= c.archiveAt then c.(archived := on, archiveAt := at) else c
    case Pin(on, at) => if at >= c.pinAt then c.(pinned := on, pinAt := at) else c
    case MarkRead(on, at) =>
      if at < c.readAt then c
      else if on then c.(readAt := at, unread := 0, unreadKnown := true)
      else if c.unread == 0 then c.(readAt := at, unread := 1, unreadKnown := false)
      else c.(readAt := at)
    case DeleteChat(at) =>
      if Deletes(c, at)
      then c.(deletedAt := at, unread := 0, unreadKnown := true, readAt := at,
              archived := false, pinned := false, archiveAt := at, pinAt := at)
      else c
    case GroupName(name) => c.(name := name)
    case JoinedGroup(name, created) =>
      c.(name := name, t := if c.t == 0 && created.Some? then created.value else c.t)
    case Sync(v) => Synced(c, v, user)
  }

  /** patch: the change, with the name cut to 256 characters. */
  function Patched(c: Chat, e: Event, user: string): Chat {
    var d := Changed(c, e, user);
    if |d.name| > 256 then d.(name := d.name[..256]) else d
  }

  function PatchAll(c: Chat, es: seq<Event>, user: string): Chat {
    if es == [] then c else Patched(PatchAll(c, es[..|es| - 1], user), es[|es| - 1], user)
  }

  lemma PatchAllSnoc(c: Chat, es: seq<Event>, e: Event, user: string)
    ensures PatchAll(c, es + [e], user) == Patched(PatchAll(c, es, user), e, user)
  {
    assert (es + [e])[..|es + [e]| - 1] == es;
  }

  /// De-duplication

  /** What an event does to the de-duplication window. */
  function NextSeen(c: Chat, e: Event): seq<string> {
    match e
    case Message(id, _, _) => if id in c.seen then c.seen else Last(c.seen + [id], WINDOW)
    case Sync(v) =>
      if (c.deletedAt > 0 && SyncTime(v) <= c.deletedAt) || SyncTime(v) < c.t then c.seen
      else Last(Noted(c.seen, v.messages[..Min(|v.messages|, WINDOW)]), WINDOW)
    case _ => c.seen
  }

  lemma SeenStep(c: Chat, e: Event, user: string)
    ensures Patched(c, e, user).seen == NextSeen(c, e)
  {
    match e
    case Sync(v) => SyncSeen(c, v, user);
    case _ =>
  }

  lemma SyncSeen(c: Chat, v: Conversation, user: string)
    ensures Synced(c, v, user).seen == NextSeen(c, Sync(v))
  {
  }

  /** The window never holds more than 64 ids. */
  lemma {:induction false} WindowStaysBounded(c: Chat, es: seq<Event>, user: string)
    requires |c.seen| <= 64
    ensures |PatchAll(c, es, user).seen| <= 64
  {
    if es == [] {
    } else {
      var b := PatchAll(c, es[..|es| - 1], user);
      WindowStaysBounded(c, es[..|es| - 1], user);
      SeenStep(b, es[|es| - 1], user);
    }
  }

  /** How many ids an event may add to the window. */
  function LoadOf(e: Event): nat {
    match e
    case Message(_, _, _) => 1
    case Sync(v) => Min(|v.messages|, WINDOW)
    case _ => 0
  }

  function Load(es: seq<Event>): nat {
    if es == [] then 0 else Load(es[..|es| - 1]) + LoadOf(es[|es| - 1])
  }

  /** Among the `n` newest ids of the window. */
  predicate Recent(seen: seq<string>, id: string, n: nat) {
    id in Last(seen, n)
  }

  lemma SinksByOne(seen: seq<string>, id: string, n: nat, other: string)
    requires Recent(seen, id, n)
    ensures Recent(seen + [other], id, n + 1)
  {
    var more := seen + [other];
    var i :| 0 <= i < |Last(seen, n)| && Last(seen, n)[i] == id;
    var j := if |seen| > n then |seen| - n + i else i;
    assert more[j] == id;
    assert Last(more, n + 1)[j - (|more| - |Last(more, n + 1)|)] == id;
  }

  lemma RecentWithin(seen: seq<string>, id: string, n: nat, more: nat)
    requires Recent(seen, id, n) && n <= more
    ensures Recent(seen, id, more)
  {
    var i :| 0 <= i < |Last(seen, n)| && Last(seen, n)[i] == id;
    var j := if |seen| > n then |seen| - n + i else i;
    assert seen[j] == id;
    assert Last(seen, more)[j - (|seen| - |Last(seen, more)|)] == id;
  }

  lemma RecentInWindow(seen: seq<string>, id: string, n: nat)
    requires Recent(seen, id, n) && n <= WINDOW
    ensures Recent(Last(seen, WINDOW), id, n)
  {
    assert Last(Last(seen, WINDOW), n) == Last(seen, n);
  }

  /** Each id noted sinks the others by at most one. */
  lemma {:induction false} NotedSinks(seen: seq<string>, ids: seq<string>, id: string, n: nat)
    requires Recent(seen, id, n)
    ensures Recent(Noted(seen, ids), id, n + |ids|)
  {
    if ids == [] {
    } else {
      var front, last := ids[..|ids| - 1], ids[|ids| - 1];
      NotedSinks(seen, front, id, n);
      if Noted(seen, ids) == Noted(seen, front) {
        RecentWithin(Noted(seen, front), id, n + |front|, n + |ids|);
      } else {
        SinksByOne(Noted(seen, front), id, n + |front|, last);
      }
    }
  }

  lemma RecentStep(c: Chat, e: Event, user: string, id: string, n: nat)
    requires Recent(c.seen, id, n) && n + LoadOf(e) <= WINDOW
    ensures Recent(Patched(c, e, user).seen, id, n + LoadOf(e))
  {
    SeenStep(c, e, user);
    if Patched(c, e, user).seen == c.seen {
      RecentWithin(c.seen, id, n, n + LoadOf(e));
    } else if e.Message? {
      SinksByOne(c.seen, id, n, e.id);
      RecentInWindow(c.seen + [e.id], id, n + 1);
    } else {
      var ids := e.conv.messages[..Min(|e.conv.messages|, WINDOW)];
      NotedSinks(c.seen, ids, id, n);
      RecentInWindow(Noted(c.seen, ids), id, n + |ids|);
    }
  }

  lemma {:induction false} StillRecent(c: Chat, es: seq<Event>, user: string, id: string, n: nat)
    requires n + Load(es) <= WINDOW && Recent(c.seen, id, n)
    ensures Recent(PatchAll(c, es, user).seen, id, n + Load(es))
  {
    if es == [] {
    } else {
      var front, e := es[..|es| - 1], es[|es| - 1];
      StillRecent(c, front, user, id, n);
      RecentStep(PatchAll(c, front, user), e, user, id, n + Load(front));
    }
  }

  lemma SinksToFirst(seen: seq<string>, id: string)
    ensures Recent(Last(seen + [id], WINDOW), id, 1)
  {
    assert Last(seen + [id], 1) == [id];
    RecentInWindow(seen + [id], id, 1);
  }

  lemma StillKnown(c: Chat, m: Event, es: seq<Event>, user: string)
    requires m.Message? && m.id !in c.seen && Load(es) < WINDOW
    ensures m.id in PatchAll(Patched(c, m, user), es, user).seen
  {
    SeenStep(c, m, user);
    SinksToFirst(c.seen, m.id);
    StillRecent(Patched(c, m, user), es, user, m.id, 1);
    assert Recent(PatchAll(Patched(c, m, user), es, user).seen, m.id, 1 + Load(es));
  }

  lemma NameStaysShort(c: Chat, es: seq<Event>, user: string)
    requires |c.name| <= 256
    ensures |PatchAll(c, es, user).name| <= 256
  {
  }

  lemma KnownIdIsIgnored(c: Chat, e: Event, user: string)
    requires e.Message? && e.id in c.seen && |c.name| <= 256
    ensures Patched(c, e, user) == c
  {
  }

  /**
   An accepted message that is delivered again has no effect, whatever happened in between, as long
   as that added fewer than 64 ids: one a message, and at most 64 a history sync.
   */
  lemma RedeliveryIsIgnored(c: Chat, m: Event, es: seq<Event>, again: Event, user: string)
    requires m.Message? && m.id !in c.seen && again.Message? && again.id == m.id && Load(es) < 64
    ensures var d := PatchAll(Patched(c, m, user), es, user); Patched(d, again, user) == d
  {
    StillKnown(c, m, es, user);
    NameStaysShort(Patched(c, m, user), es, user);
    KnownIdIsIgnored(PatchAll(Patched(c, m, user), es, user), again, user);
  }

  /// Fields with their own clocks

  datatype Field = Archived | Pinned | Muted

  /** A value with the time of the event that set it. */
  datatype Register = Register(on: bool, until: int, at: int)

  function Read(c: Chat, f: Field): Register {
    match f
    case Archived => Register(c.archived, 0, c.archiveAt)
    case Pinned => Register(c.pinned, 0, c.pinAt)
    case Muted => Register(c.muted, c.muteUntil, c.muteAt)
  }

  function Writes(e: Event, f: Field): Option<Register> {
    match (e, f)
    case (Archive(on, at), Archived) => Some(Register(on, 0, at))
    case (Pin(on, at), Pinned) => Some(Register(on, 0, at))
    case (Mute(on, until, at), Muted) => Some(Register(on, until, at))
    case (Sync(v), Archived) => if v.archived.Some? then Some(Register(v.archived.value, 0, SyncTime(v))) else None
    case (Sync(v), Pinned) => if v.pinned.Some? then Some(Register(v.pinned.value, 0, SyncTime(v))) else None
    case _ => None
  }

  /** No deletion, which overwrites these fields whatever their times, nor a history sync a deleted chat may refuse. */
  predicate Plain(c: Chat, es: seq<Event>) {
    forall e | e in es :: !e.DeleteChat? && (e.Sync? ==> c.deletedAt == 0)
  }

  function Written(r: Register, w: Option<Register>): Register {
    match w
    case None => r
    case Some(x) => if x.at >= r.at then x else r
  }

  lemma MessageLeavesFields(c: Chat, id: string, fromMe: bool, at: int, f: Field)
    ensures Read(Received(c, id, fromMe, at), f) == Read(c, f)
    ensures c.deletedAt == 0 ==> Received(c, id, fromMe, at).deletedAt == 0
  {
  }

  lemma NameLeavesFields(c: Chat, name: string, f: Field)
    ensures Read(c.(name := name), f) == Read(c, f)
  {
  }

  lemma FlagsWritten(c: Chat, v: Conversation, f: Field)
    ensures Read(SyncPinned(SyncArchived(c, v), v), f) == Written(Read(c, f), Writes(Sync(v), f))
    ensures SyncPinned(SyncArchived(c, v), v).deletedAt == c.deletedAt
  {
  }

  lemma CountsLeaveFields(c: Chat, v: Conversation, user: string, f: Field)
    ensures Read(SyncCounted(SyncNamed(c, v, user), v), f) == Read(c, f)
    ensures SyncCounted(SyncNamed(c, v, user), v).deletedAt == c.deletedAt
  {
  }

  lemma ChangedField(c: Chat, e: Event, user: string, f: Field)
    requires Plain(c, [e])
    ensures Read(Changed(c, e, user), f) == Written(Read(c, f), Writes(e, f))
    ensures c.deletedAt == 0 ==> Changed(c, e, user).deletedAt == 0
  {
    assert e in [e];
    match e
    case Message(id, fromMe, at) => MessageLeavesFields(c, id, fromMe, at, f);
    case Sync(v) =>
      CountsLeaveFields(c, v, user, f);
      FlagsWritten(SyncCounted(SyncNamed(c, v, user), v), v, f);
    case Archive(_, _) =>
    case Pin(_, _) =>
    case Mute(_, _, _) =>
    case MarkRead(_, _) =>
    case GroupName(_) =>
    case JoinedGroup(_, _) =>
  }

  lemma FieldStep(c: Chat, e: Event, user: string, f: Field)
    requires Plain(c, [e])
    ensures Read(Patched(c, e, user), f) == Written(Read(c, f), Writes(e, f))
    ensures c.deletedAt == 0 ==> Patched(c, e, user).deletedAt == 0
  {
    ChangedField(c, e, user, f);
    var d := Changed(c, e, user);
    if |d.name| > 256 {
      NameLeavesFields(d, d.name[..256], f);
    }
  }

  ghost function WritesOf(es: seq<Event>, f: Field): set<Register> {
    set e | e in es && Writes(e, f).Some? :: Writes(e, f).value
  }

  /** Different writes carry different times. */
  ghost predicate DistinctTimes(ws: set<Register>) {
    forall v, w :: v in ws && w in ws && v.at == w.at ==> v == w
  }

  /** The value a field should end with: the write with the greatest time, unless what was there is newer. */
  ghost predicate Settles(start: Register, ws: set<Register>, r: Register) {
    && (r == start || r in ws)
    && r.at >= start.at
    && (forall w :: w in ws ==> w.at <= r.at)
    && (forall w :: w in ws && w.at >= start.at ==> r in ws)
  }

  lemma WritesOfSnoc(es: seq<Event>, f: Field)
    requires es != []
    ensures var front, e := es[..|es| - 1], es[|es| - 1];
      WritesOf(es, f) == WritesOf(front, f) + (if Writes(e, f).Some? then {Writes(e, f).value} else {})
  {
    assert es == es[..|es| - 1] + [es[|es| - 1]];
  }

  /** Whatever the order of the events, history syncs included, each field ends with its latest write. */
  lemma {:induction false} LatestWriteWins(c: Chat, es: seq<Event>, user: string, f: Field)
    requires Plain(c, es)
    ensures Settles(Read(c, f), WritesOf(es, f), Read(PatchAll(c, es, user), f))
    ensures c.deletedAt == 0 ==> PatchAll(c, es, user).deletedAt == 0
  {
    if es == [] {
    } else {
      var front, e := es[..|es| - 1], es[|es| - 1];
      LatestWriteWins(c, front, user, f);
      FieldStep(PatchAll(c, front, user), e, user, f);
      WritesOfSnoc(es, f);
    }
  }

  /** Two histories with the same writes to a field, at distinct times, leave it alike, whatever their order. */
  lemma OrderDoesNotMatter(c: Chat, es: seq<Event>, gs: seq<Event>, user: string, f: Field)
    requires Plain(c, es) && Plain(c, gs) && WritesOf(es, f) == WritesOf(gs, f) && DistinctTimes(WritesOf(es, f))
    ensures Read(PatchAll(c, es, user), f) == Read(PatchAll(c, gs, user), f)
  {
    LatestWriteWins(c, es, user, f);
    LatestWriteWins(c, gs, user, f);
  }

  ghost predicate TimesKept(c: Chat, d: Chat) {
    d.archiveAt >= c.archiveAt && d.pinAt >= c.pinAt && d.readAt >= c.readAt && d.muteAt >= c.muteAt
  }

  lemma SyncFlagTimes(c: Chat, v: Conversation)
    ensures TimesKept(c, SyncPinned(SyncArchived(c, v), v))
  {
  }

  lemma SyncTimes(c: Chat, v: Conversation, user: string)
    ensures TimesKept(c, Synced(c, v, user))
  {
    var c1 := c.(deletedAt := if c.deletedAt > 0 then 0 else c.deletedAt);
    SyncFlagTimes(SyncCounted(SyncNamed(c1, v, user), v), v);
  }

  lemma ChangedTimes(c: Chat, e: Event, user: string)
    requires !e.DeleteChat?
    ensures TimesKept(c, Changed(c, e, user))
  {
    match e
    case Sync(v) => SyncTimes(c, v, user);
    case _ =>
  }

  /** Field times never run backwards, except that a deletion overwrites them with its own time. */
  lemma FieldTimesRunBackIff(c: Chat, e: Event, user: string)
    ensures var d := Changed(c, e, user);
      && (d.archiveAt < c.archiveAt <==> e.DeleteChat? && Deletes(c, e.at) && e.at < c.archiveAt)
      && (d.pinAt < c.pinAt <==> e.DeleteChat? && Deletes(c, e.at) && e.at < c.pinAt)
      && (d.readAt < c.readAt <==> e.DeleteChat? && Deletes(c, e.at) && e.at < c.readAt)
      && d.muteAt >= c.muteAt
  {
    if !e.DeleteChat? {
      ChangedTimes(c, e, user);
    }
  }

  /// Tombstones

  predicate Listed(c: Chat) {
    c.deletedAt == 0
  }

  /** A deletion time, once there is one, is positive. */
  ghost predicate Sane(c: Chat) {
    c.deletedAt >= 0
  }

  lemma SyncListed(c: Chat, v: Conversation, user: string)
    ensures Synced(c, v, user).deletedAt == if c.deletedAt > 0 && SyncTime(v) > c.deletedAt then 0 else c.deletedAt
  {
    if !(c.deletedAt > 0 && SyncTime(v) <= c.deletedAt) {
      var c1 := c.(deletedAt := if c.deletedAt > 0 then 0 else c.deletedAt);
      assert SyncCounted(SyncNamed(c1, v, user), v).deletedAt == c1.deletedAt;
    }
  }

  lemma SaneStep(c: Chat, e: Event, user: string)
    requires Sane(c)
    ensures Sane(Patched(c, e, user))
  {
    if e.Sync? {
      SyncListed(c, e.conv, user);
    }
  }

  lemma {:induction false} SanityStays(c: Chat, es: seq<Event>, user: string)
    requires Sane(c)
    ensures Sane(PatchAll(c, es, user))
  {
    if es == [] {
    } else {
      SanityStays(c, es[..|es| - 1], user);
      SaneStep(PatchAll(c, es[..|es| - 1], user), es[|es| - 1], user);
    }
  }

  /** A deleted chat comes back only through activity later than the deletion (or, for a message, at its time). */
  lemma RevivedIff(c: Chat, e: Event, user: string)
    requires Sane(c) && !Listed(c)
    ensures Listed(Patched(c, e, user)) <==>
      || (e.Message? && e.id !in c.seen && Max(0, e.at) >= c.deletedAt)
      || (e.Sync? && SyncTime(e.conv) > c.deletedAt)
  {
    match e
    case Sync(v) => SyncListed(c, v, user);
    case _ =>
  }

  /** A deletion hides a listed chat exactly when nothing in it is newer. */
  lemma HiddenIff(c: Chat, e: Event, user: string)
    requires Listed(c)
    ensures !Listed(Patched(c, e, user)) <==> e.DeleteChat? && e.at > 0 && e.at >= c.t
  {
    match e
    case Sync(v) => SyncListed(c, v, user);
    case _ =>
  }

  lemma MessageMoves(c: Chat, m: Event, user: string)
    requires Listed(c) && m.Message? && m.id !in c.seen
    ensures Listed(Patched(c, m, user)) && Patched(c, m, user).t == Max(c.t, Max(0, m.at))
  {
  }

  lemma HiddenAt(c: Chat, d: Event, user: string)
    requires Listed(c) && d.DeleteChat? && !Listed(Patched(c, d, user))
    ensures Patched(c, d, user).deletedAt == d.at > 0 && Patched(c, d, user).seen == c.seen
  {
  }

  /**
   A deletion and a new message of a listed chat agree on whether it is listed, whichever comes first,
   exactly when they do not carry the same time (or the deletion is older than the chat's activity).
   */
  lemma DeletionAndMessageAgreeIff(c: Chat, m: Event, d: Event, user: string)
    requires Listed(c) && m.Message? && m.id !in c.seen && d.DeleteChat?
    ensures Listed(PatchAll(c, [m, d], user)) == Listed(PatchAll(c, [d, m], user)) <==>
      Max(0, m.at) != d.at || d.at < c.t || d.at <= 0
  {
    assert [m, d] == ([] + [m]) + [d] && [d, m] == ([] + [d]) + [m];
    PatchAllSnoc(c, [], m, user);
    PatchAllSnoc(c, [] + [m], d, user);
    PatchAllSnoc(c, [], d, user);
    PatchAllSnoc(c, [] + [d], m, user);
    HiddenIff(Patched(c, m, user), d, user);
    HiddenIff(c, d, user);
    MessageMoves(c, m, user);
    if Listed(Patched(c, d, user)) {
      HiddenIff(Patched(c, d, user), m, user);
    } else {
      HiddenAt(c, d, user);
      RevivedIff(Patched(c, d, user), m, user);
    }
  }

  /** Such a pair: a message and a deletion of time 5 leave a new chat hidden or listed, as they arrive. */
  lemma SameTimeDisagrees()
    ensures var c, m, d := NewChat("u"), Message("x", false, 5), DeleteChat(5);
      !Listed(PatchAll(c, [m, d], "u")) && Listed(PatchAll(c, [d, m], "u"))
  {
    var c, m, d := NewChat("u"), Message("x", false, 5), DeleteChat(5);
    assert [m, d] == ([] + [m]) + [d] && [d, m] == ([] + [d]) + [m];
    PatchAllSnoc(c, [], m, "u");
    PatchAllSnoc(c, [] + [m], d, "u");
    PatchAllSnoc(c, [], d, "u");
    PatchAllSnoc(c, [] + [d], m, "u");
  }

  /** Such a deletion: after one of time 5, an archiving of time 7 is accepted that one of time 10 had outdated. */
  lemma OldArchivingComesBack()
    ensures var c := PatchAll(NewChat("u"), [Archive(false, 10)], "u"); var old' := Archive(true, 7);
      && !Patched(c, old', "u").archived
      && Patched(Patched(c, DeleteChat(5), "u"), old', "u").archived
  {
    assert [Archive(false, 10)] == [] + [Archive(false, 10)];
    PatchAllSnoc(NewChat("u"), [], Archive(false, 10), "u");
  }

  /// Unread marks

  /** Neither reads nor deletions nor history syncs, which set the number of unread messages outright. */
  predicate Receiving(es: seq<Event>) {
    es == [] ||
    (var e := es[|es| - 1]; !e.MarkRead? && !e.DeleteChat? && !e.Sync? && Receiving(es[..|es| - 1]))
  }

  lemma {:induction false} ReceivingParts(es: seq<Event>, j: nat)
    requires j < |es| && Receiving(es)
    ensures Receiving(es[..j]) && !es[j].Sync?
  {
    if j == |es| - 1 {
    } else {
      ReceivingParts(es[..|es| - 1], j);
      assert es[..|es| - 1][..j] == es[..j];
    }
  }

  function MessageIds(es: seq<Event>): set<string> {
    if es == [] then {}
    else MessageIds(es[..|es| - 1]) + (if es[|es| - 1].Message? then {es[|es| - 1].id} else {})
  }

  /** After these events, the message is the first with its id, which was not noted before either. */
  predicate First(c: Chat, before: seq<Event>, m: Event) {
    m.Message? && m.id !in c.seen && m.id !in MessageIds(before)
  }

  /** The message was noted before, and fewer than 64 other ids have been since. */
  ghost predicate Repeats(c: Chat, before: seq<Event>, m: Event) {
    m.Message? &&
    ((exists j :: 0 <= j < |before| && Noting(c, before, j, m))
     || (exists n: nat :: Recent(c.seen, m.id, n) && n + Load(before) <= WINDOW))
  }

  ghost predicate Noting(c: Chat, before: seq<Event>, j: nat, m: Event)
    requires j < |before| && m.Message?
  {
    First(c, before[..j], before[j]) && before[j].id == m.id && Load(before[j + 1..]) < WINDOW
  }

  /** No message is delivered again so late that it has been forgotten. */
  ghost predicate Timely(c: Chat, es: seq<Event>) {
    es == [] ||
    (var front, e := es[..|es| - 1], es[|es| - 1];
     Timely(c, front) && (e.Message? ==> First(c, front, e) || Repeats(c, front, e)))
  }

  /** How many messages of others, after the chat was last read, were delivered for the first time. */
  ghost function NewMessages(c: Chat, es: seq<Event>): nat {
    if es == [] then 0
    else
      var front, e := es[..|es| - 1], es[|es| - 1];
      NewMessages(c, front) + (if First(c, front, e) && !e.fromMe && Max(0, e.at) > c.readAt then 1 else 0)
  }

  lemma {:induction false} PatchAllJoin(c: Chat, a: seq<Event>, b: seq<Event>, user: string)
    ensures PatchAll(c, a + b, user) == PatchAll(PatchAll(c, a, user), b, user)
  {
    if b == [] {
      assert a + b == a;
    } else {
      PatchAllJoin(c, a, b[..|b| - 1], user);
      assert (a + b)[..|a + b| - 1] == a + b[..|b| - 1];
    }
  }

  lemma LastIsPart(ids: seq<string>, n: nat, id: string)
    requires id in Last(ids, n)
    ensures id in ids
  {
    var i :| 0 <= i < |Last(ids, n)| && Last(ids, n)[i] == id;
    assert ids[if |ids| > n then |ids| - n + i else i] == id;
  }

  lemma SeenGrowsByMessages(c: Chat, e: Event, user: string, id: string)
    requires !e.Sync? && id in Patched(c, e, user).seen
    ensures id in c.seen || (e.Message? && id == e.id)
  {
    SeenStep(c, e, user);
    if e.Message? && e.id !in c.seen {
      LastIsPart(c.seen + [e.id], WINDOW, id);
    }
  }

  lemma {:induction false} SeenIsFromMessages(c: Chat, es: seq<Event>, user: string, id: string)
    requires Receiving(es) && id in PatchAll(c, es, user).seen
    ensures id in c.seen || id in MessageIds(es)
  {
    if es == [] {
    } else {
      var front, e := es[..|es| - 1], es[|es| - 1];
      SeenGrowsByMessages(PatchAll(c, front, user), e, user, id);
      if id in PatchAll(c, front, user).seen {
        SeenIsFromMessages(c, front, user, id);
      }
    }
  }

  lemma FirstIsUnknown(c: Chat, before: seq<Event>, m: Event, user: string)
    requires Receiving(before) && First(c, before, m)
    ensures m.id !in PatchAll(c, before, user).seen
  {
    if m.id in PatchAll(c, before, user).seen {
      SeenIsFromMessages(c, before, user, m.id);
    }
  }

  lemma NotedIsKnown(c: Chat, before: seq<Event>, j: nat, m: Event, user: string)
    requires j < |before| && m.Message? && Receiving(before) && Noting(c, before, j, m)
    ensures m.id in PatchAll(c, before, user).seen
  {
    var a, b, noted := before[..j], before[j + 1..], before[j];
    ReceivingParts(before, j);
    FirstIsUnknown(c, a, noted, user);
    StillKnown(PatchAll(c, a, user), noted, b, user);
    assert before == (a + [noted]) + b;
    PatchAllJoin(c, a + [noted], b, user);
    PatchAllSnoc(c, a, noted, user);
  }

  lemma RepeatIsKnown(c: Chat, before: seq<Event>, m: Event, user: string)
    requires Receiving(before) && Repeats(c, before, m)
    ensures m.id in PatchAll(c, before, user).seen
  {
    if j :| 0 <= j < |before| && Noting(c, before, j, m) {
      NotedIsKnown(c, before, j, m, user);
    } else {
      var n: nat :| Recent(c.seen, m.id, n) && n + Load(before) <= WINDOW;
      StillRecent(c, before, user, m.id, n);
      assert Recent(PatchAll(c, before, user).seen, m.id, n + Load(before));
    }
  }

  lemma NewIffUnknown(c: Chat, before: seq<Event>, m: Event, user: string)
    requires Receiving(before) && m.Message? && (First(c, before, m) || Repeats(c, before, m))
    ensures First(c, before, m) <==> m.id !in PatchAll(c, before, user).seen
  {
    if First(c, before, m) {
      FirstIsUnknown(c, before, m, user);
    } else {
      RepeatIsKnown(c, before, m, user);
    }
  }

  /** A message that a deleted chat refuses would not count as unread either. */
  predicate ReadSinceDeleted(c: Chat) {
    Listed(c) || c.deletedAt <= c.readAt
  }

  lemma ReceivingStep(c: Chat, e: Event, user: string)
    requires !e.MarkRead? && !e.DeleteChat? && !e.Sync? && ReadSinceDeleted(c)
    ensures var d := Patched(c, e, user);
      && ReadSinceDeleted(d) && (Listed(c) ==> Listed(d)) && d.readAt == c.readAt && d.unreadKnown == c.unreadKnown
      && d.unread == (if e.Message? && e.id !in c.seen && !e.fromMe && Max(0, e.at) > c.readAt && c.unread < 1_000_000
                      then c.unread + 1 else c.unread)
  {
  }

  /**
   Between reads, every new message of others in a chat that is listed, or was deleted no later than read,
   is counted exactly once, up to a million: whatever else happens, in whatever order, and however often it is
   delivered again in time.
   */
  lemma {:induction false} UnreadCountsNewMessages(c: Chat, es: seq<Event>, user: string)
    requires ReadSinceDeleted(c) && Receiving(es) && Timely(c, es)
    ensures var d := PatchAll(c, es, user);
      && d.unread == Max(c.unread, Min(1_000_000, c.unread + NewMessages(c, es)))
      && ReadSinceDeleted(d) && (Listed(c) ==> Listed(d)) && d.readAt == c.readAt && d.unreadKnown == c.unreadKnown
  {
    if es == [] {
    } else {
      var front, e := es[..|es| - 1], es[|es| - 1];
      UnreadCountsNewMessages(c, front, user);
      if e.Message? {
        NewIffUnknown(c, front, e, user);
      }
      ReceivingStep(PatchAll(c, front, user), e, user);
    }
  }

  /// The table

  /** Text order by code point, as SQLite compares UTF-8. */
  predicate TextLess(a: string, b: string) {
    b != [] && (a == [] || a[0] < b[0] || (a[0] == b[0] && TextLess(a[1..], b[1..])))
  }

  /** At the first difference the smaller character comes first, and a text comes before its continuations. */
  ghost predicate DiffersAt(a: string, b: string, i: nat) {
    i <= |a| && i < |b| && a[..i] == b[..i] && (i == |a| || a[i] < b[i])
  }

  lemma {:induction false} TextLessIff(a: string, b: string)
    ensures TextLess(a, b) <==> exists i: nat :: DiffersAt(a, b, i)
  {
    if a == [] || b == [] || a[0] != b[0] {
      assert b != [] && (a == [] || a[0] < b[0]) ==> DiffersAt(a, b, 0);
      assert forall i: nat :: DiffersAt(a, b, i) && i > 0 ==> a[..i][0] == a[0] && b[..i][0] == b[0];
    } else {
      TextLessIff(a[1..], b[1..]);
      forall i: nat | DiffersAt(a[1..], b[1..], i) ensures DiffersAt(a, b, i + 1) {
        assert a[..i + 1] == [a[0]] + a[1..][..i] && b[..i + 1] == [b[0]] + b[1..][..i];
      }
      forall i: nat | DiffersAt(a, b, i) && i > 0 ensures DiffersAt(a[1..], b[1..], i - 1) {
        assert a[1..][..i - 1] == a[..i][1..] && b[1..][..i - 1] == b[..i][1..];
      }
      assert !DiffersAt(a, b, 0);
    }
  }

  lemma {:induction false} TextTotal(a: string, b: string)
    ensures a == b || TextLess(a, b) || TextLess(b, a)
  {
    if a != [] && b != [] && a[0] == b[0] {
      TextTotal(a[1..], b[1..]);
      assert a == [a[0]] + a[1..] && b == [b[0]] + b[1..];
    }
  }

  lemma {:induction false} TextTransitive(a: string, b: string, c: string)
    requires TextLess(a, b) && TextLess(b, c)
    ensures TextLess(a, c)
  {
    if a != [] && a[0] == b[0] && b[0] == c[0] {
      TextTransitive(a[1..], b[1..], c[1..]);
    }
  }

  type Table = map<string, Chat>

  /** ORDER BY t DESC, jid. */
  predicate Ahead(chats: Table, a: string, b: string)
    requires a in chats && b in chats
  {
    chats[a].t > chats[b].t || (chats[a].t == chats[b].t && TextLess(a, b))
  }

  /** What the trimming DELETE leaves: all of a small table, otherwise the first ten thousand rows in order. */
  ghost predicate IsTrim(before: Table, after: Table) {
    && (forall k :: k in after ==> k in before && after[k] == before[k])
    && (|before| <= MAX_CHATS ==> after == before)
    && (|before| > MAX_CHATS ==> |after| == MAX_CHATS)
    && (forall k, r :: k in after && r in before && r !in after ==> Ahead(before, k, r))
  }

  lemma AheadTransitive(chats: Table, a: string, b: string, c: string)
    requires a in chats && b in chats && c in chats && Ahead(chats, a, b) && Ahead(chats, b, c)
    ensures Ahead(chats, a, c)
  {
    if chats[a].t == chats[c].t {
      TextTransitive(a, b, c);
    }
  }

  /** The row that comes last in order. */
  method Hindmost(chats: Table) returns (last: string)
    requires chats != map[]
    ensures last in chats && forall k :: k in chats && k != last ==> Ahead(chats, k, last)
  {
    last :| last in chats;
    var rest := chats.Keys - {last};
    while rest != {}
      invariant last in chats && rest <= chats.Keys && last !in rest
      invariant forall k :: k in chats && k !in rest && k != last ==> Ahead(chats, k, last)
      decreases |rest|
    {
      var k :| k in rest;
      if Ahead(chats, last, k) {
        forall j | j in chats && j !in rest && j != last ensures Ahead(chats, j, k) {
          AheadTransitive(chats, j, last, k);
        }
        last := k;
      } else {
        TextTotal(last, k);
      }
      rest := rest - {k};
    }
  }

  method Trim(before: Table) returns (after: Table)
    ensures IsTrim(before, after)
  {
    after := before;
    while |after| > MAX_CHATS
      invariant forall k :: k in after ==> k in before && after[k] == before[k]
      invariant |before| <= MAX_CHATS ==> after == before
      invariant |before| > MAX_CHATS ==> |after| >= MAX_CHATS
      invariant forall k, r :: k in after && r in before && r !in after ==> Ahead(before, k, r)
    {
      var last := Hindmost(after);
      ghost var kept := after;
      after := after - {last};
      assert after.Keys == kept.Keys - {last};
      forall k | k in after ensures Ahead(before, k, last) {
        assert Ahead(kept, k, last);
      }
    }
  }

  function Entry(chats: Table, jid: string, user: string): Chat {
    if jid in chats then chats[jid] else NewChat(user)
  }

  function Put(chats: Table, jid: string, user: string, e: Event): Table {
    chats[jid := Patched(Entry(chats, jid, user), e, user)]
  }

  /** An address and the user part of it. */
  datatype Address = Address(jid: string, user: string)

  function PutAll(chats: Table, convs: seq<(Address, Conversation)>): Table {
    if convs == [] then chats
    else
      var (a, v) := convs[|convs| - 1];
      Put(PutAll(chats, convs[..|convs| - 1]), a.jid, a.user, Sync(v))
  }

  method NoteIds(seen: seq<string>, ids: seq<string>) returns (out: seq<string>)
    ensures out == Noted(seen, ids)
  {
    out := seen;
    for i := 0 to |ids|
      invariant out == Noted(seen, ids[..i])
    {
      assert ids[..i + 1][..i] == ids[..i];
      if ids[i] != "" {
        var known := Contains(out, ids[i]);
        if !known && |ids[i]| <= 256 {
          out := out + [ids[i]];
        }
      }
    }
    assert ids[..|ids|] == ids;
  }

  method Contains(ids: seq<string>, id: string) returns (found: bool)
    ensures found <==> id in ids
  {
    for i := 0 to |ids|
      invariant id !in ids[..i]
    {
      if ids[i] == id {
        return true;
      }
    }
    assert ids[..|ids|] == ids;
    found := false;
  }

  method CutName(c: Chat) returns (d: Chat)
    ensures d == if |c.name| > 256 then c.(name := c.name[..256]) else c
  {
    d := c;
    if |c.name| > 256 {
      d := d.(name := c.name[..256]);
    }
  }

  method ReceiveMessage(c: Chat, id: string, fromMe: bool, at: int) returns (d: Chat)
    ensures d == Received(c, id, fromMe, at)
  {
    d := c;
    var known := Contains(c.seen, id);
    if known {
      return;
    }
    d := d.(seen := Last(d.seen + [id], WINDOW));
    var t := if at < 0 then 0 else at;
    if d.deletedAt > 0 {
      if t < d.deletedAt {
        return;
      }
      d := d.(deletedAt := 0);
    }
    if !fromMe && t > d.readAt && d.unread < MAX_UNREAD {
      d := d.(unread := d.unread + 1);
    }
    if t > d.t {
      d := d.(t := t);
    }
  }

  method ReceiveSync(c: Chat, v: Conversation, user: string) returns (d: Chat)
    ensures d == Synced(c, v, user)
  {
    d := c;
    var t := SyncTime(v);
    if d.deletedAt > 0 {
      if t <= d.deletedAt {
        return;
      }
      d := d.(deletedAt := 0);
    }
    d := SyncNamed(d, v, user);
    d := CountSync(d, v);
    d := SyncPinned(SyncArchived(d, v), v);
  }

  method CountSync(c: Chat, v: Conversation) returns (d: Chat)
    ensures d == SyncCounted(c, v)
  {
    d := c;
    var t := SyncTime(v);
    if t < d.t {
      return;
    }
    d := d.(t := t);
    if v.unread.Some? && t >= d.readAt {
      d := d.(unread := v.unread.value, unreadKnown := true);
    }
    var seen := NoteIds(d.seen, v.messages[..Min(|v.messages|, WINDOW)]);
    if |seen| > WINDOW {
      seen := seen[|seen| - WINDOW..];
    }
    d := d.(seen := seen);
  }

  class Index {
    var chats: Table

    constructor ()
      ensures chats == map[]
    {
      chats := map[];
    }

    /** One change to one chat, and the trim, in one transaction. */
    method Update(a: Address, supported: bool, e: Event)
      modifies this
      ensures IsTrim(if supported then Put(old(chats), a.jid, a.user, e) else old(chats), chats)
    {
      if supported {
        chats := Trim(Put(chats, a.jid, a.user, e));
      } else {
        chats := Trim(chats);
      }
    }

    /** A message; without a usable id, or for an unsupported chat, nothing happens. */
    method Message(a: Address, supported: bool, id: string, fromMe: bool, at: int)
      modifies this
      ensures if supported && id != "" && |id| <= 256
              then IsTrim(Put(old(chats), a.jid, a.user, Event.Message(id, fromMe, at)), chats)
              else chats == old(chats)
    {
      if !supported || id == "" || |id| > 256 {
        return;
      }
      var d := ReceiveMessage(Entry(chats, a.jid, a.user), id, fromMe, at);
      d := CutName(d);
      chats := Trim(chats[a.jid := d]);
    }

    /** A history sync: the supported conversations in turn, in one transaction. */
    method HistorySync(convs: seq<(Address, Conversation)>)
      modifies this
      ensures IsTrim(PutAll(old(chats), convs), chats)
    {
      var table := chats;
      for i := 0 to |convs|
        invariant table == PutAll(chats, convs[..i]) && chats == old(chats)
      {
        var (a, v) := convs[i];
        assert convs[..i + 1][..i] == convs[..i];
        var d := ReceiveSync(Entry(table, a.jid, a.user), v, a.user);
        d := CutName(d);
        table := table[a.jid := d];
      }
      assert convs[..|convs|] == convs;
      chats := Trim(table);
    }
  }

  /// Whole runs of the index

  /** A transaction: one event for one chat, a history sync, or nothing but the trim. */
  datatype Op = One(a: Address, e: Event) | Batch(convs: seq<(Address, Conversation)>) | OnlyTrim

  function Applied(chats: Table, op: Op): Table {
    match op
    case One(a, e) => Put(chats, a.jid, a.user, e)
    case Batch(convs) => PutAll(chats, convs)
    case OnlyTrim => chats
  }

  /** The tables between the transactions, from the first to the last. */
  ghost predicate Follows(tables: seq<Table>, ops: seq<Op>) {
    |tables| == |ops| + 1 && forall i :: 0 <= i < |ops| ==> IsTrim(Applied(tables[i], ops[i]), tables[i + 1])
  }

  function SyncsFor(convs: seq<(Address, Conversation)>, jid: string): seq<Event> {
    if convs == [] then []
    else
      var (a, v) := convs[|convs| - 1];
      SyncsFor(convs[..|convs| - 1], jid) + (if a.jid == jid then [Sync(v)] else [])
  }

  /** What a transaction brings one chat. */
  function EventsFor(op: Op, jid: string): seq<Event> {
    match op
    case One(a, e) => if a.jid == jid then [e] else []
    case Batch(convs) => SyncsFor(convs, jid)
    case OnlyTrim => []
  }

  function AllEventsFor(ops: seq<Op>, jid: string): seq<Event> {
    if ops == [] then [] else AllEventsFor(ops[..|ops| - 1], jid) + EventsFor(ops[|ops| - 1], jid)
  }

  /** An address determines its user part. */
  ghost predicate Named(op: Op, jid: string, user: string) {
    match op
    case One(a, _) => a.jid == jid ==> a.user == user
    case Batch(convs) => forall x :: x in convs && x.0.jid == jid ==> x.0.user == user
    case OnlyTrim => true
  }

  lemma PutOneMore(t: Table, a: Address, e: Event, jid: string, user: string, c: Chat, es: seq<Event>)
    requires a.jid == jid ==> a.user == user
    requires Entry(t, jid, user) == PatchAll(c, es, user)
    ensures Entry(Put(t, a.jid, a.user, e), jid, user) == PatchAll(c, es + (if a.jid == jid then [e] else []), user)
    ensures jid in Put(t, a.jid, a.user, e) <==> jid in t || a.jid == jid
  {
    if a.jid == jid {
      PatchAllSnoc(c, es, e, user);
    } else {
      assert es + [] == es;
    }
  }

  lemma NamedFront(convs: seq<(Address, Conversation)>, jid: string, user: string)
    requires convs != [] && Named(Batch(convs), jid, user)
    ensures Named(Batch(convs[..|convs| - 1]), jid, user)
    ensures var a := convs[|convs| - 1].0; a.jid == jid ==> a.user == user
  {
    assert convs == convs[..|convs| - 1] + [convs[|convs| - 1]];
  }

  lemma {:induction false} PutAllFor(chats: Table, convs: seq<(Address, Conversation)>, jid: string, user: string)
    requires Named(Batch(convs), jid, user)
    ensures Entry(PutAll(chats, convs), jid, user) == PatchAll(Entry(chats, jid, user), SyncsFor(convs, jid), user)
    ensures jid in PutAll(chats, convs) <==> jid in chats || SyncsFor(convs, jid) != []
  {
    if convs == [] {
    } else {
      var front := convs[..|convs| - 1];
      var (a, v) := convs[|convs| - 1];
      NamedFront(convs, jid, user);
      PutAllFor(chats, front, jid, user);
      PutOneMore(PutAll(chats, front), a, Sync(v), jid, user, Entry(chats, jid, user), SyncsFor(front, jid));
    }
  }

  /** A transaction, before its trim, patches each chat with its own events. */
  lemma AppliedFor(chats: Table, op: Op, jid: string, user: string)
    requires Named(op, jid, user)
    ensures Entry(Applied(chats, op), jid, user) == PatchAll(Entry(chats, jid, user), EventsFor(op, jid), user)
    ensures jid in Applied(chats, op) <==> jid in chats || EventsFor(op, jid) != []
  {
    match op
    case One(a, e) =>
      var c := Entry(chats, jid, user);
      assert [e][..0] == [] && PatchAll(c, [e], user) == Patched(PatchAll(c, [], user), e, user);
    case Batch(convs) => PutAllFor(chats, convs, jid, user);
    case OnlyTrim =>
  }

  /** The trim after transaction `i` takes the chat. */
  ghost predicate Loses(tables: seq<Table>, ops: seq<Op>, i: nat, jid: string)
    requires i < |ops| && |tables| == |ops| + 1
  {
    jid in Applied(tables[i], ops[i]) && jid !in tables[i + 1]
  }

  ghost predicate NeverLoses(tables: seq<Table>, ops: seq<Op>, jid: string)
    requires |tables| == |ops| + 1
  {
    forall i :: 0 <= i < |ops| ==> !Loses(tables, ops, i, jid)
  }

  ghost predicate AllNamed(ops: seq<Op>, jid: string, user: string) {
    forall op :: op in ops ==> Named(op, jid, user)
  }

  /**
   As long as no trim takes it, a chat is what its own events make of it, whatever happens to others:
   the per-chat results above hold of the index.
   */
  lemma {:induction false} IndexFollowsEvents(tables: seq<Table>, ops: seq<Op>, jid: string, user: string)
    requires Follows(tables, ops) && AllNamed(ops, jid, user) && NeverLoses(tables, ops, jid)
    ensures Entry(tables[|ops|], jid, user) == PatchAll(Entry(tables[0], jid, user), AllEventsFor(ops, jid), user)
    decreases |ops|
  {
    if ops == [] {
    } else {
      var n := |ops| - 1;
      FollowsFront(tables, ops, jid);
      IndexFollowsEvents(tables[..n + 1], ops[..n], jid, user);
      AppliedFor(tables[n], ops[n], jid, user);
      PatchAllJoin(Entry(tables[0], jid, user), AllEventsFor(ops[..n], jid), EventsFor(ops[n], jid), user);
      assert IsTrim(Applied(tables[n], ops[n]), tables[n + 1]) && !Loses(tables, ops, n, jid);
    }
  }

  lemma FollowsFront(tables: seq<Table>, ops: seq<Op>, jid: string)
    requires ops != [] && Follows(tables, ops) && NeverLoses(tables, ops, jid)
    ensures var n := |ops| - 1; Follows(tables[..n + 1], ops[..n]) && NeverLoses(tables[..n + 1], ops[..n], jid)
  {
    var n := |ops| - 1;
    forall i | 0 <= i < n
      ensures IsTrim(Applied(tables[..n + 1][i], ops[..n][i]), tables[..n + 1][i + 1])
      ensures !Loses(tables[..n + 1], ops[..n], i, jid)
    {
      assert !Loses(tables, ops, i, jid);
    }
  }

  lemma {:induction false} TextAsymmetric(a: string, b: string)
    requires TextLess(a, b)
    ensures !TextLess(b, a)
  {
    if a != [] && a[0] == b[0] {
      TextAsymmetric(a[1..], b[1..]);
    }
  }

  ghost function AheadOf(chats: Table, jid: string): set<string>
    requires jid in chats
  {
    set k | k in chats && Ahead(chats, k, jid)
  }

  /** Ahead of a chat are those with later activity, and of those with the same the ones with lesser addresses. */
  lemma AheadMeans(chats: Table, jid: string, k: string)
    requires jid in chats
    ensures k in AheadOf(chats, jid) <==>
      k in chats && (chats[k].t > chats[jid].t || (chats[k].t == chats[jid].t && exists i: nat :: DiffersAt(k, jid, i)))
  {
    TextLessIff(k, jid);
  }

  /** A trim takes a chat exactly when at least ten thousand others come before it. */
  lemma TrimTakesIff(before: Table, after: Table, jid: string)
    requires IsTrim(before, after) && jid in before
    ensures jid !in after <==> |AheadOf(before, jid)| >= 10_000
  {
    var front := AheadOf(before, jid);
    if jid in after {
      forall k | k in front ensures k in after && k != jid {
        if before[k].t == before[jid].t { TextAsymmetric(k, jid); }
      }
      SubsetSize(front, after.Keys - {jid});
      SubsetSize(after.Keys, before.Keys);
      assert |after| == |after.Keys| && |before| == |before.Keys|;
    } else {
      SubsetSize(after.Keys, front);
      assert |after| == |after.Keys|;
    }
  }

  /** A chat that a trim took has forgotten which messages it had: any of them is new again when it comes back. */
  lemma TakenChatForgets(chats: Table, a: Address, m: Event)
    requires a.jid !in chats && m.Message?
    ensures var c := Put(chats, a.jid, a.user, m)[a.jid];
      c.seen == [m.id] && c.unread == (if !m.fromMe && m.at > 0 then 1 else 0) && c.t == Max(0, m.at)
  {
  }

  lemma {:induction false} LoadJoin(a: seq<Event>, b: seq<Event>)
    ensures Load(a + b) == Load(a) + Load(b)
  {
    if b == [] {
      assert a + b == a;
    } else {
      LoadJoin(a, b[..|b| - 1]);
      assert (a + b)[..|a + b| - 1] == a + b[..|b| - 1];
    }
  }

  lemma {:induction false} HeadEvent(ops: seq<Op>, jid: string)
    requires ops != [] && ops[0].One? && ops[0].a.jid == jid
    ensures var es := AllEventsFor(ops, jid); es != [] && es[0] == ops[0].e
  {
    if |ops| == 1 {
      assert AllEventsFor(ops[..0], jid) == [];
    } else {
      HeadEvent(ops[..|ops| - 1], jid);
    }
  }

  /** A chat that is there and not taken is still there. */
  lemma {:induction false} StaysPut(tables: seq<Table>, ops: seq<Op>, a: Address, m: Event)
    requires Follows(tables, ops) && AllNamed(ops, a.jid, a.user) && NeverLoses(tables, ops, a.jid)
    requires ops != [] && ops[0] == One(a, m)
    ensures a.jid in tables[|ops|]
    decreases |ops|
  {
    var n := |ops| - 1;
    assert !Loses(tables, ops, n, a.jid);
    AppliedFor(tables[n], ops[n], a.jid, a.user);
    if n > 0 {
      FollowsFront(tables, ops, a.jid);
      StaysPut(tables[..n + 1], ops[..n], a, m);
    }
  }

  lemma RedeliveryAtTheHead(c: Chat, m: Event, es: seq<Event>, again: Event, user: string)
    requires es != [] && es[0] == m && m.Message? && m.id !in c.seen && again.Message? && again.id == m.id
    requires Load(es) <= WINDOW
    ensures Patched(PatchAll(c, es, user), again, user) == PatchAll(c, es, user)
  {
    assert es == [m] + es[1..] && [m][..0] == [];
    PatchAllJoin(c, [m], es[1..], user);
    LoadJoin([m], es[1..]);
    assert PatchAll(c, [m], user) == Patched(PatchAll(c, [], user), m, user);
    assert Load([m]) == Load([]) + LoadOf(m);
    RedeliveryIsIgnored(c, m, es[1..], again, user);
  }

  /** In the index, too, a message delivered again has no effect, if fewer than 64 ids and no trim came in between. */
  lemma RedeliveryToTheIndex(tables: seq<Table>, ops: seq<Op>, a: Address, m: Event, again: Event)
    requires Follows(tables, ops) && AllNamed(ops, a.jid, a.user) && NeverLoses(tables, ops, a.jid)
    requires ops != [] && ops[0] == One(a, m) && m.Message? && again.Message? && again.id == m.id
    requires m.id !in Entry(tables[0], a.jid, a.user).seen && Load(AllEventsFor(ops, a.jid)) <= 64
    ensures var chats := tables[|ops|]; a.jid in chats && Put(chats, a.jid, a.user, again) == chats
  {
    IndexFollowsEvents(tables, ops, a.jid, a.user);
    StaysPut(tables, ops, a, m);
    HeadEvent(ops, a.jid);
    RedeliveryAtTheHead(Entry(tables[0], a.jid, a.user), m, AllEventsFor(ops, a.jid), again, a.user);
  }
}
