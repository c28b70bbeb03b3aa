/**
 What each event makes of a stored chat, said outright, and the number of unread messages since the
 last read, deletion or history sync.  ChatIndex.dfy has the index itself and its results over whole runs.
 */
module ChatEvents {
  import opened Prelude
  import opened ChatIndex

  /** A stored name has at most 256 characters. */
  function Cut(name: string): (r: string)
    ensures |r| <= 256 && r <= name && (|name| <= 256 ==> r == name)
  {
    if |name| > 256 then name[..256] else name
  }

  /** One event is stored under its address, and nothing else changes; a new chat starts empty and listed. */
  lemma PutMeans(chats: Table, jid: string, user: string, e: Event)
    ensures jid in chats ==> Put(chats, jid, user, e) == chats[jid := Patched(chats[jid], e, user)]
    ensures jid !in chats ==>
      var empty := Chat(user, 0, 0, false, false, false, false, 0, 0, 0, 0, 0, 0, []);
      Put(chats, jid, user, e) == chats[jid := Patched(empty, e, user)]
  {
  }

  /**
   A read no older than the last one leaves nothing unread, and that is known; an unread mark leaves at
   least one message, and not known how many if there was none; an older mark changes nothing.
   */
  lemma ReadMarkMeans(c: Chat, on: bool, at: int, user: string)
    ensures var d := Patched(c, MarkRead(on, at), user);
      && (at < c.readAt ==> d == c.(name := Cut(c.name)))
      && (at >= c.readAt ==>
            d == c.(name := Cut(c.name), readAt := at, unread := d.unread, unreadKnown := d.unreadKnown))
      && (at >= c.readAt && on ==> d.unread == 0 && d.unreadKnown)
      && (at >= c.readAt && !on ==> d.unread >= 1)
      && (at >= c.readAt && !on && c.unread == 0 ==> d.unread == 1 && !d.unreadKnown)
      && (at >= c.readAt && !on && c.unread > 0 ==> d.unread == c.unread && d.unreadKnown == c.unreadKnown)
  {
  }

  /**
   A deletion later than the last one, and not older than the chat's activity, hides the chat and clears
   its unread messages and flags as of its own time; any other deletion changes nothing.
   */
  lemma DeletionMeans(c: Chat, at: int, user: string)
    ensures var d := Patched(c, DeleteChat(at), user);
      && (at <= c.deletedAt || at < c.t ==> d == c.(name := Cut(c.name)))
      && (at > c.deletedAt && at >= c.t ==>
            && d.deletedAt == d.readAt == d.archiveAt == d.pinAt == at
            && d.unread == 0 && d.unreadKnown && !d.archived && !d.pinned
            && d.name == Cut(c.name) && d.t == c.t && d.seen == c.seen
            && d.muted == c.muted && d.muteUntil == c.muteUntil && d.muteAt == c.muteAt)
  {
  }

  /// Mute, archive and pin each overwrite their own fields, unless these were set later

  lemma MuteMeans(c: Chat, on: bool, until: int, at: int, user: string)
    ensures var d := Patched(c, Mute(on, until, at), user);
      && (at < c.muteAt ==> d == c.(name := Cut(c.name)))
      && (at >= c.muteAt ==> d == c.(name := Cut(c.name), muted := on, muteUntil := until, muteAt := at))
  {
  }

  lemma ArchiveMeans(c: Chat, on: bool, at: int, user: string)
    ensures var d := Patched(c, Archive(on, at), user);
      && (at < c.archiveAt ==> d == c.(name := Cut(c.name)))
      && (at >= c.archiveAt ==> d == c.(name := Cut(c.name), archived := on, archiveAt := at))
  {
  }

  lemma PinMeans(c: Chat, on: bool, at: int, user: string)
    ensures var d := Patched(c, Pin(on, at), user);
      && (at < c.pinAt ==> d == c.(name := Cut(c.name)))
      && (at >= c.pinAt ==> d == c.(name := Cut(c.name), pinned := on, pinAt := at))
  {
  }

  /** A group gets its name; a group joined without any activity yet is as recent as its creation. */
  lemma GroupsMean(c: Chat, name: string, created: Option<int>, user: string)
    ensures Patched(c, GroupName(name), user) == c.(name := Cut(name))
    ensures var d := Patched(c, JoinedGroup(name, created), user);
      && d == c.(name := Cut(name), t := d.t)
      && d.t == if c.t == 0 && created != None then created.value else c.t
  {
  }

  /**
   A message already seen changes nothing.  A new one is noted; if it is older than the chat's deletion that is
   all, otherwise the chat is listed, as recent as the message, with one more unread if it is of others and
   later than the last read.
   */
  lemma MessageMeans(c: Chat, id: string, fromMe: bool, at: int, user: string)
    ensures var d, t := Patched(c, Message(id, fromMe, at), user), Max(0, at);
      && (id in c.seen ==> d == c.(name := Cut(c.name)))
      && (id !in c.seen ==> d.seen == (c.seen + [id])[Max(0, |c.seen| + 1 - 64)..])
      && (id !in c.seen && 0 < c.deletedAt && t < c.deletedAt ==> d == c.(name := Cut(c.name), seen := d.seen))
      && (id !in c.seen && !(0 < c.deletedAt && t < c.deletedAt) ==>
            && d == c.(name := Cut(c.name), seen := d.seen, deletedAt := d.deletedAt, unread := d.unread, t := d.t)
            && d.deletedAt == Min(0, c.deletedAt) && d.t == Max(c.t, t)
            && (!fromMe && t > c.readAt && c.unread < 1_000_000 ==> d.unread == c.unread + 1)
            && (fromMe || t <= c.readAt || c.unread >= 1_000_000 ==> d.unread == c.unread))
  {
  }

  /** The time of a conversation, never before 1970: that of its last message, or without one its own. */
  function SyncedAt(v: Conversation): int {
    if v.lastMessage > 0 then v.lastMessage else if v.lastMessage == 0 && v.conversation > 0 then v.conversation else 0
  }

  lemma SyncTimeMeans(v: Conversation)
    ensures SyncTime(v) == SyncedAt(v)
  {
  }

  lemma SyncCuts(c: Chat, v: Conversation, user: string)
    ensures var s := Synced(c, v, user); Patched(c, Sync(v), user) == s.(name := Cut(s.name))
  {
  }

  lemma CountedMeans(c: Chat, v: Conversation)
    ensures var d, t := SyncCounted(c, v), SyncedAt(v);
      && d == c.(t := Max(c.t, t), unread := d.unread, unreadKnown := d.unreadKnown, seen := d.seen)
      && (v.unread.Some? && t >= c.t && t >= c.readAt ==> d.unread == v.unread.value && d.unreadKnown)
      && (v.unread == None || t < c.t || t < c.readAt ==> d.unread == c.unread && d.unreadKnown == c.unreadKnown)
  {
  }

  lemma FlaggedMeans(c: Chat, v: Conversation)
    ensures var d, t := SyncPinned(SyncArchived(c, v), v), SyncedAt(v);
      && d == c.(archived := d.archived, archiveAt := d.archiveAt, pinned := d.pinned, pinAt := d.pinAt)
      && (v.archived.Some? && t >= c.archiveAt ==> d.archived == v.archived.value && d.archiveAt == t)
      && (v.archived == None || t < c.archiveAt ==> d.archived == c.archived && d.archiveAt == c.archiveAt)
      && (v.pinned.Some? && t >= c.pinAt ==> d.pinned == v.pinned.value && d.pinAt == t)
      && (v.pinned == None || t < c.pinAt ==> d.pinned == c.pinned && d.pinAt == c.pinAt)
  {
  }

  /** The stages of an accepted sync: listed again, named, counted, flagged. */
  lemma SyncStages(c: Chat, v: Conversation, user: string) returns (named: Chat, counted: Chat)
    requires !(0 < c.deletedAt && SyncedAt(v) <= c.deletedAt)
    ensures named == c.(deletedAt := Min(0, c.deletedAt), name := named.name)
    ensures counted == SyncCounted(named, v)
    ensures Synced(c, v, user) == SyncPinned(SyncArchived(counted, v), v)
    ensures var given := if v.name != "" then v.name else v.displayName;
      named.name == if given != "" && (c.name == user || SyncedAt(v) >= c.t) then given else c.name
  {
    SyncTimeMeans(v);
    named := SyncNamed(c.(deletedAt := Min(0, c.deletedAt)), v, user);
    counted := SyncCounted(named, v);
  }

  /** What a history sync, unless the chat was deleted no earlier, does to all fields but the name. */
  lemma SyncMeans(c: Chat, v: Conversation, user: string)
    ensures var d, t := Patched(c, Sync(v), user), SyncedAt(v);
      && (0 < c.deletedAt && t <= c.deletedAt ==> d == c.(name := Cut(c.name)))
      && (!(0 < c.deletedAt && t <= c.deletedAt) ==>
            && d.deletedAt == Min(0, c.deletedAt) && d.t == Max(c.t, t) && d.readAt == c.readAt
            && d.muted == c.muted && d.muteUntil == c.muteUntil && d.muteAt == c.muteAt
            && (v.unread.Some? && t >= c.t && t >= c.readAt ==> d.unread == v.unread.value && d.unreadKnown)
            && (v.unread == None || t < c.t || t < c.readAt ==>
                  d.unread == c.unread && d.unreadKnown == c.unreadKnown))
  {
    SyncCuts(c, v, user);
    SyncTimeMeans(v);
    if !(0 < c.deletedAt && SyncedAt(v) <= c.deletedAt) {
      var named, counted := SyncStages(c, v, user);
      CountedMeans(named, v);
      FlaggedMeans(counted, v);
    }
  }

  /** The ids a sync brings are added in order, each once, but for empty ones and those longer than 256. */
  lemma {:induction false} NotedMeans(seen: seq<string>, ids: seq<string>)
    ensures seen <= Noted(seen, ids)
    ensures forall id :: id in Noted(seen, ids) <==> id in seen || (id in ids && 1 <= |id| <= 256)
    ensures |Noted(seen, ids)| <= |seen| + |ids|
    ensures forall i, j :: |seen| <= i < j < |Noted(seen, ids)| ==> Noted(seen, ids)[i] != Noted(seen, ids)[j]
    ensures forall i, j :: 0 <= i < |seen| <= j < |Noted(seen, ids)| ==> Noted(seen, ids)[i] != Noted(seen, ids)[j]
  {
    if ids == [] {
    } else {
      var front, last := ids[..|ids| - 1], ids[|ids| - 1];
      NotedMeans(seen, front);
      assert ids == front + [last];
    }
  }

  /** An accepted sync no older than the chat's activity notes its first 64 ids, and keeps the last 64 in all. */
  lemma SyncSeenMeans(c: Chat, v: Conversation, user: string)
    requires !(0 < c.deletedAt && SyncedAt(v) <= c.deletedAt)
    ensures SyncedAt(v) < c.t ==> Patched(c, Sync(v), user).seen == c.seen
    ensures SyncedAt(v) >= c.t ==>
      var noted := Noted(c.seen, v.messages[..Min(|v.messages|, 64)]);
      Patched(c, Sync(v), user).seen == noted[Max(0, |noted| - 64)..]
  {
    SyncTimeMeans(v);
    SeenStep(c, Sync(v), user);
  }

  lemma SyncFlagsMean(c: Chat, v: Conversation, user: string)
    requires !(0 < c.deletedAt && SyncedAt(v) <= c.deletedAt)
    ensures var d, t := Patched(c, Sync(v), user), SyncedAt(v);
      && (v.archived.Some? && t >= c.archiveAt ==> d.archived == v.archived.value && d.archiveAt == t)
      && (v.archived == None || t < c.archiveAt ==> d.archived == c.archived && d.archiveAt == c.archiveAt)
      && (v.pinned.Some? && t >= c.pinAt ==> d.pinned == v.pinned.value && d.pinAt == t)
      && (v.pinned == None || t < c.pinAt ==> d.pinned == c.pinned && d.pinAt == c.pinAt)
  {
    SyncCuts(c, v, user);
    var named, counted := SyncStages(c, v, user);
    CountedMeans(named, v);
    FlaggedMeans(counted, v);
  }

  /**
   Its name, or the display name without one, replaces a name that is only the address, and any name if the sync
   is no older than the chat's activity.
   */
  lemma SyncNameMeans(c: Chat, v: Conversation, user: string)
    requires !(0 < c.deletedAt && SyncedAt(v) <= c.deletedAt)
    ensures var d, given := Patched(c, Sync(v), user).name, if v.name != "" then v.name else v.displayName;
      && (given != "" && (c.name == user || SyncedAt(v) >= c.t) ==> d == Cut(given))
      && (given == "" || (c.name != user && SyncedAt(v) < c.t) ==> d == Cut(c.name))
  {
    SyncCuts(c, v, user);
    var named, counted := SyncStages(c, v, user);
    CountedMeans(named, v);
    FlaggedMeans(counted, v);
  }

  /// Unread messages since

  /** After an accepted read, the count is the number of new messages of others since, and known. */
  lemma UnreadSinceRead(c: Chat, at: int, es: seq<Event>, user: string)
    requires at >= c.readAt && (Listed(c) || c.deletedAt <= at)
    requires var d := Patched(c, MarkRead(true, at), user); Receiving(es) && Timely(d, es)
    ensures var d := Patched(c, MarkRead(true, at), user); var e := PatchAll(d, es, user);
      e.unread == Min(1_000_000, NewMessages(d, es)) && e.unreadKnown && e.readAt == d.readAt == at
  {
    UnreadCountsNewMessages(Patched(c, MarkRead(true, at), user), es, user);
  }

  /** After an accepted deletion, likewise, whether or not a message has brought the chat back. */
  lemma UnreadSinceDeletion(c: Chat, at: int, es: seq<Event>, user: string)
    requires at > c.deletedAt && at >= c.t
    requires var d := Patched(c, DeleteChat(at), user); Receiving(es) && Timely(d, es)
    ensures var d := Patched(c, DeleteChat(at), user); var e := PatchAll(d, es, user);
      e.unread == Min(1_000_000, NewMessages(d, es)) && e.unreadKnown && e.readAt == d.readAt == at
  {
    UnreadCountsNewMessages(Patched(c, DeleteChat(at), user), es, user);
  }

  /** After a history sync that counts, the new ones come on top of its own number. */
  lemma UnreadSinceSync(c: Chat, v: Conversation, es: seq<Event>, user: string)
    requires v.unread.Some? && SyncedAt(v) >= c.t && SyncedAt(v) >= c.readAt
    requires Sane(c) && (Listed(c) || SyncedAt(v) > c.deletedAt)
    requires var d := Patched(c, Sync(v), user); Receiving(es) && Timely(d, es)
    ensures var d := Patched(c, Sync(v), user); var e := PatchAll(d, es, user);
      e.unread == Max(v.unread.value, Min(1_000_000, v.unread.value + NewMessages(d, es))) && e.unreadKnown
  {
    SyncMeans(c, v, user);
    UnreadCountsNewMessages(Patched(c, Sync(v), user), es, user);
  }
}
