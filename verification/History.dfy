/**
 The bounded message archive (internal/history/store.go): its tables, and the meaning of inserting
 and pruning as functions.  HistoryStore.dfy carries the operations out step by step.
 */
module History {
  import opened Prelude

  /** time.Time.Unix. */
  function Unix(t: int): int {
    t / SECOND
  }

  /** A JSON document kept as text; updatedAt is its '$.updatedAt', if any. */
  datatype Json = Json(text: seq<byte>, updatedAt: Option<int>)

  datatype Message = Message(
    seqNo: nat, chat: string, id: string, sender: string, fromMe: bool, t: int,
    read: bool, deleted: bool, edited: bool, content: Json, protocol: seq<byte>, bytes: nat)

  datatype VoteKey = VoteKey(chat: string, poll: string, voter: string)

  datatype Vote = Vote(updated: int, choices: seq<string>)

  datatype ReceiptKey = ReceiptKey(chat: string, id: string, sender: string, kind: string)

  /** An empty message means that the label is on the whole chat. */
  datatype LinkKey = LinkKey(labelId: string, chat: string, message: string)

  datatype Link = Link(active: bool, updated: int)

  /** history_messages in ascending sequence order, the history_stats row, and the dependent tables. */
  datatype Tables = Tables(
    msgs: seq<Message>, n: int, b: int, lastSeq: nat,
    votes: map<VoteKey, Vote>, receipts: map<ReceiptKey, int>, links: map<LinkKey, Link>)

  const EMPTY := Tables([], 0, 0, 0, map[], map[], map[])

  datatype Options = Options(retention: int, maxMessages: int, maxBytes: int)

  /** What Open accepts. */
  predicate ValidOptions(o: Options) {
    && 0 < o.retention <= 365 * 24 * HOUR
    && 1 <= o.maxMessages <= 1_000_000
    && 0x10_0000 <= o.maxBytes <= 10 * 0x4000_0000
  }

  function Size(msgs: seq<Message>): nat {
    if msgs == [] then 0 else msgs[0].bytes + Size(msgs[1..])
  }

  predicate Exists(msgs: seq<Message>, chat: string, id: string) {
    exists m :: m in msgs && m.chat == chat && m.id == id
  }

  ghost predicate Ascending(msgs: seq<Message>) {
    forall i, j :: 0 <= i < j < |msgs| ==> msgs[i].seqNo < msgs[j].seqNo
  }

  ghost predicate UniqueIds(msgs: seq<Message>) {
    forall i, j :: 0 <= i < j < |msgs| ==> msgs[i].chat != msgs[j].chat || msgs[i].id != msgs[j].id
  }

  /** The constraints of the schema, and trigger totals that agree with the rows. */
  ghost predicate WellFormed(t: Tables) {
    && Ascending(t.msgs) && UniqueIds(t.msgs)
    && (forall i :: 0 <= i < |t.msgs| ==> 1 <= t.msgs[i].seqNo <= t.lastSeq)
    && t.n == |t.msgs| && t.b == Size(t.msgs)
  }

  /// Prune

  function Cutoff(o: Options, now: int): int {
    Unix(now - o.retention)
  }

  /** Complement of DELETE FROM history_messages WHERE t < cutoff. */
  function Recent(msgs: seq<Message>, cutoff: int): seq<Message> {
    if msgs == [] then []
    else if msgs[0].t < cutoff then Recent(msgs[1..], cutoff)
    else [msgs[0]] + Recent(msgs[1..], cutoff)
  }

  /**
   Complement of the window-function DELETE: a row stays if it and all newer rows number at most
   `keep` and weigh at most `budget`.
   */
  function InWindow(msgs: seq<Message>, keep: int, budget: int): seq<Message> {
    if msgs == [] then []
    else if |msgs| > keep || Size(msgs) > budget then InWindow(msgs[1..], keep, budget)
    else [msgs[0]] + InWindow(msgs[1..], keep, budget)
  }

  function Keep(o: Options): int {
    Max(1, o.maxMessages * 95 / 100)
  }

  function Budget(o: Options): int {
    o.maxBytes * 95 / 100
  }

  /** Votes, receipts and message labels follow their message. */
  function DropOrphans(t: Tables): Tables {
    t.(votes := map k | k in t.votes && Exists(t.msgs, k.chat, k.poll) :: t.votes[k],
       receipts := map k | k in t.receipts && Exists(t.msgs, k.chat, k.id) :: t.receipts[k],
       links := map k | k in t.links && (k.message == "" || Exists(t.msgs, k.chat, k.message)) :: t.links[k])
  }

  /** A DELETE on the messages with its trigger. */
  function Shrink(t: Tables, msgs: seq<Message>): Tables {
    t.(msgs := msgs, n := t.n - (|t.msgs| - |msgs|), b := t.b - (Size(t.msgs) - Size(msgs)))
  }

  function Prune(t: Tables, o: Options, now: int): Tables {
    var x := Shrink(t, Recent(t.msgs, Cutoff(o, now)));
    DropOrphans(if x.n > o.maxMessages || x.b > o.maxBytes then Shrink(x, InWindow(x.msgs, Keep(o), Budget(o))) else x)
  }

  /// Put

  const MAX_PART := 0x4_0000

  datatype PutError = InvalidIdentity | TooLarge | Unencodable

  /**
   `stamp` is the message's own time in seconds, None when it is zero; `message` is None when there
   is nothing to keep; the JSON rendering may fail.  The clock is read again when pruning.
   */
  datatype PutArgs = PutArgs(
    id: string, chat: string, chatValid: bool, sender: string, fromMe: bool, stamp: Option<int>,
    message: Option<seq<byte>>, json: Option<seq<byte>>, now: int, pruneAt: int)

  predicate ValidId(v: string) {
    v != "" && |v| <= 256 && '\0' !in v && '\r' !in v && '\n' !in v
  }

  /** A missing time, or one more than a day ahead, is replaced by the clock. */
  function PutTime(a: PutArgs): int {
    if a.stamp == None || a.stamp.value > Unix(a.now + 24 * HOUR) then Unix(a.now) else a.stamp.value
  }

  /** INSERT ... ON CONFLICT(chat,id) DO NOTHING, with its trigger. */
  function Insert(t: Tables, a: PutArgs): Tables
    requires a.message.Some? && a.json.Some?
  {
    if Exists(t.msgs, a.chat, a.id) then t
    else
      var size := |a.message.value| + |a.json.value|;
      var m := Message(t.lastSeq + 1, a.chat, a.id, a.sender, a.fromMe, PutTime(a), a.fromMe, false, false,
                       Json(a.json.value, None), a.message.value, size);
      t.(msgs := t.msgs + [m], n := t.n + 1, b := t.b + size, lastSeq := t.lastSeq + 1)
  }

  function Put(t: Tables, o: Options, a: PutArgs): Result<Tables, PutError> {
    if !ValidId(a.id) || !a.chatValid then Err(InvalidIdentity)
    else if a.message == None then Ok(t)
    else if |a.message.value| > MAX_PART then Err(TooLarge)
    else if a.json == None then Err(Unencodable)
    else if |a.json.value| > MAX_PART then Err(TooLarge)
    else Ok(Prune(Insert(t, a), o, a.pruneAt))
  }

  /// Facts about sequences of messages

  lemma {:induction false} SizeConcat(a: seq<Message>, b: seq<Message>)
    ensures Size(a + b) == Size(a) + Size(b)
  {
    if a == [] {
      assert a + b == b;
    } else {
      SizeConcat(a[1..], b);
      assert (a + b)[1..] == a[1..] + b;
    }
  }

  lemma SizeSnoc(a: seq<Message>, m: Message)
    ensures Size(a + [m]) == Size(a) + m.bytes
  {
    SizeConcat(a, [m]);
    assert [m][1..] == [];
  }

  lemma Tail(msgs: seq<Message>)
    requires msgs != [] && Ascending(msgs) && UniqueIds(msgs)
    ensures Ascending(msgs[1..]) && UniqueIds(msgs[1..])
    ensures forall x :: x in msgs[1..] ==> msgs[0].seqNo < x.seqNo && (msgs[0].chat != x.chat || msgs[0].id != x.id)
  {
  }

  lemma Prepend(m: Message, msgs: seq<Message>)
    requires Ascending(msgs) && UniqueIds(msgs)
    requires forall x :: x in msgs ==> m.seqNo < x.seqNo && (m.chat != x.chat || m.id != x.id)
    ensures Ascending([m] + msgs) && UniqueIds([m] + msgs)
  {
  }

  lemma {:induction false} RecentMembers(msgs: seq<Message>, cutoff: int)
    ensures forall m :: m in Recent(msgs, cutoff) <==> m in msgs && m.t >= cutoff
  {
    if msgs == [] {
    } else {
      RecentMembers(msgs[1..], cutoff);
      assert msgs == [msgs[0]] + msgs[1..];
    }
  }

  lemma {:induction false} RecentOrder(msgs: seq<Message>, cutoff: int)
    requires Ascending(msgs) && UniqueIds(msgs)
    ensures Ascending(Recent(msgs, cutoff)) && UniqueIds(Recent(msgs, cutoff))
  {
    if msgs == [] {
    } else {
      Tail(msgs);
      RecentOrder(msgs[1..], cutoff);
      RecentMembers(msgs[1..], cutoff);
      if msgs[0].t >= cutoff {
        Prepend(msgs[0], Recent(msgs[1..], cutoff));
      }
    }
  }

  lemma {:induction false} RecentSnoc(msgs: seq<Message>, m: Message, cutoff: int)
    ensures Recent(msgs + [m], cutoff) == Recent(msgs, cutoff) + (if m.t < cutoff then [] else [m])
  {
    if msgs == [] {
      assert msgs + [m] == [m] && [m][1..] == [];
    } else {
      RecentSnoc(msgs[1..], m, cutoff);
      assert (msgs + [m])[1..] == msgs[1..] + [m];
    }
  }

  /**
   The survivors of the window delete are a run of the newest rows: within both bounds, and the
   longest such run.
   */
  lemma {:induction false} WindowIsLongestSuffix(msgs: seq<Message>, keep: int, budget: int) returns (k: nat)
    requires keep >= 0 && budget >= 0
    ensures k <= |msgs| && InWindow(msgs, keep, budget) == msgs[k..]
    ensures |msgs[k..]| <= keep && Size(msgs[k..]) <= budget
    ensures forall j :: 0 <= j < k ==> |msgs[j..]| > keep || Size(msgs[j..]) > budget
  {
    if msgs == [] {
      k := 0;
    } else if |msgs| > keep || Size(msgs) > budget {
      var rest := WindowIsLongestSuffix(msgs[1..], keep, budget);
      k := rest + 1;
      forall j | 0 <= j < k ensures |msgs[j..]| > keep || Size(msgs[j..]) > budget {
        if j == 0 { assert msgs[0..] == msgs; } else { assert msgs[j..] == msgs[1..][j - 1..]; }
      }
      assert msgs[k..] == msgs[1..][rest..];
    } else {
      k := 0;
      WindowKeepsAll(msgs, keep, budget);
      assert msgs[0..] == msgs;
    }
  }

  lemma {:induction false} WindowKeepsAll(msgs: seq<Message>, keep: int, budget: int)
    requires |msgs| <= keep && Size(msgs) <= budget
    ensures InWindow(msgs, keep, budget) == msgs
  {
    if msgs == [] {
    } else {
      WindowKeepsAll(msgs[1..], keep, budget);
    }
  }

  /// What pruning and inserting guarantee

  lemma PruneCuts(t: Tables, o: Options, now: int) returns (k: nat)
    requires WellFormed(t) && ValidOptions(o)
    ensures var x, recent := Prune(t, o, now), Recent(t.msgs, Cutoff(o, now));
      && WellFormed(x) && x.n <= o.maxMessages && x.b <= o.maxBytes && x.lastSeq == t.lastSeq
      && k <= |recent| && x.msgs == recent[k..]
      && (if |recent| > o.maxMessages || Size(recent) > o.maxBytes then
            && |recent[k..]| <= Keep(o) && Size(recent[k..]) <= Budget(o)
            && (forall j :: 0 <= j < k ==> |recent[j..]| > Keep(o) || Size(recent[j..]) > Budget(o))
          else k == 0)
  {
    var recent := Recent(t.msgs, Cutoff(o, now));
    if |recent| > o.maxMessages || Size(recent) > o.maxBytes {
      k := WindowIsLongestSuffix(recent, Keep(o), Budget(o));
    } else {
      k := 0;
      assert recent[0..] == recent;
    }
    SuffixWellFormed(t, Cutoff(o, now), k);
  }

  /**
   After a prune the totals are true and within both limits.  Survivors are the in-retention rows;
   and when a quota fires, exactly the longest newest-first run within 95 % of each limit.
   */
  lemma PruneExactly(t: Tables, o: Options, now: int) returns (recent: seq<Message>, k: nat)
    requires WellFormed(t) && ValidOptions(o)
    ensures Ascending(recent) && forall m :: m in recent <==> m in t.msgs && (now - o.retention) / 1_000_000_000 <= m.t
    ensures var x := Prune(t, o, now);
      var keep, budget := Max(1, o.maxMessages * 95 / 100), o.maxBytes * 95 / 100;
      && WellFormed(x)
      && x.n <= o.maxMessages && x.b <= o.maxBytes
      && k <= |recent| && x.msgs == recent[k..]
      && (if |recent| > o.maxMessages || Size(recent) > o.maxBytes then
            && |recent[k..]| <= keep && Size(recent[k..]) <= budget
            && (forall j :: 0 <= j < k ==> |recent[j..]| > keep || Size(recent[j..]) > budget)
          else k == 0)
  {
    recent := Recent(t.msgs, Cutoff(o, now));
    RecentMembers(t.msgs, Cutoff(o, now));
    RecentOrder(t.msgs, Cutoff(o, now));
    k := PruneCuts(t, o, now);
  }

  lemma SuffixWellFormed(t: Tables, cutoff: int, k: nat)
    requires WellFormed(t) && k <= |Recent(t.msgs, cutoff)|
    ensures WellFormed(Shrink(t, Recent(t.msgs, cutoff)[k..]))
  {
    var kept := Recent(t.msgs, cutoff)[k..];
    RecentMembers(t.msgs, cutoff);
    RecentOrder(t.msgs, cutoff);
    forall i | 0 <= i < |kept| ensures 1 <= kept[i].seqNo <= t.lastSeq {
      assert kept[i] in Recent(t.msgs, cutoff);
    }
  }

  /** Nothing hangs in the air after a prune, and what still has its message is untouched. */
  lemma PruneDropsOrphans(t: Tables, o: Options, now: int)
    ensures var x := Prune(t, o, now);
      && (forall k :: k in x.votes <==> k in t.votes && Exists(x.msgs, k.chat, k.poll))
      && (forall k :: k in x.votes ==> x.votes[k] == t.votes[k])
      && (forall k :: k in x.receipts <==> k in t.receipts && Exists(x.msgs, k.chat, k.id))
      && (forall k :: k in x.receipts ==> x.receipts[k] == t.receipts[k])
      && (forall k :: k in x.links <==> k in t.links && (k.message == "" || Exists(x.msgs, k.chat, k.message)))
      && (forall k :: k in x.links ==> x.links[k] == t.links[k])
  {
  }

  lemma InsertWellFormed(t: Tables, a: PutArgs)
    requires WellFormed(t) && a.message.Some? && a.json.Some?
    ensures WellFormed(Insert(t, a))
  {
    if !Exists(t.msgs, a.chat, a.id) {
      var x := Insert(t, a);
      SizeSnoc(t.msgs, x.msgs[|t.msgs|]);
      forall i | 0 <= i < |t.msgs| ensures t.msgs[i].chat != a.chat || t.msgs[i].id != a.id {
        assert t.msgs[i] in t.msgs;
      }
    }
  }

  /**
   When a Put fails, and why: bad identity, then a protocol message of more than 256 KiB, one that cannot
   be rendered, or whose rendering is larger than that; with nothing to keep it succeeds without effect.
   */
  lemma PutOutcome(t: Tables, o: Options, a: PutArgs)
    ensures var r := Put(t, o, a);
      var named := 1 <= |a.id| <= 256 && (forall c :: c in a.id ==> c !in "\0\r\n") && a.chatValid;
      && (r == Err(InvalidIdentity) <==> !named)
      && (named && a.message == None ==> r == Ok(t))
      && (named && a.message != None ==>
            var small := |a.message.value| <= 262_144;
            && (r == Err(Unencodable) <==> small && a.json == None)
            && (r == Err(TooLarge) <==> !small || (a.json != None && |a.json.value| > 262_144)))
  {
    assert forall i :: 0 <= i < |a.id| ==> a.id[i] in a.id;
  }

  lemma LastSurvives(recent: seq<Message>, m: Message, k: nat, keep: int, budget: int)
    requires recent != [] && recent[|recent| - 1] == m && keep >= 1 && m.bytes <= budget && k <= |recent|
    requires k == 0 || forall j :: 0 <= j < k ==> |recent[j..]| > keep || Size(recent[j..]) > budget
    ensures k < |recent| && recent[k..] != [] && recent[k..][|recent[k..]| - 1] == m
  {
    var last := |recent| - 1;
    assert recent[last..] == [m] && [m][1..] == [];
    assert Size(recent[last..]) == m.bytes;
  }

  /** A newest row in retention, of at most 512 KiB, survives every prune. */
  lemma NewestStays(t: Tables, o: Options, now: int, m: Message, older: seq<Message>)
    requires WellFormed(t) && ValidOptions(o) && t.msgs == older + [m]
    requires m.t >= Cutoff(o, now) && m.bytes <= 2 * MAX_PART
    ensures var x := Prune(t, o, now);
      && WellFormed(x) && x.n <= o.maxMessages && x.b <= o.maxBytes && x.lastSeq == t.lastSeq
      && x.msgs != [] && x.msgs[|x.msgs| - 1] == m
  {
    var recent := Recent(t.msgs, Cutoff(o, now));
    assert recent == Recent(older, Cutoff(o, now)) + [m] by {
      RecentSnoc(older, m, Cutoff(o, now));
    }
    var k := PruneCuts(t, o, now);
    var keep, budget := Keep(o), Budget(o);
    assert keep >= 1 && m.bytes <= budget;
    assert k == 0 || forall j :: 0 <= j < k ==> |recent[j..]| > keep || Size(recent[j..]) > budget;
    LastSurvives(recent, m, k, keep, budget);
  }

  /** The row a new message gets. */
  lemma InsertedRow(t: Tables, a: PutArgs) returns (m: Message)
    requires a.message.Some? && a.json.Some? && !Exists(t.msgs, a.chat, a.id)
    ensures var now := a.now / 1_000_000_000;
      PutTime(a) == if a.stamp == None || a.stamp.value > now + 86_400 then now else a.stamp.value
    ensures Insert(t, a).msgs == t.msgs + [m] && Insert(t, a).lastSeq == t.lastSeq + 1
    ensures m == Message(t.lastSeq + 1, a.chat, a.id, a.sender, a.fromMe, PutTime(a), a.fromMe, false, false,
                         Json(a.json.value, None), a.message.value, |a.json.value| + |a.message.value|)
  {
    m := Insert(t, a).msgs[|t.msgs|];
  }

  /**
   A successful Put of a message not yet archived and still in retention leaves it in the archive,
   as its newest row, whatever the quotas evict: its at most 512 KiB fit in 95 % of 1 MiB.  It carries its
   own time, or that of the clock if it has none or one more than a day ahead, and is read if it is one's own.
   */
  lemma PutKeepsTheNewMessage(t: Tables, o: Options, a: PutArgs)
    requires WellFormed(t) && ValidOptions(o)
    requires Put(t, o, a).Ok? && a.message.Some? && !Exists(t.msgs, a.chat, a.id)
    requires PutTime(a) >= (a.pruneAt - o.retention) / 1_000_000_000
    ensures var now := a.now / 1_000_000_000;
      PutTime(a) == if a.stamp == None || a.stamp.value > now + 86_400 then now else a.stamp.value
    ensures var x := Put(t, o, a).value;
      && WellFormed(x) && x.n <= o.maxMessages && x.b <= o.maxBytes
      && x.msgs != [] && var m := x.msgs[|x.msgs| - 1];
      && m.chat == a.chat && m.id == a.id && m.seqNo == t.lastSeq + 1 == x.lastSeq
      && m.sender == a.sender && m.fromMe == a.fromMe && m.t == PutTime(a) && (m.read <==> a.fromMe)
      && !m.deleted && !m.edited && m.content == Json(a.json.value, None) && m.protocol == a.message.value
      && m.bytes == |a.json.value| + |a.message.value|
  {
    var x := Insert(t, a);
    InsertWellFormed(t, a);
    var m := InsertedRow(t, a);
    NewestStays(x, o, a.pruneAt, m, t.msgs);
  }

  /** A message already archived is not overwritten; at most pruning takes it. */
  lemma PutNeverOverwrites(t: Tables, o: Options, a: PutArgs)
    requires WellFormed(t) && ValidOptions(o) && Put(t, o, a).Ok?
    ensures var x := Put(t, o, a).value;
      forall m :: m in x.msgs ==> m in t.msgs || (m.seqNo == t.lastSeq + 1 && !Exists(t.msgs, a.chat, a.id))
  {
    if a.message.Some? {
      var y := Insert(t, a);
      InsertWellFormed(t, a);
      RecentMembers(y.msgs, Cutoff(o, a.pruneAt));
      var k := PruneCuts(y, o, a.pruneAt);
    }
  }
}
