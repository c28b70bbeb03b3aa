/**
 The archive as an object: history.Store's operations carried out statement by statement, amid what others commit in
 between, and proved to have the effects History.dfy, HistoryRuns.dfy, HistoryChanges.dfy and Polls.dfy define. */
module HistoryStore {
  import opened Prelude
  import opened History
  import opened HistoryPaging
  import opened HistoryChanges
  import opened HistoryRuns
  import M = HistoryMarks
  import Polls

  lemma {:induction false} OthersSnoc(msgs: seq<Message>, m: Message, chat: string)
    ensures Others(msgs + [m], chat) == Others(msgs, chat) + (if chat == "" || m.chat == chat then [] else [m])
  {
    if msgs == [] {
      assert msgs + [m] == [m] && [m][1..] == [];
    } else {
      OthersSnoc(msgs[1..], m, chat);
      assert (msgs + [m])[1..] == msgs[1..] + [m];
    }
  }

  lemma SizeSplit(msgs: seq<Message>, i: nat)
    requires i < |msgs|
    ensures Size(msgs[..i + 1]) == Size(msgs[..i]) + msgs[i].bytes
  {
    assert msgs[..i + 1] == msgs[..i] + [msgs[i]];
    SizeSnoc(msgs[..i], msgs[i]);
  }

  lemma WeightSnoc(wire: Message -> nat, ms: seq<Message>, k: nat)
    requires k < |ms|
    ensures Weight(wire, ms[..k + 1]) == Weight(wire, ms[..k]) + wire(ms[k])
  {
    assert ms[..k + 1][..k] == ms[..k];
  }

  lemma CutByWeight(wire: Message -> nat, found: seq<Message>, limit: nat, k: nat)
    requires 0 < k < |found| && k <= limit
    requires k > 1 ==> Weight(wire, found[..k]) <= RESPONSE_CAP
    requires Weight(wire, found[..k]) + wire(found[k]) > RESPONSE_CAP
    ensures IsPage(wire, found, limit, Page(found[..k], found[k - 1].seqNo))
  {
  }

  lemma CutByLimit(wire: Message -> nat, found: seq<Message>, limit: nat, top: nat)
    requires limit > 0 && top == (if |found| < limit + 1 then |found| else limit + 1)
    requires top > 1 ==> Weight(wire, found[..top]) <= RESPONSE_CAP
    ensures top > limit ==> IsPage(wire, found, limit, Page(found[..limit], found[limit - 1].seqNo))
    ensures top <= limit ==> IsPage(wire, found, limit, Page(found[..top], 0))
  {
    if top > limit {
      WeightSnoc(wire, found, limit);
    }
  }

  lemma {:induction false} ReviseRowsSnoc(msgs: seq<Message>, i: nat, chat: string, id: string, c: Change)
    requires i < |msgs|
    ensures ReviseRows(msgs[..i + 1], chat, id, c) ==
      ReviseRows(msgs[..i], chat, id, c) + [if IsAt(msgs[i], chat, id) then Revise(msgs[i], c) else msgs[i]]
  {
    if i > 0 {
      ReviseRowsSnoc(msgs[1..], i - 1, chat, id, c);
      assert msgs[..i + 1][1..] == msgs[1..][..i] && msgs[..i][1..] == msgs[1..][..i - 1];
    } else {
      assert msgs[..1][1..] == [];
    }
  }

  class Store {
    var msgs: seq<Message>
    var n: int
    var b: int
    var lastSeq: nat
    var votes: map<VoteKey, Vote>
    var receipts: map<ReceiptKey, int>
    var links: map<LinkKey, Link>
    const options: Options

    function Model(): Tables
      reads this
    {
      Tables(msgs, n, b, lastSeq, votes, receipts, links)
    }

    constructor (options: Options)
      ensures Model() == EMPTY && this.options == options
    {
      this.options := options;
      msgs, n, b, lastSeq := [], 0, 0, 0;
      votes, receipts, links := map[], map[], map[];
    }

    method Commit(t: Tables)
      modifies this
      ensures Model() == t
    {
      msgs, n, b, lastSeq := t.msgs, t.n, t.b, t.lastSeq;
      votes, receipts, links := t.votes, t.receipts, t.links;
    }

    /** The retention DELETE with its trigger, row by row. */
    static method DeleteOld(t: Tables, cutoff: int) returns (x: Tables)
      ensures x == Shrink(t, Recent(t.msgs, cutoff))
    {
      var kept, n, b := [], t.n, t.b;
      for i := 0 to |t.msgs|
        invariant kept == Recent(t.msgs[..i], cutoff)
        invariant n == t.n - (i - |kept|)
        invariant b == t.b - (Size(t.msgs[..i]) - Size(kept))
      {
        RecentSnoc(t.msgs[..i], t.msgs[i], cutoff);
        assert t.msgs[..i + 1] == t.msgs[..i] + [t.msgs[i]];
        SizeSplit(t.msgs, i);
        SizeSnoc(kept, t.msgs[i]);
        if t.msgs[i].t < cutoff {
          n, b := n - 1, b - t.msgs[i].bytes;
        } else {
          kept := kept + [t.msgs[i]];
        }
      }
      assert t.msgs[..|t.msgs|] == t.msgs;
      x := t.(msgs := kept, n := n, b := b);
    }

    /** The window DELETE: running count and total from the newest row down. */
    static method DeleteOverflow(t: Tables, keep: int, budget: int) returns (x: Tables)
      ensures x == Shrink(t, InWindow(t.msgs, keep, budget))
    {
      var kept, n, b := [], t.n, t.b;
      var count, total, i := 0, 0, |t.msgs|;
      while i > 0
        invariant 0 <= i <= |t.msgs|
        invariant kept == InWindow(t.msgs[i..], keep, budget)
        invariant count == |t.msgs[i..]| && total == Size(t.msgs[i..])
        invariant n == t.n - (count - |kept|)
        invariant b == t.b - (total - Size(kept))
      {
        i := i - 1;
        var m := t.msgs[i];
        assert t.msgs[i..][1..] == t.msgs[i + 1..];
        assert ([m] + kept)[1..] == kept;
        count, total := count + 1, total + m.bytes;
        if count > keep || total > budget {
          n, b := n - 1, b - m.bytes;
        } else {
          kept := [m] + kept;
        }
      }
      assert t.msgs[0..] == t.msgs;
      x := t.(msgs := kept, n := n, b := b);
    }

    /** prune, inside a transaction. */
    static method PruneTables(t: Tables, o: Options, now: int) returns (x: Tables)
      ensures x == History.Prune(t, o, now)
    {
      x := DeleteOld(t, Cutoff(o, now));
      if x.n > o.maxMessages || x.b > o.maxBytes {
        x := DeleteOverflow(x, Keep(o), Budget(o));
      }
      x := DropOrphans(x);
    }

    method Prune(now: int)
      modifies this
      ensures Model() == History.Prune(old(Model()), options, now)
    {
      var x := PruneTables(Model(), options, now);
      Commit(x);
    }

    method Put(a: PutArgs) returns (r: Option<PutError>)
      modifies this
      ensures match History.Put(old(Model()), options, a)
        case Err(e) => r == Some(e) && Model() == old(Model())
        case Ok(t) => r == None && Model() == t
    {
      if !ValidId(a.id) || !a.chatValid {
        return Some(InvalidIdentity);
      }
      if a.message == None {
        return None;
      }
      if |a.message.value| > MAX_PART {
        return Some(PutError.TooLarge);
      }
      if a.json == None {
        return Some(PutError.Unencodable);
      }
      if |a.json.value| > MAX_PART {
        return Some(PutError.TooLarge);
      }
      var x := PruneTables(Insert(Model(), a), options, a.pruneAt);
      Commit(x);
      r := None;
    }

    /** A newest-first page of matching rows; `wire` is the length of a record's JSON. */
    method List(q: Query, now: int, wire: Message -> nat) returns (r: Result<Page, ListError>)
      ensures r.Ok? <==> ValidQuery(q)
      ensures ValidQuery(q) <==> 0 <= q.limit <= 200 && q.before >= 0 && (q.chat != "" ==> q.chatValid)
      ensures ValidQuery(q) ==> Limit(q) == if q.limit == 0 then 50 else q.limit
      ensures r.Ok? ==> IsPage(wire, Newest(msgs, q, Cutoff(options, now)), Limit(q), r.value)
    {
      var limit := q.limit;
      if limit == 0 {
        limit := 50;
      }
      if limit < 1 || limit > 200 || q.before < 0 {
        return Err(BadLimit);
      }
      if q.chat != "" && !q.chatValid {
        return Err(BadChat);
      }
      var found := Newest(msgs, q, Cutoff(options, now));
      var page := Fill(found, limit, wire);
      r := Ok(page);
    }

    /** The loop over at most limit + 1 rows, and the cut to the limit. */
    static method Fill(found: seq<Message>, limit: nat, wire: Message -> nat) returns (page: Page)
      requires limit > 0
      ensures IsPage(wire, found, limit, page)
    {
      var top := if |found| < limit + 1 then |found| else limit + 1;
      var out, bytes, next, i := [], 0, 0, 0;
      while i < top
        invariant 0 <= i <= top && out == found[..i]
        invariant bytes == Weight(wire, out) && next == 0
        invariant i > 1 ==> bytes <= RESPONSE_CAP
      {
        if |out| > 0 && bytes + wire(found[i]) > RESPONSE_CAP {
          CutByWeight(wire, found, limit, i);
          return Page(out, out[|out| - 1].seqNo);
        }
        WeightSnoc(wire, found, i);
        bytes := bytes + wire(found[i]);
        out := out + [found[i]];
        i := i + 1;
      }
      CutByLimit(wire, found, limit, top);
      if |out| > limit {
        assert out[..limit] == found[..limit];
        out := out[..limit];
        next := out[limit - 1].seqNo;
      }
      page := Page(out, next);
    }

    /** The UPDATE with its trigger on the byte total, row by row. */
    static method ReviseEach(rows: seq<Message>, b: int, chat: string, id: string, c: Change)
      returns (out: seq<Message>, total: int)
      ensures out == ReviseRows(rows, chat, id, c)
      ensures total == b - Size(rows) + Size(out)
    {
      out, total := [], b;
      for i := 0 to |rows|
        invariant out == ReviseRows(rows[..i], chat, id, c)
        invariant total == b - Size(rows[..i]) + Size(out)
      {
        var m := rows[i];
        SizeSplit(rows, i);
        ReviseRowsSnoc(rows, i, chat, id, c);
        if IsAt(m, chat, id) {
          var revised := Revise(m, c);
          total := total - m.bytes + revised.bytes;
          m := revised;
        }
        SizeSnoc(out, m);
        out := out + [m];
      }
      assert rows[..|rows|] == rows;
    }

    method UpdateRow(chat: string, id: string, c: Change)
      modifies this`msgs, this`b
      ensures Model() == Update(old(Model()), chat, id, c)
    {
      msgs, b := ReviseEach(msgs, b, chat, id, c);
    }

    /** The DELETE of Purge on the messages with its trigger, row by row. */
    static method DeleteMessages(t: Tables, chat: string) returns (x: Tables)
      ensures x == Shrink(t, Others(t.msgs, chat))
    {
      var kept, n, b := [], t.n, t.b;
      for i := 0 to |t.msgs|
        invariant kept == Others(t.msgs[..i], chat)
        invariant n == t.n - (i - |kept|)
        invariant b == t.b - (Size(t.msgs[..i]) - Size(kept))
      {
        OthersSnoc(t.msgs[..i], t.msgs[i], chat);
        assert t.msgs[..i + 1] == t.msgs[..i] + [t.msgs[i]];
        SizeSplit(t.msgs, i);
        SizeSnoc(kept, t.msgs[i]);
        if chat == "" || t.msgs[i].chat == chat {
          n, b := n - 1, b - t.msgs[i].bytes;
        } else {
          kept := kept + [t.msgs[i]];
        }
      }
      assert t.msgs[..|t.msgs|] == t.msgs;
      x := t.(msgs := kept, n := n, b := b);
    }

    /** A DELETE on a dependent table, row by row. */
    static method DeleteRows<K, V>(rows: map<K, V>, doomed: K -> bool) returns (kept: map<K, V>)
      ensures kept == map k | k in rows && !doomed(k) :: rows[k]
    {
      kept := rows;
      var rest := rows.Keys;
      while rest != {}
        invariant rest <= rows.Keys
        invariant kept == map k | k in rows && (k in rest || !doomed(k)) :: rows[k]
        decreases |rest|
      {
        var k :| k in rest;
        rest := rest - {k};
        if doomed(k) {
          kept := kept - {k};
        }
      }
    }

    method Purge(chat: string, chatValid: bool) returns (ok: bool)
      modifies this
      ensures ok <==> chat == "" || chatValid
      ensures Model() == if ok then Purged(old(Model()), chat) else old(Model())
    {
      if chat != "" && !chatValid {
        return false;
      }
      var x := DeleteMessages(Model(), chat);
      var keptVotes := DeleteRows(votes, (k: VoteKey) => chat == "" || k.chat == chat);
      var keptReceipts := DeleteRows(receipts, (k: ReceiptKey) => chat == "" || k.chat == chat);
      var keptLinks := DeleteRows(links, (k: LinkKey) => k.message != "" && (chat == "" || k.chat == chat));
      ghost var purged := Purged(Model(), chat);
      assert keptVotes == purged.votes;
      assert keptReceipts == purged.receipts;
      assert keptLinks == purged.links;
      Commit(x.(votes := keptVotes, receipts := keptReceipts, links := keptLinks));
      ok := true;
    }

    /** One upsert of Receipt: INSERT ... WHERE EXISTS ... ON CONFLICT DO UPDATE SET t=MAX(t,excluded.t). */
    method NoteReceipt(a: M.ReceiptArgs, id: string)
      modifies this`receipts
      ensures Model() == M.NoteOne(old(Model()), a, id)
    {
      var k := M.KeyOf(a, id);
      if ValidId(id) && Exists(msgs, a.chat, id) {
        if k !in receipts || a.at > receipts[k] {
          receipts := receipts[k := a.at];
        }
      }
    }

    method Associate(a: M.LinkArgs) returns (error: Option<M.MarkError>)
      modifies this`links
      ensures match M.Associate(old(Model()), a)
        case Err(e) => error == Some(e) && Model() == old(Model())
        case Ok(t) => error == None && Model() == t
    {
      if !a.valid {
        return Some(M.Invalid);
      }
      if a.k in links {
        if M.LinkOf(a).updated >= links[a.k].updated {
          links := links[a.k := M.LinkOf(a)];
        }
      } else if |links| < M.MAX_LINKS {
        links := links[a.k := M.LinkOf(a)];
      } else {
        return Some(M.QuotaReached);
      }
      error := None;
    }

    /** The upsert of Vote. */
    method StoreVote(k: VoteKey, v: History.Vote) returns (r: Option<Polls.VoteError>)
      modifies this`votes
      ensures match Polls.StoreVote(old(Model()), k, v)
        case Err(e) => r == Some(e) && Model() == old(Model())
        case Ok(t) => r == None && Model() == t
    {
      if k !in votes && |votes| >= Polls.MAX_VOTES {
        return Some(Polls.QuotaReached);
      }
      if k !in votes || v.updated > votes[k].updated {
        votes := votes[k := v];
      }
      r := None;
    }

    method Perform(tx: Tx)
      modifies this
      ensures Model() == Do(old(Model()), options, tx)
    {
      match tx
      case TxPut(a) => var _ := Put(a);
      case TxPrune(now) => Prune(now);
      case TxRevise(chat, id, c) => UpdateRow(chat, id, c);
      case TxPurge(chat) => var _ := Purge(chat, true);
      case TxVote(k, v) => var _ := StoreVote(k, v);
      case TxReceipt(a, id) => NoteReceipt(a, id);
      case TxAssociate(a) => var _ := Associate(a);
    }

    /** What other callers commit between two statements of one operation. */
    method PerformAll(txs: seq<Tx>)
      modifies this
      ensures Model() == DoAll(old(Model()), options, txs)
    {
      for i := 0 to |txs|
        invariant Model() == DoAll(old(Model()), options, txs[..i])
      {
        assert txs[..i + 1][..i] == txs[..i];
        Perform(txs[i]);
      }
      assert txs[..|txs|] == txs;
    }

    /** An edit looks its message up first, and others may commit before its UPDATE; a deletion is one statement. */
    method ChangeAt(
        chat: string, id: string, replacement: Option<Replacement>, at: int, now: int, readAt: int, between: seq<Tx>)
      returns (r: Option<ChangeError>)
      modifies this
      ensures match HistoryChanges.LookUp(old(Model()), options, chat, id, replacement, at, now, readAt)
        case Err(e) => r == Some(e) && Model() == old(Model())
        case Ok(c) =>
          var found := if c.Delete? then old(Model()) else DoAll(old(Model()), options, between);
          r == None && Model() == Update(found, chat, id, c)
    {
      if at <= 0 || at > Milli(now + 24 * HOUR) {
        return Some(BadTimestamp);
      }
      if replacement == None {
        UpdateRow(chat, id, Delete(at));
        return None;
      }
      if !InRetention(Model(), options, chat, id, readAt) {
        return Some(NotFound);
      }
      if |replacement.value.protocol| > MAX_PART {
        return Some(ChangeError.TooLarge);
      }
      if replacement.value.json == None {
        return Some(ChangeError.Unencodable);
      }
      PerformAll(between);
      UpdateRow(chat, id, Edit(at, replacement.value.protocol, replacement.value.json.value));
      r := None;
    }

    /** One statement per message id; others[i] is what others commit before that of id i. */
    method Receipt(a: M.ReceiptArgs, others: seq<seq<Tx>>) returns (ok: bool)
      requires |others| == |a.ids|
      modifies this
      ensures ok <==> |a.ids| <= 1000
      ensures Model() == if ok then NotedAmid(old(Model()), options, a, a.ids, others) else old(Model())
    {
      if |a.ids| > 1000 {
        return false;
      }
      for i := 0 to |a.ids|
        invariant Model() == NotedAmid(old(Model()), options, a, a.ids[..i], others[..i])
      {
        assert a.ids[..i + 1][..i] == a.ids[..i] && others[..i + 1][..i] == others[..i];
        PerformAll(others[i]);
        NoteReceipt(a, a.ids[i]);
      }
      assert a.ids[..|a.ids|] == a.ids && others[..|a.ids|] == others;
      ok := true;
    }

    /** The poll is found and the vote checked first; others may commit before the upsert. */
    method Vote(
        chat: string, poll: string, decode: seq<byte> -> Option<Polls.Ballot>, a: Polls.VoteArgs, now: int,
        between: seq<Tx>)
      returns (r: Option<Polls.VoteError>)
      modifies this
      ensures match Polls.LookUp(old(Model()), options, chat, poll, decode, a, now)
        case Err(e) => r == Some(e) && Model() == old(Model())
        case Ok((k, v)) =>
          match Polls.StoreVote(DoAll(old(Model()), options, between), k, v)
          case Err(e) => r == Some(e) && Model() == DoAll(old(Model()), options, between)
          case Ok(t) => r == None && Model() == t
    {
      var found := Polls.Find(msgs, chat, poll, Cutoff(options, now));
      if found == None {
        return Some(Polls.NotFound);
      }
      var ballot := Polls.PollOf(found.value, decode);
      if ballot == None {
        return Some(Polls.NotAPoll);
      }
      var bad := Polls.CheckStepByStep(ballot.value, a, now);
      if bad.Some? {
        return bad;
      }
      PerformAll(between);
      r := StoreVote(VoteKey(chat, poll, a.voter), History.Vote(a.at, a.selected));
    }
  }
}
