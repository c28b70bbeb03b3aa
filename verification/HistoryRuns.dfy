/**
 The archive over whole runs: its transactions, any number of callers whose edits and votes look a message up in one of
 them and write in a later one, and what stays true whatever comes in between. */
module HistoryRuns {
  import opened Prelude
  import opened History
  import opened HistoryChanges
  import M = HistoryMarks
  import Polls

  function Others(msgs: seq<Message>, chat: string): seq<Message> {
    if msgs == [] then []
    else if chat == "" || msgs[0].chat == chat then Others(msgs[1..], chat)
    else [msgs[0]] + Others(msgs[1..], chat)
  }

  /** Purge: everything of one chat, or of all chats when it is empty; whole-chat labels stay. */
  function Purged(t: Tables, chat: string): Tables {
    Shrink(t, Others(t.msgs, chat)).(
      votes := map k | k in t.votes && chat != "" && k.chat != chat :: t.votes[k],
      receipts := map k | k in t.receipts && chat != "" && k.chat != chat :: t.receipts[k],
      links := map k | k in t.links && (k.message == "" || (chat != "" && k.chat != chat)) :: t.links[k])
  }

  lemma {:induction false} OthersExactly(msgs: seq<Message>, chat: string)
    requires Ascending(msgs) && UniqueIds(msgs)
    ensures forall m :: m in Others(msgs, chat) <==> m in msgs && chat != "" && m.chat != chat
    ensures Ascending(Others(msgs, chat)) && UniqueIds(Others(msgs, chat))
  {
    if msgs == [] {
    } else {
      Tail(msgs);
      OthersExactly(msgs[1..], chat);
      assert msgs == [msgs[0]] + msgs[1..];
      if chat != "" && msgs[0].chat != chat {
        Prepend(msgs[0], Others(msgs[1..], chat));
      }
    }
  }

  /**
   A purge takes all messages, votes, receipts and message labels of its chat, or of every chat when
   none is named; it takes nothing else, no whole-chat label, and changes nothing that stays.
   */
  lemma PurgeExactly(t: Tables, chat: string)
    requires WellFormed(t)
    ensures var x := Purged(t, chat);
      && WellFormed(x) && x.lastSeq == t.lastSeq
      && (forall m :: m in x.msgs <==> m in t.msgs && chat != "" && m.chat != chat)
      && (forall k :: k in x.votes <==> k in t.votes && chat != "" && k.chat != chat)
      && (forall k :: k in x.votes ==> x.votes[k] == t.votes[k])
      && (forall k :: k in x.receipts <==> k in t.receipts && chat != "" && k.chat != chat)
      && (forall k :: k in x.receipts ==> x.receipts[k] == t.receipts[k])
      && (forall k :: k in x.links <==> k in t.links && (k.message == "" || (chat != "" && k.chat != chat)))
      && (forall k :: k in x.links ==> x.links[k] == t.links[k])
  {
    OthersExactly(t.msgs, chat);
    forall i | 0 <= i < |Others(t.msgs, chat)| ensures 1 <= Others(t.msgs, chat)[i].seqNo <= t.lastSeq {
      assert Others(t.msgs, chat)[i] in t.msgs;
    }
  }

  /// Transactions

  /** What is committed at once: a transaction, or a statement outside one. */
  datatype Tx =
    | TxPut(a: PutArgs)
    | TxPrune(now: int)
    | TxRevise(chat: string, id: string, c: Change)
    | TxPurge(chat: string)
    | TxVote(k: VoteKey, v: Vote)
    | TxReceipt(receipt: M.ReceiptArgs, id: string)
    | TxAssociate(link: M.LinkArgs)

  /** A refused transaction changes nothing. */
  function Do(t: Tables, o: Options, tx: Tx): Tables {
    match tx
    case TxPut(a) => (match Put(t, o, a) case Ok(x) => x case Err(_) => t)
    case TxPrune(now) => Prune(t, o, now)
    case TxRevise(chat, id, c) => Update(t, chat, id, c)
    case TxPurge(chat) => Purged(t, chat)
    case TxVote(k, v) => (match Polls.StoreVote(t, k, v) case Ok(x) => x case Err(_) => t)
    case TxReceipt(a, id) => M.NoteOne(t, a, id)
    case TxAssociate(a) => (match M.Associate(t, a) case Ok(x) => x case Err(_) => t)
  }

  function DoAll(t: Tables, o: Options, txs: seq<Tx>): Tables {
    if txs == [] then t else Do(DoAll(t, o, txs[..|txs| - 1]), o, txs[|txs| - 1])
  }

  /** A receipt, one message id after the other, with what others commit before each. */
  function NotedAmid(t: Tables, o: Options, a: M.ReceiptArgs, ids: seq<string>, others: seq<seq<Tx>>): Tables
    requires |ids| == |others|
  {
    if ids == [] then t
    else
      var n := |ids| - 1;
      M.NoteOne(DoAll(NotedAmid(t, o, a, ids[..n], others[..n]), o, others[n]), a, ids[n])
  }

  /** Transactions that end with a prune. */
  predicate Prunes(t: Tables, o: Options, tx: Tx) {
    tx.TxPrune? || (tx.TxPut? && tx.a.message.Some? && Put(t, o, tx.a).Ok?)
  }

  lemma PruningKeeps(t: Tables, o: Options, tx: Tx)
    requires WellFormed(t) && ValidOptions(o) && Prunes(t, o, tx)
    ensures var x := Do(t, o, tx); WellFormed(x) && x.n <= o.maxMessages && x.b <= o.maxBytes
  {
    if tx.TxPut? {
      InsertWellFormed(t, tx.a);
      var k := PruneCuts(Insert(t, tx.a), o, tx.a.pruneAt);
    } else {
      var k := PruneCuts(t, o, tx.now);
    }
  }

  lemma DoWellFormed(t: Tables, o: Options, tx: Tx)
    requires WellFormed(t) && ValidOptions(o)
    ensures WellFormed(Do(t, o, tx))
  {
    if Prunes(t, o, tx) {
      PruningKeeps(t, o, tx);
    } else if tx.TxRevise? {
      ChangeKeepsTotals(t, tx.chat, tx.id, tx.c);
    } else if tx.TxPurge? {
      PurgeExactly(t, tx.chat);
    }
  }

  /**
   After every transaction of every run the stats row equals the real count and byte sum, and
   whenever the last one stored a message or pruned, both are within the configured limits.
   */
  lemma {:induction false} TotalsStayTrue(o: Options, txs: seq<Tx>)
    requires ValidOptions(o)
    ensures WellFormed(DoAll(EMPTY, o, txs))
    ensures txs != [] && Prunes(DoAll(EMPTY, o, txs[..|txs| - 1]), o, txs[|txs| - 1]) ==>
      DoAll(EMPTY, o, txs).n <= o.maxMessages && DoAll(EMPTY, o, txs).b <= o.maxBytes
  {
    if txs == [] {
    } else {
      var t, tx := DoAll(EMPTY, o, txs[..|txs| - 1]), txs[|txs| - 1];
      TotalsStayTrue(o, txs[..|txs| - 1]);
      DoWellFormed(t, o, tx);
      if Prunes(t, o, tx) {
        PruningKeeps(t, o, tx);
      }
    }
  }

  /// Which messages stay

  /** This transaction takes the message away, or might. */
  predicate Clears(t: Tables, o: Options, tx: Tx, chat: string) {
    Prunes(t, o, tx) || (tx.TxPurge? && (tx.chat == "" || tx.chat == chat))
  }

  lemma SameIdsExist(a: seq<Message>, b: seq<Message>, chat: string, id: string)
    requires |a| == |b| && forall i :: 0 <= i < |a| ==> a[i].chat == b[i].chat && a[i].id == b[i].id
    ensures Exists(a, chat, id) ==> Exists(b, chat, id)
  {
    if m :| m in a && m.chat == chat && m.id == id {
      var i :| 0 <= i < |a| && a[i] == m;
      assert b[i] in b;
    }
  }

  lemma PurgeExists(t: Tables, chat: string, other: string, id: string)
    requires WellFormed(t) && chat != "" && other != chat
    ensures Exists(Purged(t, chat).msgs, other, id) <==> Exists(t.msgs, other, id)
  {
    PurgeExactly(t, chat);
    if m :| m in t.msgs && m.chat == other && m.id == id {
      assert m in Purged(t, chat).msgs;
    }
  }

  lemma ReviseExists(t: Tables, tx: Tx, chat: string, id: string)
    requires WellFormed(t) && tx.TxRevise?
    ensures Exists(Update(t, tx.chat, tx.id, tx.c).msgs, chat, id) <==> Exists(t.msgs, chat, id)
  {
    var x := Update(t, tx.chat, tx.id, tx.c);
    ChangeKeepsTotals(t, tx.chat, tx.id, tx.c);
    SameIdsExist(t.msgs, x.msgs, chat, id);
    SameIdsExist(x.msgs, t.msgs, chat, id);
  }

  /** A message goes only by a prune or by a purge of its chat, and comes only with a prune. */
  lemma ExistsStep(t: Tables, o: Options, tx: Tx, chat: string, id: string)
    requires WellFormed(t) && !Clears(t, o, tx, chat)
    ensures Exists(Do(t, o, tx).msgs, chat, id) <==> Exists(t.msgs, chat, id)
  {
    if tx.TxPurge? {
      PurgeExists(t, tx.chat, chat, id);
    } else if tx.TxRevise? {
      ReviseExists(t, tx, chat, id);
    }
  }

  /// Receipts never dangle

  ghost predicate ReceiptsAnchored(t: Tables) {
    forall k :: k in t.receipts ==> Exists(t.msgs, k.chat, k.id)
  }

  lemma PruneLeavesNoneDangling(t: Tables, o: Options, tx: Tx)
    requires Prunes(t, o, tx)
    ensures var x := Do(t, o, tx);
      && (forall k :: k in x.receipts ==> Exists(x.msgs, k.chat, k.id))
      && (forall k :: k in x.votes ==> Exists(x.msgs, k.chat, k.poll))
  {
    if tx.TxPut? {
      PruneDropsOrphans(Insert(t, tx.a), o, tx.a.pruneAt);
    } else {
      PruneDropsOrphans(t, o, tx.now);
    }
  }

  lemma ReceiptsStep(t: Tables, o: Options, tx: Tx)
    requires WellFormed(t) && ReceiptsAnchored(t)
    ensures ReceiptsAnchored(Do(t, o, tx))
  {
    var x := Do(t, o, tx);
    if Prunes(t, o, tx) {
      PruneLeavesNoneDangling(t, o, tx);
    } else if tx.TxPurge? {
      PurgeExactly(t, tx.chat);
      forall k | k in x.receipts ensures Exists(x.msgs, k.chat, k.id) { PurgeExists(t, tx.chat, k.chat, k.id); }
    } else if tx.TxRevise? {
      forall k | k in x.receipts ensures Exists(x.msgs, k.chat, k.id) { ReviseExists(t, tx, k.chat, k.id); }
    }
  }

  /** No receipt ever lacks its message: its statement checks for the message and writes at once. */
  lemma {:induction false} NoReceiptDangles(o: Options, txs: seq<Tx>)
    requires ValidOptions(o)
    ensures ReceiptsAnchored(DoAll(EMPTY, o, txs))
  {
    if txs == [] {
    } else {
      NoReceiptDangles(o, txs[..|txs| - 1]);
      TotalsStayTrue(o, txs[..|txs| - 1]);
      ReceiptsStep(DoAll(EMPTY, o, txs[..|txs| - 1]), o, txs[|txs| - 1]);
    }
  }

  /// Callers that look up first and write later

  datatype Pending = PendingVote(k: VoteKey, v: Vote) | PendingEdit(chat: string, id: string, c: Change)

  datatype System = System(tables: Tables, calls: map<nat, Pending>)

  const START := System(EMPTY, map[])

  datatype Step =
    | Plain(tx: Tx)
    | LookUpVote(call: nat, chat: string, poll: string, ballot: Option<Polls.Ballot>, a: Polls.VoteArgs, now: int)
    | LookUpEdit(call: nat, chat: string, id: string, r: Replacement, at: int, now: int, readAt: int)
    | Write(call: nat)
    | Abandon(call: nat)

  /** Votes and edits are written only by callers that have looked their message up. */
  ghost predicate Enabled(s: System, st: Step) {
    match st
    case Plain(tx) => !tx.TxVote? && !(tx.TxRevise? && tx.c.Edit?)
    case LookUpVote(call, _, _, _, _, _) => call !in s.calls
    case LookUpEdit(call, _, _, _, _, _, _) => call !in s.calls
    case Write(call) => call in s.calls
    case Abandon(call) => call in s.calls
  }

  /** What a step commits. */
  function TxOf(s: System, st: Step): Option<Tx> {
    match st
    case Plain(tx) => Some(tx)
    case Write(call) =>
      if call !in s.calls then None
      else
        (match s.calls[call]
         case PendingVote(k, v) => Some(TxVote(k, v))
         case PendingEdit(chat, id, c) => Some(TxRevise(chat, id, c)))
    case _ => None
  }

  function Called(o: Options, s: System, st: Step): map<nat, Pending> {
    match st
    case LookUpVote(call, chat, poll, ballot, a, now) =>
      (match Polls.LookUp(s.tables, o, chat, poll, _ => ballot, a, now)
       case Err(_) => s.calls
       case Ok((k, v)) => s.calls[call := PendingVote(k, v)])
    case LookUpEdit(call, chat, id, r, at, now, readAt) =>
      (match HistoryChanges.LookUp(s.tables, o, chat, id, Some(r), at, now, readAt)
       case Err(_) => s.calls
       case Ok(c) => s.calls[call := PendingEdit(chat, id, c)])
    case Write(call) => s.calls - {call}
    case Abandon(call) => s.calls - {call}
    case Plain(_) => s.calls
  }

  function Apply(o: Options, s: System, st: Step): System
    requires Enabled(s, st)
  {
    System(match TxOf(s, st) case None => s.tables case Some(tx) => Do(s.tables, o, tx), Called(o, s, st))
  }

  ghost predicate ValidRun(o: Options, s: System, steps: seq<Step>)
    decreases |steps|
  {
    steps == [] || (Enabled(s, steps[0]) && ValidRun(o, Apply(o, s, steps[0]), steps[1..]))
  }

  ghost function Run(o: Options, s: System, steps: seq<Step>): System
    requires ValidRun(o, s, steps)
    decreases |steps|
  {
    if steps == [] then s else Run(o, Apply(o, s, steps[0]), steps[1..])
  }

  lemma {:induction false} DoAllCons(t: Tables, o: Options, tx: Tx, txs: seq<Tx>)
    ensures DoAll(t, o, [tx] + txs) == DoAll(Do(t, o, tx), o, txs)
  {
    if txs == [] {
      assert [tx] + txs == [tx] && [tx][..0] == [];
    } else {
      DoAllCons(t, o, tx, txs[..|txs| - 1]);
      assert ([tx] + txs)[..|txs|] == [tx] + txs[..|txs| - 1];
    }
  }

  /** What any run does to the tables is some list of transactions, so the results on such lists hold of every run. */
  lemma {:induction false} RunCommits(o: Options, s: System, steps: seq<Step>) returns (txs: seq<Tx>)
    requires ValidRun(o, s, steps)
    ensures Run(o, s, steps).tables == DoAll(s.tables, o, txs) && |txs| <= |steps|
    decreases |steps|
  {
    if steps == [] {
      txs := [];
    } else {
      var rest := RunCommits(o, Apply(o, s, steps[0]), steps[1..]);
      var tx := TxOf(s, steps[0]);
      if tx.Some? {
        DoAllCons(s.tables, o, tx.value, rest);
        txs := [tx.value] + rest;
      } else {
        txs := rest;
      }
    }
  }

  lemma StepWellFormed(o: Options, s: System, st: Step)
    requires WellFormed(s.tables) && ValidOptions(o) && Enabled(s, st)
    ensures WellFormed(Apply(o, s, st).tables)
  {
    var tx := TxOf(s, st);
    if tx.Some? { DoWellFormed(s.tables, o, tx.value); }
  }

  /// Stored votes

  ghost predicate VotesChecked(s: System) {
    && Polls.VotesOk(s.tables.votes)
    && forall call :: call in s.calls && s.calls[call].PendingVote? ==> Polls.NoDuplicates(s.calls[call].v.choices)
  }

  lemma DropKeepsVotesOk(votes: map<VoteKey, Vote>, kept: map<VoteKey, Vote>)
    requires Polls.VotesOk(votes)
    requires forall k :: k in kept ==> k in votes && kept[k] == votes[k]
    ensures Polls.VotesOk(kept)
  {
    SubsetSize(kept.Keys, votes.Keys);
    assert |kept| == |kept.Keys| && |votes| == |votes.Keys|;
  }

  lemma DoKeepsVotesOk(t: Tables, o: Options, tx: Tx)
    requires Polls.VotesOk(t.votes) && (tx.TxVote? ==> Polls.NoDuplicates(tx.v.choices))
    ensures Polls.VotesOk(Do(t, o, tx).votes)
  {
    match tx
    case TxVote(k, v) => if Polls.StoreVote(t, k, v).Ok? { Polls.StoreKeepsVotesOk(t, k, v); }
    case TxReceipt(_, _) =>
    case TxAssociate(_) =>
    case TxPut(a) =>
      if Prunes(t, o, tx) { PruneDropsOrphans(Insert(t, a), o, a.pruneAt); }
      DropKeepsVotesOk(t.votes, Do(t, o, tx).votes);
    case TxPrune(now) =>
      PruneDropsOrphans(t, o, now);
      DropKeepsVotesOk(t.votes, Do(t, o, tx).votes);
    case TxPurge(_) => DropKeepsVotesOk(t.votes, Do(t, o, tx).votes);
    case TxRevise(_, _, _) =>
  }

  /** In every run the vote table is what the tally needs: within its quota, and no selection names an option twice. */
  lemma {:induction false} VotesStayOk(o: Options, s: System, steps: seq<Step>)
    requires VotesChecked(s) && ValidRun(o, s, steps)
    ensures VotesChecked(Run(o, s, steps))
    decreases |steps|
  {
    if steps == [] {
    } else {
      var st, tx := steps[0], TxOf(s, steps[0]);
      if tx.Some? { DoKeepsVotesOk(s.tables, o, tx.value); }
      if st.LookUpVote? && Polls.LookUp(s.tables, o, st.chat, st.poll, _ => st.ballot, st.a, st.now).Ok? {
        Polls.LookUpMeans(s.tables, o, st.chat, st.poll, _ => st.ballot, st.a, st.now);
      }
      VotesStayOk(o, Apply(o, s, st), steps[1..]);
    }
  }

  /// Which votes dangle

  predicate Dangles(t: Tables, k: VoteKey) {
    k in t.votes && !Exists(t.msgs, k.chat, k.poll)
  }

  /** The step is admitted to store a vote whose message is not there. */
  predicate StoresBare(s: System, st: Step, k: VoteKey) {
    match TxOf(s, st)
    case Some(TxVote(j, _)) => j == k && Polls.Admits(s.tables.votes, k) && !Exists(s.tables.msgs, k.chat, k.poll)
    case _ => false
  }

  /** The step prunes, or purges the chat of the vote. */
  predicate Sweeps(o: Options, s: System, st: Step, k: VoteKey) {
    TxOf(s, st).Some? && Clears(s.tables, o, TxOf(s, st).value, k.chat)
  }

  ghost predicate EverSweeps(o: Options, s: System, steps: seq<Step>, k: VoteKey)
    requires ValidRun(o, s, steps)
    decreases |steps|
  {
    steps != [] && (Sweeps(o, s, steps[0], k) || EverSweeps(o, Apply(o, s, steps[0]), steps[1..], k))
  }

  /** At some point of the run the vote is stored without its message, and nothing sweeps it away from then on. */
  ghost predicate StoredBareForGood(o: Options, s: System, steps: seq<Step>, k: VoteKey)
    requires ValidRun(o, s, steps)
    decreases |steps|
  {
    steps != [] &&
    (var s' := Apply(o, s, steps[0]);
     (StoresBare(s, steps[0], k) && !EverSweeps(o, s', steps[1..], k)) || StoredBareForGood(o, s', steps[1..], k))
  }

  lemma SweptClean(t: Tables, o: Options, tx: Tx, k: VoteKey)
    requires WellFormed(t) && Clears(t, o, tx, k.chat)
    ensures !Dangles(Do(t, o, tx), k)
  {
    if Prunes(t, o, tx) {
      PruneLeavesNoneDangling(t, o, tx);
    }
  }

  lemma DoDangles(t: Tables, o: Options, tx: Tx, k: VoteKey)
    requires WellFormed(t) && !Clears(t, o, tx, k.chat)
    ensures Dangles(Do(t, o, tx), k) <==>
      Dangles(t, k) || (tx.TxVote? && tx.k == k && Polls.Admits(t.votes, k) && !Exists(t.msgs, k.chat, k.poll))
  {
    ExistsStep(t, o, tx, k.chat, k.poll);
  }

  lemma DanglesStep(o: Options, s: System, st: Step, k: VoteKey)
    requires WellFormed(s.tables) && Enabled(s, st)
    ensures Dangles(Apply(o, s, st).tables, k) <==>
      StoresBare(s, st, k) || (Dangles(s.tables, k) && !Sweeps(o, s, st, k))
  {
    var tx := TxOf(s, st);
    if tx.Some? {
      if Clears(s.tables, o, tx.value, k.chat) {
        SweptClean(s.tables, o, tx.value, k);
      } else {
        DoDangles(s.tables, o, tx.value, k);
      }
    }
  }

  /**
   In any run, a vote ends up without its message exactly when it was stored, admitted by the quota,
   at a moment when the message was not there, and no prune and no purge of its chat came after (or
   it lacked its message at the start, and none came at all).
   */
  lemma {:induction false} VoteDanglesIff(o: Options, s: System, steps: seq<Step>, k: VoteKey)
    requires WellFormed(s.tables) && ValidOptions(o) && ValidRun(o, s, steps)
    ensures Dangles(Run(o, s, steps).tables, k) <==>
      StoredBareForGood(o, s, steps, k) || (Dangles(s.tables, k) && !EverSweeps(o, s, steps, k))
    decreases |steps|
  {
    if steps == [] {
    } else {
      StepWellFormed(o, s, steps[0]);
      DanglesStep(o, s, steps[0], k);
      VoteDanglesIff(o, Apply(o, s, steps[0]), steps[1..], k);
    }
  }

  /** Right after a Put that stores or a Prune, nothing dangles, whatever happened before. */
  lemma PruningSweepsAll(o: Options, s: System, steps: seq<Step>, st: Step)
    requires ValidRun(o, s, steps) && Enabled(Run(o, s, steps), st) && st.Plain?
    requires Prunes(Run(o, s, steps).tables, o, st.tx)
    ensures var t := Apply(o, Run(o, s, steps), st).tables;
      ReceiptsAnchored(t) && forall k :: k in t.votes ==> Exists(t.msgs, k.chat, k.poll)
  {
    PruneLeavesNoneDangling(Run(o, s, steps).tables, o, st.tx);
  }

  /// Only a race leaves a vote dangling

  /** The run leaves this call pending. */
  predicate Leaves(steps: seq<Step>, call: nat) {
    steps == [] || (steps[0] != Write(call) && steps[0] != Abandon(call) && Leaves(steps[1..], call))
  }

  lemma CallStays(o: Options, s: System, st: Step, call: nat)
    requires Enabled(s, st) && st != Write(call) && st != Abandon(call) && call in s.calls
    ensures call in Apply(o, s, st).calls && Apply(o, s, st).calls[call] == s.calls[call]
  {
  }

  lemma {:induction false} CallsStay(o: Options, s: System, steps: seq<Step>, call: nat)
    requires ValidRun(o, s, steps) && Leaves(steps, call) && call in s.calls
    ensures var z := Run(o, s, steps); call in z.calls && z.calls[call] == s.calls[call]
    decreases |steps|
  {
    if steps == [] {
    } else {
      CallStays(o, s, steps[0], call);
      CallsStay(o, Apply(o, s, steps[0]), steps[1..], call);
    }
  }

  lemma MessageStep(o: Options, s: System, st: Step, k: VoteKey)
    requires WellFormed(s.tables) && Enabled(s, st) && !Sweeps(o, s, st, k)
    ensures Exists(Apply(o, s, st).tables.msgs, k.chat, k.poll) <==> Exists(s.tables.msgs, k.chat, k.poll)
  {
    var tx := TxOf(s, st);
    if tx.Some? { ExistsStep(s.tables, o, tx.value, k.chat, k.poll); }
  }

  lemma {:induction false} MessageStays(o: Options, s: System, steps: seq<Step>, k: VoteKey)
    requires WellFormed(s.tables) && ValidOptions(o) && ValidRun(o, s, steps) && !EverSweeps(o, s, steps, k)
    ensures Exists(Run(o, s, steps).tables.msgs, k.chat, k.poll) <==> Exists(s.tables.msgs, k.chat, k.poll)
    decreases |steps|
  {
    if steps == [] {
    } else {
      StepWellFormed(o, s, steps[0]);
      MessageStep(o, s, steps[0], k);
      MessageStays(o, Apply(o, s, steps[0]), steps[1..], k);
    }
  }

  /** A vote is stored without its message only if a prune or a purge of its chat came between its lookup and that. */
  lemma BareMeansRace(o: Options, s: System, look: Step, steps: seq<Step>)
    requires WellFormed(s.tables) && ValidOptions(o) && look.LookUpVote? && Enabled(s, look)
    requires Polls.LookUp(s.tables, o, look.chat, look.poll, _ => look.ballot, look.a, look.now).Ok?
    requires ValidRun(o, Apply(o, s, look), steps) && Leaves(steps, look.call)
    ensures var k := VoteKey(look.chat, look.poll, look.a.voter); var z := Run(o, Apply(o, s, look), steps);
      && TxOf(z, Write(look.call)) == Some(TxVote(k, Vote(look.a.at, look.a.selected)))
      && (StoresBare(z, Write(look.call), k) ==> EverSweeps(o, Apply(o, s, look), steps, k))
  {
    Polls.LookUpMeans(s.tables, o, look.chat, look.poll, _ => look.ballot, look.a, look.now);
    CallsStay(o, Apply(o, s, look), steps, look.call);
    var k := VoteKey(look.chat, look.poll, look.a.voter);
    if !EverSweeps(o, Apply(o, s, look), steps, k) {
      MessageStays(o, Apply(o, s, look), steps, k);
    }
  }

  lemma RunCons(o: Options, s: System, st: Step, steps: seq<Step>)
    requires Enabled(s, st) && ValidRun(o, Apply(o, s, st), steps)
    ensures ValidRun(o, s, [st] + steps) && Run(o, s, [st] + steps) == Run(o, Apply(o, s, st), steps)
  {
    assert ([st] + steps)[1..] == steps;
  }

  lemma RunThree(o: Options, s: System, a: Step, b: Step, c: Step)
    requires Enabled(s, a) && Enabled(Apply(o, s, a), b) && Enabled(Apply(o, Apply(o, s, a), b), c)
    ensures ValidRun(o, s, [a, b, c])
    ensures Run(o, s, [a, b, c]) == Apply(o, Apply(o, Apply(o, s, a), b), c)
  {
    RunCons(o, Apply(o, Apply(o, s, a), b), c, []);
    RunCons(o, Apply(o, s, a), b, [c] + []);
    RunCons(o, s, a, [b] + ([c] + []));
    assert [a, b, c] == [a] + ([b] + ([c] + []));
  }

  /** And a purge in between does leave it: with room in the table, from every state where the lookup succeeds. */
  lemma RaceLeavesVote(o: Options, s: System, look: Step)
    requires WellFormed(s.tables) && look.LookUpVote? && Enabled(s, look) && |s.tables.votes| < Polls.MAX_VOTES
    requires Polls.LookUp(s.tables, o, look.chat, look.poll, _ => look.ballot, look.a, look.now).Ok?
    ensures var steps := [look, Plain(TxPurge(look.chat)), Write(look.call)];
      ValidRun(o, s, steps) && Dangles(Run(o, s, steps).tables, VoteKey(look.chat, look.poll, look.a.voter))
  {
    var k := VoteKey(look.chat, look.poll, look.a.voter);
    var purge, write := Plain(TxPurge(look.chat)), Write(look.call);
    Polls.LookUpMeans(s.tables, o, look.chat, look.poll, _ => look.ballot, look.a, look.now);
    var s1 := Apply(o, s, look);
    var s2 := Apply(o, s1, purge);
    PurgeExactly(s.tables, look.chat);
    SubsetSize(s2.tables.votes.Keys, s.tables.votes.Keys);
    assert |s2.tables.votes| == |s2.tables.votes.Keys| && |s.tables.votes| == |s.tables.votes.Keys|;
    assert StoresBare(s2, write, k);
    DanglesStep(o, s2, write, k);
    RunThree(o, s, look, purge, write);
  }

  const ONE_HOUR := Options(HOUR, 10, 0x10_0000)

  /** An archive that holds one poll. */
  const ONE_POLL := System(
    EMPTY.(msgs := [Message(1, "c", "p", "s", false, 0, false, false, false, Json([], None), [0], 1)],
           n := 1, b := 1, lastSeq := 1), map[])

  const LOOK := LookUpVote(0, "c", "p", Some(Polls.Ballot(["x", "y"], 1)), Polls.VoteArgs("v", true, 1, ["x"]), 0)

  /** Such a run: the poll is looked up, its chat purged, and the vote stored. */
  lemma VoteOutlivesItsPoll()
    ensures var steps := [LOOK, Plain(TxPurge("c")), Write(0)];
      && ValidRun(ONE_HOUR, ONE_POLL, steps)
      && var t := Run(ONE_HOUR, ONE_POLL, steps).tables; t.msgs == [] && Dangles(t, VoteKey("c", "p", "v"))
  {
    var m := ONE_POLL.tables.msgs[0];
    assert Size([m]) == m.bytes + Size([m][1..]) && [m][1..] == [];
    assert Polls.Find([m], "c", "p", Cutoff(ONE_HOUR, 0)) == Some(m);
    RaceLeavesVote(ONE_HOUR, ONE_POLL, LOOK);
    RunThree(ONE_HOUR, ONE_POLL, LOOK, Plain(TxPurge("c")), Write(0));
    assert Others([m], "c") == Others([m][1..], "c");
  }
}
