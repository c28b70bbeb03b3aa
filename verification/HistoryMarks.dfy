/**
 What is attached to archived messages besides votes: receipts (Receipt, internal/history/store.go)
 and label links (Associate, internal/history/metadata.go).
 */
module HistoryMarks {
  import opened Prelude
  import opened History

  const MAX_LINKS := 100_000

  datatype MarkError = Invalid | QuotaReached

  datatype ReceiptArgs = ReceiptArgs(chat: string, ids: seq<string>, sender: string, kind: string, at: int)

  function KeyOf(a: ReceiptArgs, id: string): ReceiptKey {
    ReceiptKey(a.chat, id, a.sender, a.kind)
  }

  /** One upsert, a statement of its own: only for an archived message, and the greatest time stays. */
  function NoteOne(t: Tables, a: ReceiptArgs, id: string): Tables {
    var k := KeyOf(a, id);
    if !ValidId(id) || !Exists(t.msgs, a.chat, id) then t
    else t.(receipts := t.receipts[k := if k in t.receipts then Max(t.receipts[k], a.at) else a.at])
  }

  function NoteEach(t: Tables, a: ReceiptArgs, ids: seq<string>): Tables {
    if ids == [] then t else NoteOne(NoteEach(t, a, ids[..|ids| - 1]), a, ids[|ids| - 1])
  }

  function Receive(t: Tables, a: ReceiptArgs): Result<Tables, MarkError> {
    if |a.ids| > 1000 then Err(Invalid) else Ok(NoteEach(t, a, a.ids))
  }

  /** One row, after a receipt: there if it was, or if an archived message is named; its time is the greatest seen. */
  ghost predicate NotedRow(t: Tables, u: Tables, a: ReceiptArgs, ids: seq<string>, k: ReceiptKey) {
    var named := k.chat == a.chat && k.sender == a.sender && k.kind == a.kind && k.id in ids
      && ValidId(k.id) && Exists(t.msgs, k.chat, k.id);
    && (k in u.receipts <==> k in t.receipts || named)
    && (k in u.receipts && !named ==> u.receipts[k] == t.receipts[k])
    && (k in u.receipts && named ==> u.receipts[k] == if k in t.receipts then Max(t.receipts[k], a.at) else a.at)
  }

  lemma {:induction false} NoteEachExactly(t: Tables, a: ReceiptArgs, ids: seq<string>, k: ReceiptKey)
    ensures var u := NoteEach(t, a, ids); u.(receipts := t.receipts) == t && NotedRow(t, u, a, ids, k)
  {
    if ids == [] {
    } else {
      var front, last := ids[..|ids| - 1], ids[|ids| - 1];
      NoteEachExactly(t, a, front, k);
      assert ids == front + [last];
    }
  }

  /** A receipt adds exactly one row per archived message it names and keeps the greatest time of each. */
  lemma ReceiveExactly(t: Tables, a: ReceiptArgs, k: ReceiptKey)
    requires Receive(t, a).Ok?
    ensures var u := Receive(t, a).value; u.(receipts := t.receipts) == t && NotedRow(t, u, a, a.ids, k)
  {
    NoteEachExactly(t, a, a.ids, k);
  }

  lemma SameReceipts(t: Tables, u: Tables)
    requires t.(receipts := u.receipts) == u
    requires forall k :: k in t.receipts <==> k in u.receipts
    requires forall k :: k in t.receipts ==> t.receipts[k] == u.receipts[k]
    ensures t == u
  {
    assert t.receipts == u.receipts;
  }

  lemma CommuteAt(t: Tables, a: ReceiptArgs, ids: seq<string>, b: ReceiptArgs, jds: seq<string>, k: ReceiptKey)
    ensures var u := NoteEach(NoteEach(t, a, ids), b, jds); var v := NoteEach(NoteEach(t, b, jds), a, ids);
      && u.(receipts := v.receipts) == v
      && (k in u.receipts <==> k in v.receipts) && (k in u.receipts ==> u.receipts[k] == v.receipts[k])
  {
    NoteEachExactly(t, a, ids, k);
    NoteEachExactly(t, b, jds, k);
    NoteEachExactly(NoteEach(t, a, ids), b, jds, k);
    NoteEachExactly(NoteEach(t, b, jds), a, ids, k);
  }

  lemma NoteEachCommute(t: Tables, a: ReceiptArgs, ids: seq<string>, b: ReceiptArgs, jds: seq<string>)
    ensures NoteEach(NoteEach(t, a, ids), b, jds) == NoteEach(NoteEach(t, b, jds), a, ids)
  {
    var u, v := NoteEach(NoteEach(t, a, ids), b, jds), NoteEach(NoteEach(t, b, jds), a, ids);
    forall k ensures (k in u.receipts <==> k in v.receipts) && (k in u.receipts ==> u.receipts[k] == v.receipts[k]) {
      CommuteAt(t, a, ids, b, jds, k);
    }
    CommuteAt(t, a, ids, b, jds, KeyOf(a, ""));
    SameReceipts(u, v);
  }

  lemma RepeatAt(t: Tables, a: ReceiptArgs, ids: seq<string>, k: ReceiptKey)
    ensures var u := NoteEach(t, a, ids); var v := NoteEach(u, a, ids);
      && u.(receipts := v.receipts) == v
      && (k in u.receipts <==> k in v.receipts) && (k in u.receipts ==> u.receipts[k] == v.receipts[k])
  {
    NoteEachExactly(t, a, ids, k);
    NoteEachExactly(NoteEach(t, a, ids), a, ids, k);
  }

  /** The order of two receipts does not matter, and a repetition has no effect. */
  lemma ReceiptsCommute(t: Tables, a: ReceiptArgs, b: ReceiptArgs)
    requires |a.ids| <= 1000 && |b.ids| <= 1000
    ensures Receive(Receive(t, a).value, b) == Receive(Receive(t, b).value, a)
    ensures Receive(Receive(t, a).value, a) == Receive(t, a)
  {
    NoteEachCommute(t, a, a.ids, b, b.ids);
    var u, v := NoteEach(t, a, a.ids), NoteEach(NoteEach(t, a, a.ids), a, a.ids);
    forall k ensures (k in u.receipts <==> k in v.receipts) && (k in u.receipts ==> u.receipts[k] == v.receipts[k]) {
      RepeatAt(t, a, a.ids, k);
    }
    RepeatAt(t, a, a.ids, KeyOf(a, ""));
    SameReceipts(u, v);
  }

  lemma OneNote(t: Tables, a: ReceiptArgs, id: string)
    ensures NoteEach(t, a, [id]) == NoteOne(t, a, id)
  {
    assert [id][..0] == [];
    assert NoteEach(t, a, [id]) == NoteOne(NoteEach(t, a, []), a, id);
  }

  /** Even statement by statement, so however two receipts interleave. */
  lemma NotesCommute(t: Tables, a: ReceiptArgs, i: string, b: ReceiptArgs, j: string)
    ensures NoteOne(NoteOne(t, a, i), b, j) == NoteOne(NoteOne(t, b, j), a, i)
  {
    NoteEachCommute(t, a, [i], b, [j]);
    OneNote(t, a, i);
    OneNote(t, b, j);
    OneNote(NoteOne(t, a, i), b, j);
    OneNote(NoteOne(t, b, j), a, i);
  }

  /// Label links

  datatype LinkArgs = LinkArgs(k: LinkKey, valid: bool, active: bool, at: int, now: int)

  /** A missing time is replaced by the clock. */
  function LinkOf(a: LinkArgs): Link {
    Link(a.active, if a.at == 0 then Milli(a.now) else a.at)
  }

  /** The upsert: an equal or later timestamp replaces, an earlier one is ignored, a new link needs quota. */
  function Associate(t: Tables, a: LinkArgs): Result<Tables, MarkError> {
    if !a.valid then Err(Invalid)
    else if a.k !in t.links && |t.links| >= MAX_LINKS then Err(QuotaReached)
    else if a.k in t.links && LinkOf(a).updated < t.links[a.k].updated then Ok(t)
    else Ok(t.(links := t.links[a.k := LinkOf(a)]))
  }

  /**
   When a label is refused, and what it leaves: its own entry, at its own time or without one at that of the clock,
   unless a later one stands.
   */
  lemma AssociateMeans(t: Tables, a: LinkArgs)
    ensures var r := Associate(t, a); var full := a.k !in t.links && |t.links| >= 100_000;
      var at := if a.at == 0 then a.now / 1_000_000 else a.at;
      && (r == Err(Invalid) <==> !a.valid) && (r == Err(QuotaReached) <==> a.valid && full)
      && (r.Ok? <==> a.valid && !full)
      && (r.Ok? && a.k in t.links && at < t.links[a.k].updated ==> r.value == t)
      && (r.Ok? && (a.k in t.links ==> at >= t.links[a.k].updated) ==>
            r.value == t.(links := t.links[a.k := Link(a.active, at)]))
  {
  }

  /**
   The links stay within their quota, and the time of a link never runs back.  A link may name a
   message that is not archived; the next prune takes it away.
   */
  lemma AssociateKeeps(t: Tables, a: LinkArgs)
    requires |t.links| <= 100_000 && Associate(t, a).Ok?
    ensures var u := Associate(t, a).value;
      && |u.links| <= 100_000 && u.(links := t.links) == t
      && a.k in u.links && u.links[a.k].updated >= LinkOf(a).updated
      && (u.links[a.k].updated == LinkOf(a).updated ==> u.links[a.k] == LinkOf(a))
      && (forall k :: k in t.links ==> k in u.links && u.links[k].updated >= t.links[k].updated)
  {
    var u := Associate(t, a).value;
    if a.k in t.links {
      assert u.links.Keys == t.links.Keys;
    } else {
      assert u.links.Keys == t.links.Keys + {a.k};
    }
    assert |u.links.Keys| == |u.links| && |t.links.Keys| == |t.links|;
  }
}
