/**
 Cursor pagination over the archive (List, internal/history/store.go:215-266) under a row cap and a
 4 MiB response cap acting together.
 */
module HistoryPaging {
  import opened Prelude
  import opened History

  datatype Query = Query(chat: string, chatValid: bool, before: int, limit: int, unread: bool)

  datatype Page = Page(messages: seq<Message>, next: nat)

  datatype ListError = BadLimit | BadChat

  const RESPONSE_CAP := 0x40_0000

  /** A zero limit means 50. */
  function Limit(q: Query): int {
    if q.limit == 0 then 50 else q.limit
  }

  predicate ValidQuery(q: Query) {
    1 <= Limit(q) <= 200 && q.before >= 0 && (q.chat != "" ==> q.chatValid)
  }

  predicate Selects(m: Message, q: Query, cutoff: int) {
    && m.t >= cutoff
    && (q.chat != "" ==> m.chat == q.chat)
    && (q.before > 0 ==> m.seqNo < q.before)
    && (q.unread ==> !m.read && !m.fromMe)
  }

  /** ORDER BY seq DESC, before LIMIT. */
  function Newest(msgs: seq<Message>, q: Query, cutoff: int): seq<Message> {
    if msgs == [] then []
    else
      var older := Newest(msgs[..|msgs| - 1], q, cutoff);
      if Selects(msgs[|msgs| - 1], q, cutoff) then [msgs[|msgs| - 1]] + older else older
  }

  /** Encoded bytes of a run of records; `wire` is the JSON length of one. */
  function Weight(wire: Message -> nat, ms: seq<Message>): nat {
    if ms == [] then 0 else Weight(wire, ms[..|ms| - 1]) + wire(ms[|ms| - 1])
  }

  /**
   What a page is: the longest run of the matching rows within both caps (but never empty while
   something matches), and the cursor of its last row exactly when something is left.
   */
  ghost predicate IsPage(wire: Message -> nat, m: seq<Message>, limit: nat, p: Page) {
    var k := |p.messages|;
    && k <= |m| && p.messages == m[..k] && k <= limit
    && (m != [] ==> k > 0)
    && (k > 1 ==> Weight(wire, p.messages) <= 4_194_304)
    && (0 < k < |m| && k < limit ==> Weight(wire, p.messages) + wire(m[k]) > 4_194_304)
    && p.next == (if 0 < k < |m| then m[k - 1].seqNo else 0)
  }

  ghost predicate Descending(ms: seq<Message>) {
    forall i, j :: 0 <= i < j < |ms| ==> ms[i].seqNo > ms[j].seqNo
  }

  lemma {:induction false} NewestMembers(msgs: seq<Message>, q: Query, cutoff: int)
    ensures forall m :: m in Newest(msgs, q, cutoff) <==> m in msgs && Selects(m, q, cutoff)
  {
    if msgs == [] {
    } else {
      NewestMembers(msgs[..|msgs| - 1], q, cutoff);
      assert msgs == msgs[..|msgs| - 1] + [msgs[|msgs| - 1]];
    }
  }

  lemma PrependOlder(m: Message, older: seq<Message>)
    requires Descending(older) && forall x :: x in older ==> x.seqNo < m.seqNo
    ensures Descending([m] + older)
  {
  }

  lemma {:induction false} NewestOrder(msgs: seq<Message>, q: Query, cutoff: int)
    requires Ascending(msgs)
    ensures Descending(Newest(msgs, q, cutoff))
  {
    if msgs == [] {
    } else {
      var front := msgs[..|msgs| - 1];
      NewestOrder(front, q, cutoff);
      NewestMembers(front, q, cutoff);
      if Selects(msgs[|msgs| - 1], q, cutoff) {
        PrependOlder(msgs[|msgs| - 1], Newest(front, q, cutoff));
      }
    }
  }

  /** What lies behind a cursor. */
  function Behind(ms: seq<Message>, cursor: int): seq<Message> {
    if ms == [] then []
    else if ms[0].seqNo < cursor then [ms[0]] + Behind(ms[1..], cursor)
    else Behind(ms[1..], cursor)
  }

  lemma {:induction false} NewestBehind(msgs: seq<Message>, q: Query, cutoff: int, cursor: nat)
    requires 0 < cursor && (q.before > 0 ==> cursor <= q.before)
    ensures Newest(msgs, q.(before := cursor), cutoff) == Behind(Newest(msgs, q, cutoff), cursor)
  {
    if msgs == [] {
    } else {
      NewestBehind(msgs[..|msgs| - 1], q, cutoff, cursor);
    }
  }

  lemma {:induction false} BehindAll(ms: seq<Message>, cursor: int)
    requires forall x :: x in ms ==> x.seqNo < cursor
    ensures Behind(ms, cursor) == ms
  {
    if ms == [] {
    } else {
      BehindAll(ms[1..], cursor);
    }
  }

  lemma {:induction false} BehindIsSuffix(ms: seq<Message>, k: nat)
    requires Descending(ms) && 0 < k <= |ms|
    ensures Behind(ms, ms[k - 1].seqNo) == ms[k..]
  {
    var cursor := ms[k - 1].seqNo;
    assert forall i :: 0 <= i < |ms[1..]| ==> ms[1..][i] == ms[i + 1];
    if k == 1 {
      BehindAll(ms[1..], cursor);
    } else {
      BehindIsSuffix(ms[1..], k - 1);
      assert ms[1..][k - 1..] == ms[k..];
    }
  }

  /// Following the cursor

  /** Pages got one after the other at a fixed time from an unchanged archive, each with the previous one's cursor. */
  ghost predicate IsWalk(wire: Message -> nat, msgs: seq<Message>, q: Query, cutoff: int, pages: seq<Page>)
    requires ValidQuery(q)
    decreases |pages|
  {
    pages != [] ==>
      && IsPage(wire, Newest(msgs, q, cutoff), Limit(q), pages[0])
      && (pages[0].next == 0 ==> |pages| == 1)
      && (pages[0].next != 0 ==> IsWalk(wire, msgs, q.(before := pages[0].next), cutoff, pages[1..]))
  }

  function AllMessages(pages: seq<Page>): seq<Message> {
    if pages == [] then [] else pages[0].messages + AllMessages(pages[1..])
  }

  /** A page that leaves something out ends at a cursor with exactly the rest behind it. */
  lemma CutBehind(msgs: seq<Message>, q: Query, cutoff: int, k: nat)
    requires Ascending(msgs) && (forall m :: m in msgs ==> m.seqNo >= 1) && ValidQuery(q)
    requires 0 < k < |Newest(msgs, q, cutoff)|
    ensures var m := Newest(msgs, q, cutoff); var cursor := m[k - 1].seqNo;
      cursor > 0 && m[k..] == Newest(msgs, q.(before := cursor), cutoff)
  {
    var m := Newest(msgs, q, cutoff);
    NewestMembers(msgs, q, cutoff);
    NewestOrder(msgs, q, cutoff);
    assert m[k - 1] in m;
    NewestBehind(msgs, q, cutoff, m[k - 1].seqNo);
    BehindIsSuffix(m, k);
  }

  lemma PageStep(wire: Message -> nat, msgs: seq<Message>, q: Query, cutoff: int, p: Page)
    requires Ascending(msgs) && (forall m :: m in msgs ==> m.seqNo >= 1) && ValidQuery(q)
    requires IsPage(wire, Newest(msgs, q, cutoff), Limit(q), p)
    ensures p.next == 0 <==> p.messages == Newest(msgs, q, cutoff)
    ensures p.next != 0 ==>
      && p.messages != []
      && Newest(msgs, q, cutoff) == p.messages + Newest(msgs, q.(before := p.next), cutoff)
      && ValidQuery(q.(before := p.next))
  {
    var m, k := Newest(msgs, q, cutoff), |p.messages|;
    if 0 < k < |m| {
      CutBehind(msgs, q, cutoff, k);
      assert m == m[..k] + m[k..];
    } else {
      assert k == |m| && m[..k] == m;
    }
  }

  /** One page in front of what the rest of the walk returns. */
  lemma WalkCons(m: seq<Message>, first: seq<Message>, rest: seq<Message>, got: seq<Message>)
    requires m == first + rest && got <= rest
    ensures first + got <= m && (first + got == m <==> got == rest)
  {
    if first + got == m {
      assert got == (first + got)[|first|..] && rest == m[|first|..];
    }
  }

  /**
   Following NextCursor returns every matching message exactly once, newest first: whatever the
   limit and the record sizes, the pages read so far are a prefix of the matching rows, they are
   all of them exactly when the last cursor is zero, and there are never more pages than rows
   (one, if nothing matches).
   */
  lemma {:induction false} WalkReturnsEverythingOnce(
      wire: Message -> nat, msgs: seq<Message>, q: Query, cutoff: int, pages: seq<Page>)
    requires Ascending(msgs) && (forall m :: m in msgs ==> m.seqNo >= 1) && ValidQuery(q)
    requires pages != [] && IsWalk(wire, msgs, q, cutoff, pages)
    ensures var m := Newest(msgs, q, cutoff); var got := AllMessages(pages);
      && got <= m
      && (pages[|pages| - 1].next == 0 <==> got == m)
      && |pages| <= Max(1, |m|)
    decreases |pages|
  {
    PageStep(wire, msgs, q, cutoff, pages[0]);
    var m := Newest(msgs, q, cutoff);
    assert AllMessages(pages) == pages[0].messages + AllMessages(pages[1..]);
    if |pages| == 1 {
      assert pages[1..] == [] && AllMessages(pages) == pages[0].messages;
    } else {
      var q' := q.(before := pages[0].next);
      WalkReturnsEverythingOnce(wire, msgs, q', cutoff, pages[1..]);
      var rest := Newest(msgs, q', cutoff);
      assert pages[|pages| - 1] == pages[1..][|pages[1..]| - 1];
      WalkCons(m, pages[0].messages, rest, AllMessages(pages[1..]));
      assert |m| == |pages[0].messages| + |rest| > |pages[0].messages|;
    }
  }

  /** The matching rows themselves: distinct, newest first, and exactly those the query selects. */
  lemma MatchingRows(msgs: seq<Message>, q: Query, cutoff: int)
    requires Ascending(msgs)
    ensures Descending(Newest(msgs, q, cutoff))
    ensures forall m :: m in Newest(msgs, q, cutoff) <==>
      && m in msgs && m.t >= cutoff && (q.chat == "" || m.chat == q.chat) && (q.before <= 0 || m.seqNo < q.before)
      && (!q.unread || (!m.read && !m.fromMe))
  {
    NewestMembers(msgs, q, cutoff);
    NewestOrder(msgs, q, cutoff);
  }
}
