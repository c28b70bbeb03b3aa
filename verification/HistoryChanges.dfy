/**
 Edits and deletions of archived messages (ChangeAt, internal/history/store.go:316-344) and what
 any order of them leads to.
 */
module HistoryChanges {
  import opened Prelude
  import opened History

  /** A replacement message; deletion when there is none.  `json` already contains updatedAt = at. */
  datatype Replacement = Replacement(protocol: seq<byte>, json: Option<seq<byte>>)

  datatype ChangeError = BadTimestamp | NotFound | TooLarge | Unencodable

  function Digits(n: nat): seq<byte> {
    if n < 10 then [48 + n] else Digits(n / 10) + [48 + n % 10]
  }

  /** {"updatedAt":at} in ASCII. */
  function TombstoneText(at: nat): seq<byte> {
    [123, 34, 117, 112, 100, 97, 116, 101, 100, 65, 116, 34, 58] + Digits(at) + [125]
  }

  /** coalesce(json_extract(content,'$.updatedAt'), t*1000) */
  function UpdateTime(m: Message): int {
    if m.content.updatedAt.Some? then m.content.updatedAt.value else m.t * 1000
  }

  function Deleted(m: Message, at: nat): Message {
    var text := TombstoneText(at);
    m.(deleted := true, content := Json(text, Some(at)), protocol := [], bytes := |text|)
  }

  function Edited(m: Message, protocol: seq<byte>, json: seq<byte>, at: nat): Message {
    m.(edited := true, content := Json(json, Some(at)), protocol := protocol, bytes := |json| + |protocol|)
  }

  /// One row

  datatype Change = Edit(at: nat, protocol: seq<byte>, json: seq<byte>) | Delete(at: nat)

  /** The WHERE clauses: deletions and edits yield to later updates, edits also to deletion. */
  function Revise(m: Message, c: Change): Message {
    if UpdateTime(m) > c.at then m
    else
      match c
      case Delete(at) => Deleted(m, at)
      case Edit(at, protocol, json) => if m.deleted then m else Edited(m, protocol, json, at)
  }

  /** What the octets of a decimal numeral amount to. */
  function Decimal(ds: seq<byte>): int {
    if ds == [] then 0 else 10 * Decimal(ds[..|ds| - 1]) + ds[|ds| - 1] - 48
  }

  lemma {:induction false} DigitsMean(n: nat)
    ensures Decimal(Digits(n)) == n && Digits(n) != []
    ensures forall i :: 0 <= i < |Digits(n)| ==> 48 <= Digits(n)[i] <= 57
    ensures Digits(n)[0] == 48 ==> n == 0
  {
    if n < 10 {
      assert [48 + n][..0] == [];
    } else {
      DigitsMean(n / 10);
      var ds := Digits(n);
      assert ds[..|ds| - 1] == Digits(n / 10);
    }
  }

  /** A deletion leaves an object that holds nothing but the time of the deletion. */
  lemma TombstoneMeans(at: nat)
    ensures var text := TombstoneText(at);
      && |text| >= 15 && (forall i :: 0 <= i < 13 ==> text[i] == "{\"updatedAt\":"[i] as int)
      && Decimal(text[13..|text| - 1]) == at && text[|text| - 1] == '}' as int
  {
    DigitsMean(at);
    var text := TombstoneText(at);
    assert text[13..|text| - 1] == Digits(at);
  }

  /**
   A change older than the last one, or than the message, does nothing.  A deletion empties the row and marks it;
   an edit puts in its own text, unless the row is deleted; both leave their time, and nothing else changes.
   */
  lemma ReviseMeans(m: Message, c: Change)
    ensures var x, last := Revise(m, c), if m.content.updatedAt == None then 1000 * m.t else m.content.updatedAt.value;
      && (c.at < last || (c.Edit? && m.deleted) ==> x == m)
      && (last <= c.at && (c.Delete? || !m.deleted) ==>
            && x == m.(deleted := x.deleted, edited := x.edited, content := x.content, protocol := x.protocol,
                       bytes := x.bytes)
            && x.content.updatedAt == Some(c.at) && x.bytes == |x.content.text| + |x.protocol|)
      && (last <= c.at && c.Delete? ==>
            x.deleted && x.edited == m.edited && x.content.text == TombstoneText(c.at) && x.protocol == [])
      && (last <= c.at && c.Edit? && !m.deleted ==>
            !x.deleted && x.edited && x.content.text == c.json && x.protocol == c.protocol)
  {
  }

  function ReviseAll(m: Message, cs: seq<Change>): Message {
    if cs == [] then m else Revise(ReviseAll(m, cs[..|cs| - 1]), cs[|cs| - 1])
  }

  /// The table

  predicate IsAt(m: Message, chat: string, id: string) {
    m.chat == chat && m.id == id
  }

  function ReviseRows(msgs: seq<Message>, chat: string, id: string, c: Change): seq<Message> {
    if msgs == [] then []
    else [if IsAt(msgs[0], chat, id) then Revise(msgs[0], c) else msgs[0]] + ReviseRows(msgs[1..], chat, id, c)
  }

  /** An UPDATE of the message with its trigger on the byte total. */
  function Update(t: Tables, chat: string, id: string, c: Change): Tables {
    var msgs := ReviseRows(t.msgs, chat, id, c);
    t.(msgs := msgs, b := t.b - Size(t.msgs) + Size(msgs))
  }

  predicate InRetention(t: Tables, o: Options, chat: string, id: string, now: int) {
    exists m :: m in t.msgs && IsAt(m, chat, id) && m.t >= Cutoff(o, now)
  }

  /**
   The first half of ChangeAt: the checks, and for an edit the lookup.  The clock is read once to check
   the timestamp and once more to look the message up; the UPDATE is a statement of its own.
   */
  function LookUp(
      t: Tables, o: Options, chat: string, id: string, r: Option<Replacement>, at: int, now: int, readAt: int)
    : Result<Change, ChangeError>
  {
    if at <= 0 || at > Milli(now + 24 * HOUR) then Err(BadTimestamp)
    else if r == None then Ok(Delete(at))
    else if !InRetention(t, o, chat, id, readAt) then Err(NotFound)
    else if |r.value.protocol| > MAX_PART then Err(ChangeError.TooLarge)
    else if r.value.json == None then Err(ChangeError.Unencodable)
    else Ok(Edit(at, r.value.protocol, r.value.json.value))
  }

  /**
   When a change is refused, and why: its time is not positive or more than a day ahead; and for an edit, the message
   is not in the archive, or the new one is larger than 256 KiB or cannot be rendered.
   */
  lemma LookUpMeans(
      t: Tables, o: Options, chat: string, id: string, r: Option<Replacement>, at: int, now: int, readAt: int)
    ensures var x := LookUp(t, o, chat, id, r, at, now, readAt);
      var timely := 0 < at <= now / 1_000_000 + 86_400_000;
      var cutoff := (readAt - o.retention) / 1_000_000_000;
      var found := exists m :: m in t.msgs && m.chat == chat && m.id == id && m.t >= cutoff;
      && (x == Err(BadTimestamp) <==> !timely)
      && (timely && r == None ==> x == Ok(Delete(at)))
      && (timely && r != None ==>
            var small := |r.value.protocol| <= 262_144;
            && (x == Err(NotFound) <==> !found)
            && (x == Err(ChangeError.TooLarge) <==> found && !small)
            && (x == Err(ChangeError.Unencodable) <==> found && small && r.value.json == None)
            && (found && small && r.value.json != None ==> x == Ok(Edit(at, r.value.protocol, r.value.json.value))))
  {
  }

  /// Changes keep the table in order

  lemma {:induction false} ReviseRowsAt(msgs: seq<Message>, chat: string, id: string, c: Change)
    ensures var r := ReviseRows(msgs, chat, id, c);
      && |r| == |msgs|
      && forall i :: 0 <= i < |msgs| ==>
        && r[i].seqNo == msgs[i].seqNo && r[i].chat == msgs[i].chat && r[i].id == msgs[i].id && r[i].t == msgs[i].t
        && r[i] == if IsAt(msgs[i], chat, id) then Revise(msgs[i], c) else msgs[i]
  {
    if msgs == [] {
    } else {
      ReviseRowsAt(msgs[1..], chat, id, c);
      var r := ReviseRows(msgs, chat, id, c);
      assert forall i :: 1 <= i < |msgs| ==> msgs[i] == msgs[1..][i - 1] && r[i] == r[1..][i - 1];
    }
  }

  /** A change never moves, adds or removes a row, and the totals stay true. */
  lemma ChangeKeepsTotals(t: Tables, chat: string, id: string, c: Change)
    requires WellFormed(t)
    ensures var x := Update(t, chat, id, c);
      && WellFormed(x) && |x.msgs| == |t.msgs| && x.(msgs := t.msgs, b := t.b) == t
      && forall i :: 0 <= i < |t.msgs| ==>
        && x.msgs[i].seqNo == t.msgs[i].seqNo && x.msgs[i].t == t.msgs[i].t
        && x.msgs[i].chat == t.msgs[i].chat && x.msgs[i].id == t.msgs[i].id
        && (!IsAt(t.msgs[i], chat, id) ==> x.msgs[i] == t.msgs[i])
  {
    ReviseRowsAt(t.msgs, chat, id, c);
  }

  /// Any order of changes

  lemma ReviseAllSnoc(m: Message, cs: seq<Change>, c: Change)
    ensures ReviseAll(m, cs + [c]) == Revise(ReviseAll(m, cs), c)
  {
    assert (cs + [c])[..|cs|] == cs;
  }

  /** Whatever arrives in whatever order, the update time never goes back and deletion is final. */
  lemma {:induction false} ChangesAreMonotone(m: Message, cs: seq<Change>)
    ensures UpdateTime(m) <= UpdateTime(ReviseAll(m, cs))
    ensures m.deleted ==> ReviseAll(m, cs).deleted
    ensures m.deleted ==> ReviseAll(m, cs).edited == m.edited
    ensures ReviseAll(m, cs).seqNo == m.seqNo && ReviseAll(m, cs).t == m.t
  {
    if cs == [] {
    } else {
      ChangesAreMonotone(m, cs[..|cs| - 1]);
    }
  }

  /** The edit that should win: greatest timestamp among those not before the message. */
  ghost predicate Wins(m: Message, cs: seq<Change>, w: Change) {
    && w in cs && UpdateTime(m) <= w.at
    && forall c :: c in cs ==> c.at <= w.at
  }

  ghost predicate DistinctTimes(cs: seq<Change>) {
    forall i, j :: 0 <= i < j < |cs| ==> cs[i].at != cs[j].at
  }

  ghost predicate OnlyEdits(cs: seq<Change>) {
    forall c :: c in cs ==> c.Edit?
  }

  /** m after edits whose last effective one is w. */
  function Final(m: Message, w: Change): Message
    requires w.Edit?
  {
    Edited(m, w.protocol, w.json, w.at)
  }

  /** Edits leave an undeleted message undeleted, no newer than their newest, and alike outside what they write. */
  lemma {:induction false} EditsOnly(m: Message, cs: seq<Change>, bound: int)
    requires !m.deleted && OnlyEdits(cs)
    requires UpdateTime(m) <= bound && forall c :: c in cs ==> c.at <= bound
    ensures var x := ReviseAll(m, cs); !x.deleted && UpdateTime(x) <= bound
    ensures forall w: Change :: w.Edit? ==> Final(ReviseAll(m, cs), w) == Final(m, w)
  {
    if cs == [] {
    } else {
      assert cs[|cs| - 1] in cs;
      EditsOnly(m, cs[..|cs| - 1], bound);
    }
  }

  lemma {:induction false} TooOld(m: Message, cs: seq<Change>)
    requires forall c :: c in cs ==> c.at < UpdateTime(m)
    ensures ReviseAll(m, cs) == m
  {
    if cs == [] {
    } else {
      assert cs[|cs| - 1] in cs;
      TooOld(m, cs[..|cs| - 1]);
    }
  }

  /**
   Any sequence of edits with distinct timestamps to an undeleted message ends at the greatest one
   not before the message.
   */
  lemma {:induction false} EditsEndAtTheLatest(m: Message, cs: seq<Change>, w: Change)
    requires !m.deleted && OnlyEdits(cs) && DistinctTimes(cs) && Wins(m, cs, w)
    ensures ReviseAll(m, cs) == Final(m, w)
  {
    var front, c := cs[..|cs| - 1], cs[|cs| - 1];
    assert cs == front + [c];
    if c == w {
      EditsOnly(m, front, w.at);
    } else {
      var i :| 0 <= i < |cs| && cs[i] == w;
      assert front[i] == w && cs[i].at != cs[|cs| - 1].at;
      EditsEndAtTheLatest(m, front, w);
    }
  }

  lemma {:induction false} Latest(cs: seq<Change>) returns (w: Change)
    requires cs != []
    ensures w in cs && forall c :: c in cs ==> c.at <= w.at
  {
    var front, last := cs[..|cs| - 1], cs[|cs| - 1];
    assert cs == front + [last];
    if front == [] {
      w := last;
    } else {
      var best := Latest(front);
      w := if best.at <= last.at then last else best;
    }
  }

  /** Hence the order of edits does not matter. */
  lemma EditsCommute(m: Message, cs: seq<Change>, ds: seq<Change>)
    requires !m.deleted && OnlyEdits(cs) && DistinctTimes(cs)
    requires DistinctTimes(ds) && forall c :: c in cs <==> c in ds
    ensures ReviseAll(m, cs) == ReviseAll(m, ds)
  {
    if exists c :: c in cs && c.at >= UpdateTime(m) {
      var w := Latest(cs);
      EditsEndAtTheLatest(m, cs, w);
      EditsEndAtTheLatest(m, ds, w);
    } else {
      TooOld(m, cs);
      TooOld(m, ds);
    }
  }

  /**
   An edit and a deletion do not commute in general: exactly when one of them is too old to apply,
   or the deletion is not older than the edit and the message had been edited before.
   */
  lemma EditAndDeleteCommuteIff(m: Message, e: Change, d: Change)
    requires !m.deleted && e.Edit? && d.Delete?
    ensures ReviseAll(m, [e, d]) == ReviseAll(m, [d, e]) <==>
      e.at < UpdateTime(m) || d.at < UpdateTime(m) || (e.at <= d.at && m.edited)
  {
    assert [e, d] == ([] + [e]) + [d] && [d, e] == ([] + [d]) + [e];
    ReviseAllSnoc(m, [], e);
    ReviseAllSnoc(m, [] + [e], d);
    ReviseAllSnoc(m, [], d);
    ReviseAllSnoc(m, [] + [d], e);
  }

  /** Such a pair: a message edited at 1 and deleted at 2 ends marked as edited only if the edit arrives first. */
  lemma EditMayBeLost()
    ensures var m := Message(1, "c", "i", "s", false, 0, false, false, false, Json([], None), [], 0);
      ReviseAll(m, [Edit(1, [], []), Delete(2)]).edited && !ReviseAll(m, [Delete(2), Edit(1, [], [])]).edited
  {
    var m := Message(1, "c", "i", "s", false, 0, false, false, false, Json([], None), [], 0);
    var e, d := Edit(1, [], []), Delete(2);
    assert [e, d] == ([] + [e]) + [d] && [d, e] == ([] + [d]) + [e];
    ReviseAllSnoc(m, [], e);
    ReviseAllSnoc(m, [] + [e], d);
    ReviseAllSnoc(m, [], d);
    ReviseAllSnoc(m, [] + [d], e);
  }
}
