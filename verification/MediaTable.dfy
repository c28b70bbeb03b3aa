/**
 The history_media table (internal/history/attachments.go): one row per archived attachment.

 A row is a reservation, not ready and short-lived, until the upload it was made for is
 acknowledged; from then on it is ready and lives as long as the retention.  Both uniqueness
 constraints of the table, one archive per message and one row per object, are part of the model.
 */
module MediaTable {
  import opened Prelude
  import History

  /** SHA-256, taken to be injective: a digest is known by what was hashed. */
  datatype Digest = Digest(text: string)
  datatype ContentHash = ContentHash(data: seq<byte>)

  /** Object name: digests of the session and of the message, and a fresh UUID per archiving. */
  datatype Key = Key(account: Digest, item: Digest, generation: nat)

  datatype Media = Media(
    chat: string, id: string, key: Key, mime: string, size: nat, hash: ContentHash, expires: int, ready: bool)

  const MAX_ROWS := 1000
  const MAX_TOTAL := 0x2000_0000 // 512 MiB
  const MAX_SIZE := 0x100_0000 // 16 MiB

  function Total(rows: seq<Media>): nat {
    if rows == [] then 0 else Total(rows[..|rows| - 1]) + rows[|rows| - 1].size
  }

  predicate SamePlace(a: Media, b: Media) {
    a.chat == b.chat && a.id == b.id
  }

  /** Neither the primary key nor the UNIQUE object column of `m` is taken. */
  predicate Clear(rows: seq<Media>, m: Media) {
    forall r | r in rows :: !SamePlace(r, m) && r.key != m.key
  }

  ghost predicate Unique(rows: seq<Media>) {
    rows == [] || (Unique(rows[..|rows| - 1]) && Clear(rows[..|rows| - 1], rows[|rows| - 1]))
  }

  ghost predicate WellFormed(rows: seq<Media>) {
    Unique(rows) && |rows| <= MAX_ROWS && Total(rows) <= MAX_TOTAL
  }

  /// Operations, each one transaction

  datatype ReserveError = InvalidMedia | QuotaExceeded | AlreadyStored

  function Reserve(rows: seq<Media>, m: Media, chatValid: bool, now: int): Result<seq<Media>, ReserveError> {
    if !chatValid || !History.ValidId(m.id) || m.size < 1 || m.size > MAX_SIZE || m.expires <= Milli(now)
        then Err(InvalidMedia)
    else if |rows| >= MAX_ROWS || Total(rows) + m.size > MAX_TOTAL then Err(QuotaExceeded)
    else if !Clear(rows, m) then Err(AlreadyStored)
    else Ok(rows + [m.(ready := false)])
  }

  predicate Is(r: Media, m: Media) {
    SamePlace(r, m) && r.key == m.key
  }

  /** UPDATE ... SET ready=1, expires=? on exactly this row. */
  function Acknowledge(rows: seq<Media>, m: Media): seq<Media> {
    if rows == [] then []
    else
      var r := rows[|rows| - 1];
      Acknowledge(rows[..|rows| - 1], m) + [if Is(r, m) then r.(ready := true, expires := m.expires) else r]
  }

  function Forget(rows: seq<Media>, m: Media): seq<Media> {
    if rows == [] then []
    else
      var front, r := Forget(rows[..|rows| - 1], m), rows[|rows| - 1];
      if Is(r, m) then front else front + [r]
  }

  predicate Available(r: Media, chat: string, id: string, now: int) {
    r.chat == chat && r.id == id && r.ready && r.expires > Milli(now)
  }

  const PAGE := 100

  /** ORDER BY expires LIMIT 100: the rows that expired first, in order, up to a hundred. */
  ghost predicate IsExpiredPage(page: seq<Media>, rows: seq<Media>, limit: int) {
    && (forall m :: m in page ==> m in rows && m.expires <= limit)
    && (forall i, j :: 0 <= i < j < |page| ==> page[i].expires <= page[j].expires && page[i] != page[j])
    && (forall r :: r in rows && r.expires <= limit && r !in page ==>
          |page| == PAGE && forall m :: m in page ==> m.expires <= r.expires)
    && |page| <= PAGE
  }

  /// What the operations keep

  /** A granted reservation adds one unready row, in a place and under a key nobody had, within both quotas. */
  lemma ReserveAdds(rows: seq<Media>, m: Media, chatValid: bool, now: int)
    requires WellFormed(rows) && Reserve(rows, m, chatValid, now).Ok?
    ensures var rows' := Reserve(rows, m, chatValid, now).value;
      && WellFormed(rows')
      && (forall r :: r in rows' <==> r in rows || r == m.(ready := false))
      && (forall r :: r in rows ==> !SamePlace(r, m) && r.key != m.key)
  {
  }

  lemma {:induction false} ForgetNothing(rows: seq<Media>, m: Media)
    requires forall r :: r in rows ==> !Is(r, m)
    ensures Forget(rows, m) == rows
  {
    if rows == [] {
    } else {
      var front, last := rows[..|rows| - 1], rows[|rows| - 1];
      assert rows == front + [last];
      ForgetNothing(front, m);
    }
  }

  /** What a reservation takes of the quotas is what deleting its row gives back. */
  lemma ReserveTakes(rows: seq<Media>, m: Media, chatValid: bool, now: int)
    requires WellFormed(rows) && Reserve(rows, m, chatValid, now).Ok?
    ensures var rows' := Reserve(rows, m, chatValid, now).value;
      |rows'| == |rows| + 1 && Total(rows') == Total(rows) + m.size && Forget(rows', m) == rows
  {
    ForgetNothing(rows, m);
    assert (rows + [m.(ready := false)])[..|rows|] == rows;
  }

  /** When a reservation is refused, and why: what is not in order, then the quotas, then what is taken. */
  lemma ReserveIff(rows: seq<Media>, m: Media, chatValid: bool, now: int)
    ensures var r := Reserve(rows, m, chatValid, now);
      var inOrder := chatValid && 1 <= |m.id| <= 256 && (forall c :: c in m.id ==> c !in "\0\r\n")
        && 1 <= m.size <= 16 * 1024 * 1024 && Milli(now) < m.expires;
      var fits := |rows| < 1000 && Total(rows) + m.size <= 512 * 1024 * 1024;
      var taken := exists x :: x in rows && (x.key == m.key || (x.chat == m.chat && x.id == m.id));
      && (r == Err(InvalidMedia) <==> !inOrder)
      && (r == Err(QuotaExceeded) <==> inOrder && !fits)
      && (r == Err(AlreadyStored) <==> inOrder && fits && taken)
  {
    assert forall i :: 0 <= i < |m.id| ==> m.id[i] in m.id;
  }

  lemma {:induction false} AcknowledgeMembers(rows: seq<Media>, m: Media, x: Media)
    ensures x in Acknowledge(rows, m) <==>
      (x in rows && !Is(x, m)) || (exists r :: r in rows && Is(r, m) && x == r.(ready := true, expires := m.expires))
  {
    if rows == [] {
    } else {
      var front, last := rows[..|rows| - 1], rows[|rows| - 1];
      AcknowledgeMembers(front, m, x);
      assert rows == front + [last];
    }
  }

  lemma {:induction false} AcknowledgeKeeps(rows: seq<Media>, m: Media)
    requires Unique(rows)
    ensures Unique(Acknowledge(rows, m)) && |Acknowledge(rows, m)| == |rows|
    ensures Total(Acknowledge(rows, m)) == Total(rows)
    decreases |rows|
  {
    if rows == [] {
    } else {
      var front, last := rows[..|rows| - 1], rows[|rows| - 1];
      AcknowledgeKeeps(front, m);
      var out := Acknowledge(front, m);
      var r := if Is(last, m) then last.(ready := true, expires := m.expires) else last;
      forall x | x in out ensures !SamePlace(x, r) && x.key != r.key {
        AcknowledgeMembers(front, m, x);
      }
    }
  }

  lemma {:induction false} ForgetMembers(rows: seq<Media>, m: Media, x: Media)
    ensures x in Forget(rows, m) <==> x in rows && !Is(x, m)
  {
    if rows == [] {
    } else {
      var front, last := rows[..|rows| - 1], rows[|rows| - 1];
      ForgetMembers(front, m, x);
      assert rows == front + [last];
    }
  }

  lemma {:induction false} ForgetKeeps(rows: seq<Media>, m: Media)
    requires Unique(rows)
    ensures Unique(Forget(rows, m)) && |Forget(rows, m)| <= |rows| && Total(Forget(rows, m)) <= Total(rows)
    decreases |rows|
  {
    if rows == [] {
    } else {
      var front, last := rows[..|rows| - 1], rows[|rows| - 1];
      ForgetKeeps(front, m);
      var out := Forget(front, m);
      forall x | x in out ensures x in front {
        ForgetMembers(front, m, x);
      }
    }
  }

  /** Deleting a row gives back exactly its own size. */
  lemma {:induction false} ForgetGivesBack(rows: seq<Media>, m: Media, r: Media)
    requires Unique(rows) && r in rows && Is(r, m)
    ensures |Forget(rows, m)| == |rows| - 1 && Total(Forget(rows, m)) == Total(rows) - r.size
    decreases |rows|
  {
    var front, last := rows[..|rows| - 1], rows[|rows| - 1];
    assert rows == front + [last];
    if Is(last, m) {
      assert r == last;
      ForgetNothing(front, m);
    } else {
      ForgetGivesBack(front, m, r);
    }
  }

  /** Rows of a well-formed table are known by their key, and by their place. */
  lemma {:induction false} OneRowPerKey(rows: seq<Media>, a: Media, b: Media)
    requires Unique(rows) && a in rows && b in rows && (a.key == b.key || SamePlace(a, b))
    ensures a == b
    decreases |rows|
  {
    var front, last := rows[..|rows| - 1], rows[|rows| - 1];
    assert rows == front + [last];
    if a != last && b != last {
      OneRowPerKey(front, a, b);
    }
  }

  /// The table as an object

  function Expired(rows: seq<Media>, limit: int): seq<Media> {
    if rows == [] then []
    else
      var front, r := Expired(rows[..|rows| - 1], limit), rows[|rows| - 1];
      if r.expires <= limit then front + [r] else front
  }

  ghost predicate Distinct(rows: seq<Media>) {
    forall i, j :: 0 <= i < j < |rows| ==> rows[i] != rows[j]
  }

  lemma {:induction false} ExpiredMembers(rows: seq<Media>, limit: int, x: Media)
    ensures x in Expired(rows, limit) <==> x in rows && x.expires <= limit
  {
    if rows == [] {
    } else {
      var front, last := rows[..|rows| - 1], rows[|rows| - 1];
      ExpiredMembers(front, limit, x);
      assert rows == front + [last];
    }
  }

  lemma {:induction false} ExpiredDistinct(rows: seq<Media>, limit: int)
    requires Unique(rows)
    ensures Distinct(Expired(rows, limit))
  {
    if rows == [] {
    } else {
      var front, last := rows[..|rows| - 1], rows[|rows| - 1];
      ExpiredDistinct(front, limit);
      forall x | x in Expired(front, limit) ensures x in front {
        ExpiredMembers(front, limit, x);
      }
    }
  }

  method Earliest(rows: seq<Media>) returns (k: nat)
    requires rows != []
    ensures k < |rows| && forall r :: r in rows ==> rows[k].expires <= r.expires
  {
    k := 0;
    for i := 1 to |rows|
      invariant k < |rows| && forall j :: 0 <= j < i ==> rows[k].expires <= rows[j].expires
    {
      if rows[i].expires < rows[k].expires {
        k := i;
      }
    }
  }

  /** What the page and the rows left over satisfy while the page fills up. */
  ghost predicate Filling(page: seq<Media>, left: seq<Media>) {
    && Distinct(left) && Distinct(page)
    && (forall m, r :: m in page && r in left ==> m.expires <= r.expires && m != r)
    && (forall i, j :: 0 <= i < j < |page| ==> page[i].expires <= page[j].expires)
  }

  function Without(rows: seq<Media>, k: nat): seq<Media>
    requires k < |rows|
  {
    rows[..k] + rows[k + 1..]
  }

  class Table {
    var rows: seq<Media>

    constructor ()
      ensures rows == []
    {
      rows := [];
    }

    method ReserveMedia(m: Media, chatValid: bool, now: int) returns (error: Option<ReserveError>)
      requires WellFormed(rows)
      modifies this
      ensures WellFormed(rows)
      ensures match Reserve(old(rows), m, chatValid, now)
              case Ok(after) => error == None && rows == after
              case Err(e) => error == Some(e) && rows == old(rows)
    {
      if !chatValid || !History.ValidId(m.id) || m.size < 1 || m.size > MAX_SIZE || m.expires <= Milli(now) {
        return Some(InvalidMedia);
      }
      var count, total := |rows|, Total(rows);
      if count >= MAX_ROWS || total + m.size > MAX_TOTAL {
        return Some(QuotaExceeded);
      }
      if !Clear(rows, m) {
        return Some(AlreadyStored);
      }
      ReserveAdds(rows, m, chatValid, now);
      rows := rows + [m.(ready := false)];
      error := None;
    }

    method FinishMedia(m: Media) returns (found: bool)
      requires WellFormed(rows)
      modifies this
      ensures WellFormed(rows) && rows == Acknowledge(old(rows), m)
      ensures found <==> exists r :: r in old(rows) && Is(r, m)
    {
      found := exists r | r in rows :: Is(r, m);
      AcknowledgeKeeps(rows, m);
      rows := Acknowledge(rows, m);
    }

    method Media(chat: string, id: string, now: int) returns (found: Option<Media>)
      ensures found.Some? ==> found.value in rows && Available(found.value, chat, id, now)
      ensures found == None ==> forall r :: r in rows ==> !Available(r, chat, id, now)
    {
      for i := 0 to |rows|
        invariant forall r :: r in rows[..i] ==> !Available(r, chat, id, now)
      {
        if Available(rows[i], chat, id, now) {
          return Some(rows[i]);
        }
      }
      assert rows[..|rows|] == rows;
      found := None;
    }

    method ExpiredMedia(limit: int) returns (page: seq<Media>)
      requires WellFormed(rows)
      ensures IsExpiredPage(page, rows, limit)
    {
      var left := Expired(rows, limit);
      ExpiredDistinct(rows, limit);
      forall x ensures x in left <==> x in rows && x.expires <= limit {
        ExpiredMembers(rows, limit, x);
      }
      page := [];
      while |page| < PAGE && left != []
        invariant |page| <= PAGE && Filling(page, left)
        invariant forall x :: x in page || x in left <==> x in rows && x.expires <= limit
        decreases |left|
      {
        var k := Earliest(left);
        page, left := page + [left[k]], Without(left, k);
      }
    }

    method ForgetMedia(m: Media)
      requires WellFormed(rows)
      modifies this
      ensures WellFormed(rows) && rows == Forget(old(rows), m)
    {
      ForgetKeeps(rows, m);
      rows := Forget(rows, m);
    }
  }
}
