/**
 vault.Vault as an object: Archive, Download, Delete and Cleanup carried out one after another on
 the metadata table and the bucket.  Vault.dfy is about what happens when such calls interleave.
 */
module VaultStore {
  import opened Prelude
  import opened MediaTable
  import opened V = Vault

  /** A failed bucket request may or may not have had its effect. */
  datatype Reply = Done | Failed(anyway: bool)

  datatype ArchiveError = BadConfiguration | NotReserved(reason: ReserveError) | UploadFailed | NotAcknowledged

  datatype DeleteError = NotOwned | DeletionFailed

  function KeysOf(todo: seq<Media>): set<Key> {
    set m | m in todo :: m.key
  }

  /**
   What a download answers: without a ready row that has not expired, not found; otherwise as the one
   such row of the message says.
   */
  ghost predicate IsAnswer(
      rows: seq<Media>, objects: map<Key, seq<byte>>, session: string, chat: string, id: string, now: int,
      answers: bool, r: Result<seq<byte>, DownloadError>)
  {
    && ((forall m :: m in rows && m.chat == chat && m.id == id && m.ready ==> m.expires <= Milli(now)) ==>
          r == Err(NotFound))
    && (forall m :: m in rows && m.chat == chat && m.id == id && m.ready && Milli(now) < m.expires ==>
          if m.key.account != Digest(session) || m.key.item != Digest(chat + "\0" + id) then r == Err(WrongOwner)
          else if !answers || m.key !in objects then r == Err(Unavailable)
          else if |objects[m.key]| == m.size && ContentHash(objects[m.key]) == m.hash then r == Ok(objects[m.key])
          else r == Err(Corrupt))
  }

  /** An archive can be downloaded by its session until it expires, and by nobody from then on. */
  lemma ServedUntilExpiry(
      rows: seq<Media>, objects: map<Key, seq<byte>>, m: Media, session: string, now: int,
      answers: bool, r: Result<seq<byte>, DownloadError>)
    requires WellFormed(rows) && m in rows && m.ready && IsAnswer(rows, objects, session, m.chat, m.id, now, answers, r)
    requires m.key in objects && m.size == |objects[m.key]| && m.hash == ContentHash(objects[m.key])
    ensures m.expires <= Milli(now) ==> r == Err(NotFound)
    ensures Milli(now) < m.expires ==>
      r == (if !Owns(session, m) then Err(WrongOwner) else if answers then Ok(objects[m.key]) else Err(Unavailable))
  {
    forall x | x in rows && SamePlace(x, m) ensures x == m {
      OneRowPerKey(rows, x, m);
    }
  }

  lemma ServedAtAllTimes(rows: seq<Media>, objects: map<Key, seq<byte>>, m: Media, session: string)
    requires WellFormed(rows) && m in rows && m.ready && Owns(session, m)
    requires m.key in objects && m.size == |objects[m.key]| && m.hash == ContentHash(objects[m.key])
    ensures forall now, answers, r :: IsAnswer(rows, objects, session, m.chat, m.id, now, answers, r) ==>
      r == if m.expires <= Milli(now) then Err(NotFound) else if answers then Ok(objects[m.key]) else Err(Unavailable)
  {
    forall now, answers, r | IsAnswer(rows, objects, session, m.chat, m.id, now, answers, r)
      ensures r ==
        if m.expires <= Milli(now) then Err(NotFound) else if answers then Ok(objects[m.key]) else Err(Unavailable)
    {
      ServedUntilExpiry(rows, objects, m, session, now, answers, r);
    }
  }

  lemma PrefixKeys(page: seq<Media>, k: nat)
    requires k <= |page|
    ensures KeysOf(page[..k]) <= KeysOf(page) && (k < |page| ==> KeysOf(page[..k + 1]) <= KeysOf(page))
  {
    forall x | x in page[..k] ensures x in page {
    }
    if k < |page| {
      forall x | x in page[..k + 1] ensures x in page {
      }
    }
  }

  /** Once its reservation is acknowledged, an archive is served. */
  lemma AcknowledgedIsServed(
      rows: seq<Media>, objects: map<Key, seq<byte>>, m: Media, reservation: Media, session: string)
    requires WellFormed(rows) && reservation in rows && m == reservation.(ready := true, expires := m.expires)
    requires Owns(session, m) && m.key in objects && m.size == |objects[m.key]| && m.hash == ContentHash(objects[m.key])
    ensures var after := Acknowledge(rows, m);
      m in after && forall now, answers, r :: IsAnswer(after, objects, session, m.chat, m.id, now, answers, r) ==>
        r == if m.expires <= Milli(now) then Err(NotFound) else if answers then Ok(objects[m.key]) else Err(Unavailable)
  {
    AcknowledgeMembers(rows, m, m);
    AcknowledgeKeeps(rows, m);
    ServedAtAllTimes(Acknowledge(rows, m), objects, m, session);
  }

  /** What has not expired is neither on the page nor has the key of anything on it. */
  lemma UnexpiredStay(rows: seq<Media>, after: seq<Media>, page: seq<Media>, todo: seq<Media>, limit: int, m: Media)
    requires WellFormed(rows) && IsExpiredPage(page, rows, limit) && todo <= page && Cleared(rows, after, todo)
    requires m in rows && limit < m.expires
    ensures m in after && m.key !in KeysOf(page)
  {
    forall x | x in page ensures x.key != m.key {
      if x.key == m.key {
        OneRowPerKey(rows, x, m);
      }
    }
    forall x | x in todo ensures x in page {
    }
  }

  /** A page that was cleared took every expired row, unless it was full. */
  lemma AllExpiredGone(rows: seq<Media>, after: seq<Media>, page: seq<Media>, limit: int)
    requires IsExpiredPage(page, rows, limit) && |page| < 100 && Cleared(rows, after, page)
    ensures forall m :: m in after ==> limit < m.expires
  {
    forall m | m in after ensures limit < m.expires {
      assert m in rows && (m in page ==> !Is(m, m));
    }
  }

  class Store {
    const config: Config
    const table: Table
    var objects: map<Key, seq<byte>>
    /** Every UUID is new. */
    var issued: nat

    constructor (config: Config, table: Table)
      ensures this.config == config && this.table == table && objects == map[] && issued == 0
    {
      this.config, this.table := config, table;
      objects, issued := map[], 0;
    }

    /**
     A successful archiving can be downloaded by its session, and the archived bytes only, until the
     retention is over; a reservation that was not acknowledged serves nobody and expires in an hour.
     */
    method Archive(r: Request, clk: Clock, reply: Reply) returns (result: Result<Media, ArchiveError>)
      requires WellFormed(table.rows) && clk.retain <= clk.reserve <= clk.check
      modifies this, table
      ensures WellFormed(table.rows)
      ensures !(0 < config.retention <= 30 * 24 * HOUR) ==>
        && result == Err(BadConfiguration)
        && table.rows == old(table.rows) && objects == old(objects) && issued == old(issued)
      ensures 0 < config.retention <= 30 * 24 * HOUR ==>
        var m := MediaOf(config, r, old(issued), clk);
        && issued == old(issued) + 1
        && match Reserve(old(table.rows), Reservation(m, clk), r.chatValid, clk.check)
           case Err(e) => result == Err(NotReserved(e)) && table.rows == old(table.rows) && objects == old(objects)
           case Ok(reserved) =>
             if reply.Failed? then
               && result == Err(UploadFailed) && table.rows == reserved
               && objects == (if reply.anyway then old(objects)[m.key := r.data] else old(objects))
             else
               result == Ok(m) && objects == old(objects)[m.key := r.data] && table.rows == Acknowledge(reserved, m)
      ensures result.Ok? ==> var m := result.value;
        && m.chat == r.chat && m.id == r.id && m.mime == r.mime && m.size == |r.data| && m.hash == ContentHash(r.data)
        && m.ready && m.expires == Milli(clk.retain + config.retention)
        && m.key == Key(Digest(config.session), Digest(r.chat + "\0" + r.id), old(issued))
        && m in table.rows && m.key in objects && objects[m.key] == r.data
      ensures result.Ok? ==>
        forall now, answers, a :: IsAnswer(table.rows, objects, config.session, r.chat, r.id, now, answers, a) ==>
          a == if Milli(clk.retain + config.retention) <= Milli(now) then Err(NotFound)
               else if answers then Ok(r.data) else Err(Unavailable)
      ensures result.Err? ==> forall m :: m in table.rows && m !in old(table.rows) ==>
        m.chat == r.chat && m.id == r.id && !m.ready && m.expires == Milli(clk.reserve) + 3_600_000
    {
      if !ValidConfig(config) {
        return Err(BadConfiguration);
      }
      var m := MediaOf(config, r, issued, clk);
      issued := issued + 1;
      var refused := table.ReserveMedia(Reservation(m, clk), r.chatValid, clk.check);
      if refused.Some? {
        return Err(NotReserved(refused.value));
      }
      assert Is(Reservation(m, clk), m) && Reservation(m, clk) in table.rows;
      if reply.Failed? {
        // The reservation stays: retention cleans up whatever arrived.
        if reply.anyway {
          objects := objects[m.key := r.data];
        }
        return Err(UploadFailed);
      }
      objects := objects[m.key := r.data];
      AcknowledgedIsServed(table.rows, objects, m, Reservation(m, clk), config.session);
      var found := table.FinishMedia(m);
      result := if found then Ok(m) else Err(NotAcknowledged);
    }

    /** The bucket answers, or not.  A message has at most one row, and every outcome is determined by it. */
    method Fetch(session: string, chat: string, id: string, now: int, answers: bool)
      returns (r: Result<seq<byte>, DownloadError>)
      requires WellFormed(table.rows)
      ensures IsAnswer(table.rows, objects, session, chat, id, now, answers, r)
    {
      var found := table.Media(chat, id, now);
      if found == None {
        return Err(NotFound);
      }
      var m := found.value;
      forall x | x in table.rows && Available(x, chat, id, now) ensures x == m {
        OneRowPerKey(table.rows, x, m);
      }
      r := Download(session, found, if answers && m.key in objects then Some(objects[m.key]) else None);
    }

    /** The object first, then the row, and the row only if the object is known to be gone. */
    method Delete(m: Media, reply: Reply) returns (error: Option<DeleteError>)
      requires WellFormed(table.rows)
      modifies this, table
      ensures WellFormed(table.rows) && issued == old(issued)
      ensures error == None <==> Owns(config.session, m) && reply == Done
      ensures table.rows == (if error == None then Forget(old(table.rows), m) else old(table.rows))
      ensures objects ==
        (if Owns(config.session, m) && reply != Failed(false) then old(objects) - {m.key} else old(objects))
    {
      if !Owns(config.session, m) {
        return Some(NotOwned);
      }
      if reply != Failed(false) {
        objects := objects - {m.key};
      }
      if reply.Failed? {
        return Some(DeletionFailed);
      }
      table.ForgetMedia(m);
      error := None;
    }

    /** Deletes the listed archives in turn, and stops at the first failure. */
    method DeleteAll(list: seq<Media>, replies: seq<Reply>) returns (error: Option<DeleteError>, done: nat)
      requires WellFormed(table.rows) && |replies| >= |list|
      modifies this, table
      ensures WellFormed(table.rows) && issued == old(issued)
      ensures done <= |list| && (error == None <==> done == |list|)
      ensures done < |list| ==> !(Owns(config.session, list[done]) && replies[done] == Done)
      ensures table.rows == ForgetAll(old(table.rows), list[..done])
      ensures objects == RemoveAll(old(objects), list[..done])
        || (done < |list| && replies[done] == Failed(true) && objects == RemoveAll(old(objects), list[..done + 1]))
    {
      done := 0;
      error := None;
      while done < |list|
        invariant WellFormed(table.rows) && issued == old(issued) && done <= |list| && error == None
        invariant table.rows == ForgetAll(old(table.rows), list[..done])
        invariant objects == RemoveAll(old(objects), list[..done])
      {
        assert list[..done + 1][..done] == list[..done];
        error := Delete(list[done], replies[done]);
        if error != None {
          return;
        }
        done := done + 1;
      }
    }

    /**
     Deletes the first hundred expired archives, and stops at the first failure.  What has not expired
     stays, row and object; and no expired row is left unless a deletion failed or there were a hundred.
     */
    method Cleanup(now: int, replies: seq<Reply>)
      returns (error: Option<DeleteError>, ghost page: seq<Media>, done: nat)
      requires WellFormed(table.rows) && |replies| >= PAGE
      modifies this, table
      ensures WellFormed(table.rows) && issued == old(issued)
      ensures IsExpiredPage(page, old(table.rows), Milli(now))
      ensures done <= |page| && (error == None <==> done == |page|)
      ensures done < |page| ==> !(Owns(config.session, page[done]) && replies[done] == Done)
      ensures Cleared(old(table.rows), table.rows, page[..done])
      ensures objects == old(objects) - KeysOf(page[..done])
        || (done < |page| && replies[done] == Failed(true) && objects == old(objects) - KeysOf(page[..done + 1]))
      ensures forall m :: m in old(table.rows) && Milli(now) < m.expires ==>
        m in table.rows && (m.key in old(objects) ==> m.key in objects && objects[m.key] == old(objects)[m.key])
      ensures error == None && |page| < 100 ==> forall m :: m in table.rows ==> Milli(now) < m.expires
    {
      var list := table.ExpiredMedia(Milli(now));
      page := list;
      error, done := DeleteAll(list, replies);
      DeletingAll(old(table.rows), old(objects), list[..done]);
      if done < |list| {
        DeletingAll(old(table.rows), old(objects), list[..done + 1]);
      }
      forall m | m in old(table.rows) && Milli(now) < m.expires ensures m in table.rows && m.key !in KeysOf(page) {
        UnexpiredStay(old(table.rows), table.rows, page, page[..done], Milli(now), m);
      }
      PrefixKeys(page, done);
      if done == |page| < 100 {
        assert page[..done] == page;
        AllExpiredGone(old(table.rows), table.rows, page, Milli(now));
      }
    }
  }

  function ForgetAll(rows: seq<Media>, todo: seq<Media>): seq<Media> {
    if todo == [] then rows else Forget(ForgetAll(rows, todo[..|todo| - 1]), todo[|todo| - 1])
  }

  function RemoveAll(objects: map<Key, seq<byte>>, todo: seq<Media>): map<Key, seq<byte>> {
    if todo == [] then objects else RemoveAll(objects, todo[..|todo| - 1]) - {todo[|todo| - 1].key}
  }

  /** Deleting a list of archives takes away exactly its rows and its objects. */
  lemma {:induction false} DeletingAll(rows: seq<Media>, objects: map<Key, seq<byte>>, todo: seq<Media>)
    ensures Cleared(rows, ForgetAll(rows, todo), todo)
    ensures RemoveAll(objects, todo) == objects - KeysOf(todo)
  {
    if todo == [] {
    } else {
      var front, last := todo[..|todo| - 1], todo[|todo| - 1];
      DeletingAll(rows, objects, front);
      assert todo == front + [last];
      assert KeysOf(todo) == KeysOf(front) + {last.key};
      var middle := ForgetAll(rows, front);
      forall r ensures r in Forget(middle, last) <==> r in middle && !Is(r, last) {
        ForgetMembers(middle, last, r);
      }
    }
  }
}
