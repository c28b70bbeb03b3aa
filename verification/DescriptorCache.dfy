/**
 The bounded cache of media descriptors (internal/media/store.go:15-81): a map into a linked list,
 proved against a sequence of entries, and that sequence against the whole trace of calls.
 */
module DescriptorCache {
  import opened Prelude

  const CACHE_ENTRIES := 1024
  const CACHE_TTL := 24 * HOUR

  datatype Attachment = Attachment(descriptor: string, mimetype: string, filename: string, length: nat)

  datatype Entry = Entry(id: string, a: Attachment, expires: int)

  /// The cache as a sequence, oldest first

  function Without(es: seq<Entry>, id: string): seq<Entry> {
    if es == [] then []
    else if es[0].id == id then Without(es[1..], id)
    else [es[0]] + Without(es[1..], id)
  }

  /** FIFO eviction down to the capacity. */
  function Trim(es: seq<Entry>): seq<Entry> {
    if |es| > CACHE_ENTRIES then es[|es| - CACHE_ENTRIES..] else es
  }

  function Remembered(es: seq<Entry>, id: string, a: Attachment, now: int): seq<Entry> {
    Trim(Without(es, id) + [Entry(id, a, now + CACHE_TTL)])
  }

  function Lookup(es: seq<Entry>, id: string): Option<Entry> {
    if es == [] then None
    else if es[0].id == id then Some(es[0])
    else Lookup(es[1..], id)
  }

  /** Get's answer and what it leaves behind: an expired entry is dropped on sight. */
  function Got(es: seq<Entry>, id: string, now: int): (seq<Entry>, Option<Attachment>) {
    match Lookup(es, id)
    case None => (es, None)
    case Some(e) => if now < e.expires then (es, Some(e.a)) else (Without(es, id), None)
  }

  ghost predicate DistinctIds(es: seq<Entry>) {
    forall i, j :: 0 <= i < j < |es| ==> es[i].id != es[j].id
  }

  lemma {:induction false} WithoutAt(es: seq<Entry>, id: string, i: nat)
    requires DistinctIds(es) && i < |es| && es[i].id == id
    ensures Without(es, id) == es[..i] + es[i + 1..]
  {
    if i == 0 {
      WithoutAbsent(es[1..], id);
    } else {
      WithoutAt(es[1..], id, i - 1);
      assert es[..i] == [es[0]] + es[1..][..i - 1];
    }
  }

  lemma {:induction false} WithoutAbsent(es: seq<Entry>, id: string)
    requires forall e :: e in es ==> e.id != id
    ensures Without(es, id) == es
  {
    if es == [] {
    } else {
      WithoutAbsent(es[1..], id);
    }
  }

  lemma {:induction false} LookupAt(es: seq<Entry>, id: string)
    ensures match Lookup(es, id)
      case None => forall e :: e in es ==> e.id != id
      case Some(e) => e in es && e.id == id
  {
    if es == [] {
    } else {
      LookupAt(es[1..], id);
      assert es == [es[0]] + es[1..];
    }
  }

  /// The object: a map into a doubly linked list

  /** A list element; its value never changes. */
  class Element {
    const entry: Entry

    constructor (entry: Entry)
      ensures this.entry == entry
    {
      this.entry := entry;
    }
  }

  /** Elements never change, so what a list holds does not depend on the heap. */
  function EntriesOf(order: seq<Element>): (es: seq<Entry>)
    ensures |es| == |order|
  {
    if order == [] then [] else [order[0].entry] + EntriesOf(order[1..])
  }

  lemma {:induction false} EntriesAt(order: seq<Element>)
    ensures forall i :: 0 <= i < |order| ==> EntriesOf(order)[i] == order[i].entry
  {
    if order == [] {
    } else {
      EntriesAt(order[1..]);
    }
  }

  lemma {:induction false} EntriesSnoc(order: seq<Element>, e: Element)
    ensures EntriesOf(order + [e]) == EntriesOf(order) + [e.entry]
  {
    if order == [] {
      assert order + [e] == [e] && [e][1..] == [];
    } else {
      EntriesSnoc(order[1..], e);
      assert (order + [e])[1..] == order[1..] + [e];
    }
  }

  ghost predicate OnePerId(order: seq<Element>) {
    forall i, j :: 0 <= i < j < |order| ==> order[i].entry.id != order[j].entry.id
  }

  lemma {:induction false} UnlinkEntries(order: seq<Element>, i: nat)
    requires OnePerId(order) && i < |order|
    ensures EntriesOf(order[..i] + order[i + 1..]) == Without(EntriesOf(order), order[i].entry.id)
  {
    var rest := order[1..];
    if i == 0 {
      assert order[..0] + order[1..] == rest;
      EntriesAt(rest);
      WithoutAbsent(EntriesOf(rest), order[0].entry.id);
    } else {
      UnlinkEntries(rest, i - 1);
      assert order[..i] + order[i + 1..] == [order[0]] + (rest[..i - 1] + rest[i..]);
      assert ([order[0]] + (rest[..i - 1] + rest[i..]))[1..] == rest[..i - 1] + rest[i..];
    }
  }

  class Store {
    var items: map<string, Element>
    var order: seq<Element>

    /** Map and list hold the same elements, one per id. */
    ghost predicate Valid()
      reads this
    {
      && OnePerId(order)
      && (forall e :: e in order ==> e.entry.id in items && items[e.entry.id] == e)
      && (forall id :: id in items ==> items[id] in order && items[id].entry.id == id)
    }

    ghost function Entries(): (es: seq<Entry>)
      reads this
    {
      EntriesOf(order)
    }

    constructor ()
      ensures Valid() && Entries() == []
    {
      items, order := map[], [];
    }

    method Position(e: Element) returns (i: nat)
      requires e in order
      ensures i < |order| && order[i] == e
    {
      i := 0;
      while order[i] != e
        invariant i < |order| && e in order[i..]
        decreases |order| - i
      {
        i := i + 1;
      }
    }

    /** list.Remove of an element of the list. */
    method RemoveElement(e: Element)
      requires Valid() && e in order
      modifies this`order
      ensures forall x :: x in order <==> x in old(order) && x != e
      ensures OnePerId(order)
      ensures Entries() == Without(old(Entries()), e.entry.id)
    {
      var i := Position(e);
      UnlinkEntries(order, i);
      order := order[..i] + order[i + 1..];
    }

    lemma EntryOf(id: string)
      requires Valid() && id in items
      ensures exists e :: e in Entries() && e.id == id
      ensures Lookup(Entries(), id) == Some(items[id].entry)
    {
      EntriesAt(order);
      var i :| 0 <= i < |order| && order[i] == items[id];
      assert Entries()[i] == order[i].entry && Entries()[i] in Entries();
      LookupAt(Entries(), id);
      var e := Lookup(Entries(), id).value;
      var j :| 0 <= j < |order| && Entries()[j] == e;
      assert order[j] in order;
    }

    lemma EntriesDistinct()
      requires Valid()
      ensures DistinctIds(Entries())
      ensures forall id :: id in items <==> exists e :: e in Entries() && e.id == id
      ensures forall id :: id in items ==> Lookup(Entries(), id) == Some(items[id].entry)
    {
      EntriesAt(order);
      forall id | id in items
        ensures (exists e :: e in Entries() && e.id == id) && Lookup(Entries(), id) == Some(items[id].entry)
      {
        EntryOf(id);
      }
      forall id | exists e :: e in Entries() && e.id == id ensures id in items {
        var e :| e in Entries() && e.id == id;
        var j :| 0 <= j < |order| && Entries()[j] == e;
        assert order[j] in order;
      }
    }

    /** `extracted` is the descriptor found in the message, if any. */
    method Remember(id: string, extracted: Option<Attachment>, now: int) returns (ok: bool)
      requires Valid()
      modifies this
      ensures Valid()
      ensures ok <==> extracted.Some? && id != "" && |id| <= 256
      ensures Entries() == if ok then Remembered(old(Entries()), id, extracted.value, now) else old(Entries())
    {
      if extracted == None || id == "" || |id| > 256 {
        return false;
      }
      PushBack(id, extracted.value, now);
      Evict();
      ok := true;
    }

    /** Unlink an old element for the id, append the new one and point the map at it. */
    method PushBack(id: string, a: Attachment, now: int)
      requires Valid()
      modifies this
      ensures Valid()
      ensures Entries() == Without(old(Entries()), id) + [Entry(id, a, now + CACHE_TTL)]
    {
      EntriesDistinct();
      EntriesAt(order);
      if id in items {
        RemoveElement(items[id]);
      } else {
        WithoutAbsent(Entries(), id);
      }
      Link(id, a, now);
    }

    method Link(id: string, a: Attachment, now: int)
      requires OnePerId(order)
      requires forall e :: e in order ==> e.entry.id != id && e.entry.id in items && items[e.entry.id] == e
      requires forall x :: x in items && x != id ==> items[x] in order && items[x].entry.id == x
      modifies this
      ensures Valid()
      ensures Entries() == old(Entries()) + [Entry(id, a, now + CACHE_TTL)]
    {
      var added := new Element(Entry(id, a, now + CACHE_TTL));
      order := order + [added];
      items := items[id := added];
      EntriesSnoc(old(order), added);
    }

    /** Front, delete from the map, list.Remove. */
    method DropOldest()
      requires Valid() && |order| > 0
      modifies this
      ensures Valid()
      ensures Entries() == old(Entries())[1..]
    {
      var oldest := order[0];
      items := items - {oldest.entry.id};
      order := order[1..];
      assert Entries() == old(Entries())[1..];
    }

    method Evict()
      requires Valid()
      modifies this
      ensures Valid()
      ensures Entries() == Trim(old(Entries()))
    {
      while |order| > CACHE_ENTRIES
        invariant Valid() && Trim(Entries()) == Trim(old(Entries()))
        decreases |order|
      {
        DropOldest();
      }
    }

    method Drop(e: Element)
      requires Valid() && e in order
      modifies this
      ensures Valid()
      ensures Entries() == Without(old(Entries()), e.entry.id)
    {
      RemoveElement(e);
      items := items - {e.entry.id};
    }

    method Get(id: string, now: int) returns (r: Option<Attachment>)
      requires Valid()
      modifies this
      ensures Valid()
      ensures (Entries(), r) == Got(old(Entries()), id, now)
    {
      EntriesDistinct();
      LookupAt(Entries(), id);
      if id !in items {
        return None;
      }
      var e := items[id];
      if !(now < e.entry.expires) {
        Drop(e);
        return None;
      }
      r := Some(e.entry.a);
    }
  }

  /// The trace of calls

  /** Accepted Remembers and Gets, with the clock readings they saw. */
  datatype Call = Remember(id: string, a: Attachment, at: int) | Get(id: string, at: int)

  function After(es: seq<Entry>, c: Call): seq<Entry> {
    match c
    case Remember(id, a, at) => Remembered(es, id, a, at)
    case Get(id, at) => Got(es, id, at).0
  }

  function Cache(trace: seq<Call>): seq<Entry> {
    if trace == [] then [] else After(Cache(trace[..|trace| - 1]), trace[|trace| - 1])
  }

  function Now(trace: seq<Call>, start: int): int {
    if trace == [] then start else trace[|trace| - 1].at
  }

  ghost predicate ClockNeverRunsBack(trace: seq<Call>, start: int) {
    trace != [] ==>
      var front := trace[..|trace| - 1];
      ClockNeverRunsBack(front, start) && Now(front, start) <= trace[|trace| - 1].at
  }

  /** The last accepted Remember of the id: its value and its time. */
  function LastPut(trace: seq<Call>, id: string): Option<(Attachment, int)> {
    if trace == [] then None
    else
      var c := trace[|trace| - 1];
      if c.Remember? && c.id == id then Some((c.a, c.at)) else LastPut(trace[..|trace| - 1], id)
  }

  /** The distinct other ids remembered since then. */
  function Others(trace: seq<Call>, id: string): set<string> {
    if trace == [] then {}
    else
      var c := trace[|trace| - 1];
      var before := Others(trace[..|trace| - 1], id);
      if c.Get? then before else if c.id == id then {} else before + {c.id}
  }

  function IdsOf(es: seq<Entry>): set<string> {
    if es == [] then {} else {es[0].id} + IdsOf(es[1..])
  }

  /**
   An entry is the last Remember of its id; those behind it are other ids remembered since, and as
   long as it has not expired, all of them.
   */
  ghost predicate EntryOk(trace: seq<Call>, now: int, e: Entry, behind: seq<Entry>) {
    && LastPut(trace, e.id) == Some((e.a, e.expires - CACHE_TTL))
    && e.id !in IdsOf(behind)
    && e.expires <= now + CACHE_TTL
    && (forall x :: x in behind ==> e.expires <= x.expires)
    && IdsOf(behind) <= Others(trace, e.id)
    && (now < e.expires ==> Others(trace, e.id) <= IdsOf(behind))
  }

  ghost predicate CacheOk(trace: seq<Call>, now: int, es: seq<Entry>) {
    es == [] || (EntryOk(trace, now, es[0], es[1..]) && CacheOk(trace, now, es[1..]))
  }

  /** A fresh enough, recent enough Remember is still in the cache. */
  ghost predicate Present(trace: seq<Call>, now: int, ids: set<string>, id: string) {
    var p := LastPut(trace, id);
    p.Some? && now < p.value.1 + CACHE_TTL && |Others(trace, id)| < CACHE_ENTRIES ==> id in ids
  }

  /** The cache is what the trace says it should be. */
  ghost predicate InStep(trace: seq<Call>, now: int, es: seq<Entry>) {
    && CacheOk(trace, now, es)
    && |es| <= CACHE_ENTRIES
    && forall x :: Present(trace, now, IdsOf(es), x)
  }

  lemma {:induction false} IdsCount(trace: seq<Call>, now: int, es: seq<Entry>)
    requires CacheOk(trace, now, es)
    ensures |IdsOf(es)| == |es|
    ensures DistinctIds(es)
    ensures forall e :: e in es ==> e.id in IdsOf(es)
  {
    if es == [] {
    } else {
      IdsCount(trace, now, es[1..]);
      assert forall e :: e in es ==> e == es[0] || e in es[1..];
      assert forall i :: 0 < i < |es| ==> es[i] == es[1..][i - 1];
    }
  }

  lemma {:induction false} WithoutIds(es: seq<Entry>, id: string)
    ensures IdsOf(Without(es, id)) == IdsOf(es) - {id}
    ensures forall e :: e in Without(es, id) ==> e in es
    ensures id !in IdsOf(es) ==> Without(es, id) == es
  {
    if es == [] {
    } else {
      WithoutIds(es[1..], id);
      assert forall e :: e in es[1..] ==> e in es;
    }
  }

  lemma {:induction false} LookupInOk(trace: seq<Call>, now: int, es: seq<Entry>, id: string)
    requires CacheOk(trace, now, es)
    ensures id in IdsOf(es) <==> Lookup(es, id).Some?
    ensures Lookup(es, id).Some? ==>
      var e := Lookup(es, id).value;
      && e in es && LastPut(trace, id) == Some((e.a, e.expires - CACHE_TTL))
      && (now < e.expires ==> |Others(trace, id)| < |es|)
  {
    if es == [] {
    } else {
      LookupInOk(trace, now, es[1..], id);
      if es[0].id == id && now < es[0].expires {
        IdsCount(trace, now, es[1..]);
        SubsetSize(Others(trace, id), IdsOf(es[1..]));
      }
    }
  }

  /// Each call keeps the cache in step with the trace

  /** Time passes. */
  lemma {:induction false} LaterOk(trace: seq<Call>, now: int, later: int, es: seq<Entry>)
    requires CacheOk(trace, now, es) && now <= later
    ensures CacheOk(trace, later, es)
  {
    if es == [] {
    } else {
      LaterOk(trace, now, later, es[1..]);
    }
  }

  lemma StillInStep(trace: seq<Call>, now: int, later: int, es: seq<Entry>)
    requires InStep(trace, now, es) && now <= later
    ensures InStep(trace, later, es)
  {
    LaterOk(trace, now, later, es);
    forall x ensures Present(trace, later, IdsOf(es), x) {
      assert Present(trace, now, IdsOf(es), x);
    }
  }

  lemma DropBehind(trace: seq<Call>, now: int, es: seq<Entry>, id: string)
    requires es != [] && CacheOk(trace, now, es) && es[0].id != id
    requires Lookup(es[1..], id).Some? && Lookup(es[1..], id).value.expires <= now
    ensures EntryOk(trace, now, es[0], Without(es[1..], id))
  {
    WithoutIds(es[1..], id);
    LookupInOk(trace, now, es[1..], id);
    assert es[0].expires <= Lookup(es[1..], id).value.expires;
  }

  /** Dropping an expired entry: everything in front of it has expired as well. */
  lemma {:induction false} DropExpired(trace: seq<Call>, now: int, es: seq<Entry>, id: string)
    requires CacheOk(trace, now, es)
    requires Lookup(es, id).Some? && Lookup(es, id).value.expires <= now
    ensures CacheOk(trace, now, Without(es, id))
  {
    WithoutIds(es[1..], id);
    if es[0].id != id {
      DropBehind(trace, now, es, id);
      DropExpired(trace, now, es[1..], id);
      assert Without(es, id) == [es[0]] + Without(es[1..], id);
    }
  }

  lemma {:induction false} GetNoted(trace: seq<Call>, now: int, es: seq<Entry>, c: Call)
    requires CacheOk(trace, now, es) && c.Get?
    ensures CacheOk(trace + [c], now, es)
  {
    if es == [] {
    } else {
      GetNoted(trace, now, es[1..], c);
    }
  }

  lemma GetKeeps(trace: seq<Call>, es: seq<Entry>, id: string, at: int)
    requires InStep(trace, at, es)
    ensures InStep(trace + [Get(id, at)], at, Got(es, id, at).0)
  {
    var xs := Got(es, id, at).0;
    LookupInOk(trace, at, es, id);
    if xs != es {
      DropExpired(trace, at, es, id);
      WithoutIds(es, id);
      IdsCount(trace, at, es);
      IdsCount(trace, at, xs);
      SubsetSize(IdsOf(xs), IdsOf(es));
    }
    GetNoted(trace, at, xs, Get(id, at));
    forall x ensures Present(trace + [Get(id, at)], at, IdsOf(xs), x) {
      assert Present(trace, at, IdsOf(es), x);
    }
  }

  lemma {:induction false} IdsSnoc(es: seq<Entry>, e: Entry)
    ensures IdsOf(es + [e]) == IdsOf(es) + {e.id}
  {
    if es == [] {
      assert es + [e] == [e] && [e][1..] == [];
    } else {
      IdsSnoc(es[1..], e);
      assert (es + [e])[1..] == es[1..] + [e];
    }
  }

  lemma AppendBehind(trace: seq<Call>, e: Entry, behind: seq<Entry>, id: string, a: Attachment, at: int)
    requires EntryOk(trace, at, e, behind) && e.id != id
    ensures EntryOk(trace + [Remember(id, a, at)], at, e, Without(behind, id) + [Entry(id, a, at + CACHE_TTL)])
  {
    WithoutIds(behind, id);
    IdsSnoc(Without(behind, id), Entry(id, a, at + CACHE_TTL));
  }

  /** The cache with the id unlinked and appended anew, before eviction. */
  lemma {:induction false} AppendKeeps(trace: seq<Call>, es: seq<Entry>, id: string, a: Attachment, at: int)
    requires CacheOk(trace, at, es)
    ensures CacheOk(trace + [Remember(id, a, at)], at, Without(es, id) + [Entry(id, a, at + CACHE_TTL)])
  {
    var all, e := trace + [Remember(id, a, at)], Entry(id, a, at + CACHE_TTL);
    if es == [] {
      assert [] + [e] == [e] + [];
    } else {
      AppendKeeps(trace, es[1..], id, a, at);
      if es[0].id != id {
        var rest := Without(es[1..], id) + [e];
        AppendBehind(trace, es[0], es[1..], id, a, at);
        assert Without(es, id) + [e] == [es[0]] + rest;
      }
    }
  }

  /** Eviction of the oldest entry when there is one too many. */
  lemma TrimKeeps(trace: seq<Call>, now: int, xs: seq<Entry>)
    requires CacheOk(trace, now, xs) && |xs| <= CACHE_ENTRIES + 1 && forall x :: Present(trace, now, IdsOf(xs), x)
    ensures InStep(trace, now, Trim(xs))
  {
    if |xs| > CACHE_ENTRIES {
      assert Trim(xs) == xs[1..];
      IdsCount(trace, now, xs[1..]);
      SubsetSize(IdsOf(xs[1..]), Others(trace, xs[0].id));
      forall x ensures Present(trace, now, IdsOf(xs[1..]), x) {
        assert Present(trace, now, IdsOf(xs), x);
      }
    }
  }

  lemma RememberKeeps(trace: seq<Call>, es: seq<Entry>, id: string, a: Attachment, at: int)
    requires InStep(trace, at, es)
    ensures InStep(trace + [Remember(id, a, at)], at, Remembered(es, id, a, at))
  {
    var all := trace + [Remember(id, a, at)];
    var xs := Without(es, id) + [Entry(id, a, at + CACHE_TTL)];
    AppendKeeps(trace, es, id, a, at);
    WithoutIds(es, id);
    IdsSnoc(Without(es, id), Entry(id, a, at + CACHE_TTL));
    forall x ensures Present(all, at, IdsOf(xs), x) {
      assert Present(trace, at, IdsOf(es), x);
      if x != id { SubsetSize(Others(trace, x), Others(all, x)); }
    }
    IdsCount(trace, at, es);
    IdsCount(all, at, xs);
    TrimKeeps(all, at, xs);
  }

  lemma {:induction false} CacheFollowsTrace(trace: seq<Call>, start: int)
    requires ClockNeverRunsBack(trace, start)
    ensures InStep(trace, Now(trace, start), Cache(trace))
  {
    if trace == [] {
    } else {
      var front, c := trace[..|trace| - 1], trace[|trace| - 1];
      assert trace == front + [c];
      CacheFollowsTrace(front, start);
      StillInStep(front, Now(front, start), c.at, Cache(front));
      match c
      case Get(id, at) => GetKeeps(front, Cache(front), id, at);
      case Remember(id, a, at) => RememberKeeps(front, Cache(front), id, a, at);
    }
  }

  /**
   The cache refines its trace exactly: on a clock that never runs back, Get hits iff the last
   accepted Remember of the id is less than 24 h old and at most 1023 distinct other ids were
   remembered since, and then it returns that call's descriptor.
   */
  lemma GetRefinesTrace(trace: seq<Call>, start: int, id: string, now: int)
    requires ClockNeverRunsBack(trace, start) && Now(trace, start) <= now
    ensures Got(Cache(trace), id, now).1 ==
      match LastPut(trace, id)
      case None => None
      case Some((a, at)) => if now < at + 24 * HOUR && |Others(trace, id)| < 1024 then Some(a) else None
  {
    var es := Cache(trace);
    CacheFollowsTrace(trace, start);
    StillInStep(trace, Now(trace, start), now, es);
    assert Present(trace, now, IdsOf(es), id);
    LookupInOk(trace, now, es, id);
  }

  /** The cache never holds more than 1024 entries, one per id. */
  lemma CacheIsBounded(trace: seq<Call>, start: int)
    requires ClockNeverRunsBack(trace, start)
    ensures |Cache(trace)| <= 1024 && DistinctIds(Cache(trace))
  {
    CacheFollowsTrace(trace, start);
    IdsCount(trace, Now(trace, start), Cache(trace));
  }
}
