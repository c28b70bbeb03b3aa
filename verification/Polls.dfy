/**
 Poll votes and their tally (Vote and PollResults, internal/history/metadata.go:143-233).  SHA-256 is
 taken to be injective: a stored hash is represented by the option it is the hash of.
 */
module Polls {
  import opened Prelude
  import opened History

  const MAX_VOTES := 100_000

  datatype Ballot = Ballot(options: seq<string>, selectable: nat)

  datatype VoteError = NotFound | NotAPoll | Invalid | UnknownOption | QuotaReached

  /** The poll in a message, as `decode` reads it from the stored protocol bytes. */
  function PollOf(m: Message, decode: seq<byte> -> Option<Ballot>): Option<Ballot> {
    if m.deleted then None
    else
      match decode(m.protocol)
      case None => None
      case Some(b) => if 2 <= |b.options| <= 12 then Some(b) else None
  }

  /** Get: a message of the chat that is still in retention. */
  function Find(msgs: seq<Message>, chat: string, id: string, cutoff: int): Option<Message> {
    if msgs == [] then None
    else if msgs[0].chat == chat && msgs[0].id == id && msgs[0].t >= cutoff then Some(msgs[0])
    else Find(msgs[1..], chat, id, cutoff)
  }

  /** Selected hashes as option names; None for a hash of no option of this poll, or one of the wrong length. */
  datatype VoteArgs = VoteArgs(voter: string, voterValid: bool, at: int, selected: seq<string>)

  predicate NoDuplicates(s: seq<string>) {
    forall i, j :: 0 <= i < j < |s| ==> s[i] != s[j]
  }

  /** The checks of Vote, in order, for a poll that was found. */
  function Check(b: Ballot, a: VoteArgs, now: int): Option<VoteError> {
    if !a.voterValid || |a.selected| > |b.options| || (b.selectable > 0 && |a.selected| > b.selectable)
       || a.at <= 0 || a.at > Milli(now + 24 * HOUR) then Some(Invalid)
    else if !(forall c :: c in a.selected ==> c in b.options) || !NoDuplicates(a.selected) then Some(UnknownOption)
    else None
  }

  /** The upsert: a later timestamp replaces, an equal or earlier one is ignored, a new voter needs quota. */
  function Cast(votes: map<VoteKey, Vote>, k: VoteKey, v: Vote): Option<map<VoteKey, Vote>> {
    if k in votes then Some(if v.updated > votes[k].updated then votes[k := v] else votes)
    else if |votes| < MAX_VOTES then Some(votes[k := v])
    else None
  }

  /** The first half of Vote: find the poll and check the vote.  What is to be stored is a row of its own. */
  function LookUp(
      t: Tables, o: Options, chat: string, poll: string, decode: seq<byte> -> Option<Ballot>, a: VoteArgs, now: int)
    : Result<(VoteKey, Vote), VoteError>
  {
    match Find(t.msgs, chat, poll, Cutoff(o, now))
    case None => Err(NotFound)
    case Some(m) =>
      match PollOf(m, decode)
      case None => Err(NotAPoll)
      case Some(b) =>
        match Check(b, a, now)
        case Some(e) => Err(e)
        case None => Ok((VoteKey(chat, poll, a.voter), Vote(a.at, a.selected)))
  }

  /** The second half, a statement of its own: the message is not looked at again. */
  function StoreVote(t: Tables, k: VoteKey, v: Vote): Result<Tables, VoteError> {
    match Cast(t.votes, k, v)
    case None => Err(QuotaReached)
    case Some(votes) => Ok(t.(votes := votes))
  }

  /** The checks of Vote as the loop over the hashes performs them. */
  method CheckStepByStep(b: Ballot, a: VoteArgs, now: int) returns (r: Option<VoteError>)
    ensures r == Check(b, a, now)
  {
    if !a.voterValid || |a.selected| > |b.options| || (b.selectable > 0 && |a.selected| > b.selectable)
       || a.at <= 0 || a.at > Milli(now + 24 * HOUR) {
      return Some(Invalid);
    }
    var seen: set<string> := {};
    for i := 0 to |a.selected|
      invariant seen == set c | c in a.selected[..i]
      invariant forall j :: 0 <= j < i ==> a.selected[j] in b.options
      invariant NoDuplicates(a.selected[..i])
    {
      var c := a.selected[i];
      if c !in b.options || c in seen {
        if c in seen {
          var j :| 0 <= j < i && a.selected[..i][j] == c;
          assert a.selected[j] == a.selected[i];
        }
        return Some(UnknownOption);
      }
      seen := seen + {c};
      assert a.selected[..i + 1] == a.selected[..i] + [c];
    }
    assert a.selected[..|a.selected|] == a.selected;
    r := None;
  }

  /// Stored votes

  ghost predicate VotesOk(votes: map<VoteKey, Vote>) {
    && |votes| <= 100_000
    && forall k :: k in votes ==> NoDuplicates(votes[k].choices)
  }

  lemma {:induction false} FoundExists(msgs: seq<Message>, chat: string, id: string, cutoff: int)
    requires Find(msgs, chat, id, cutoff).Some?
    ensures Exists(msgs, chat, id)
  {
    if msgs[0].chat == chat && msgs[0].id == id {
      assert msgs[0] in msgs;
    } else {
      FoundExists(msgs[1..], chat, id, cutoff);
      var m :| m in msgs[1..] && m.chat == chat && m.id == id;
      assert m in msgs;
    }
  }

  /** When a vote fails the checks, and why: what it says of itself first, then the options it selects. */
  lemma CheckMeans(b: Ballot, a: VoteArgs, now: int)
    ensures var inOrder := a.voterValid
        && |a.selected| <= |b.options| && (b.selectable > 0 ==> |a.selected| <= b.selectable)
        && 0 < a.at <= now / 1_000_000 + 86_400_000;
      var known := (forall c :: c in a.selected ==> c in b.options) && NoDuplicates(a.selected);
      && (Check(b, a, now) == Some(Invalid) <==> !inOrder)
      && (Check(b, a, now) == Some(UnknownOption) <==> inOrder && !known)
      && (Check(b, a, now) == None <==> inOrder && known)
  {
  }

  /** The row that Find returns, and that there is none otherwise. */
  lemma {:induction false} FindMeans(msgs: seq<Message>, chat: string, id: string, cutoff: int)
    ensures Find(msgs, chat, id, cutoff).Some? ==>
      var m := Find(msgs, chat, id, cutoff).value; m in msgs && m.chat == chat && m.id == id && m.t >= cutoff
    ensures Find(msgs, chat, id, cutoff) == None ==>
      forall m :: m in msgs && m.chat == chat && m.id == id ==> m.t < cutoff
  {
    if msgs == [] {
    } else {
      FindMeans(msgs[1..], chat, id, cutoff);
      assert msgs == [msgs[0]] + msgs[1..];
    }
  }

  /** The poll voted on: archived, in retention and not deleted, with 2 to 12 options. */
  ghost predicate IsPoll(
      t: Tables, o: Options, chat: string, poll: string, decode: seq<byte> -> Option<Ballot>, now: int, b: Ballot)
  {
    2 <= |b.options| <= 12 &&
    exists m :: m in t.msgs && m.chat == chat && m.id == poll && m.t >= (now - o.retention) / 1_000_000_000
      && !m.deleted && decode(m.protocol) == Some(b)
  }

  /**
   What passes the first half is a vote on a poll in the archive at that moment: at most as many options as
   it has and, if it has a limit, as that allows, each of them once.
   */
  lemma LookUpMeans(
      t: Tables, o: Options, chat: string, poll: string, decode: seq<byte> -> Option<Ballot>, a: VoteArgs, now: int)
    requires LookUp(t, o, chat, poll, decode, a, now).Ok?
    ensures var (k, v) := LookUp(t, o, chat, poll, decode, a, now).value;
      && k == VoteKey(chat, poll, a.voter) && v == Vote(a.at, a.selected)
      && NoDuplicates(v.choices) && Exists(t.msgs, chat, poll)
      && exists b :: IsPoll(t, o, chat, poll, decode, now, b)
           && (forall c :: c in v.choices ==> c in b.options)
           && |v.choices| <= |b.options| && (b.selectable > 0 ==> |v.choices| <= b.selectable)
  {
    FoundExists(t.msgs, chat, poll, Cutoff(o, now));
    FindMeans(t.msgs, chat, poll, Cutoff(o, now));
    var b := PollOf(Find(t.msgs, chat, poll, Cutoff(o, now)).value, decode).value;
    assert IsPoll(t, o, chat, poll, decode, now, b);
    CheckMeans(b, a, now);
  }

  /** Storing a checked vote keeps stored selections free of duplicates, and the table within its quota. */
  lemma StoreKeepsVotesOk(t: Tables, k: VoteKey, v: Vote)
    requires VotesOk(t.votes) && NoDuplicates(v.choices) && StoreVote(t, k, v).Ok?
    ensures VotesOk(StoreVote(t, k, v).value.votes)
  {
    var votes := StoreVote(t, k, v).value.votes;
    if k in t.votes {
      assert votes.Keys == t.votes.Keys;
    } else {
      assert votes.Keys == t.votes.Keys + {k};
    }
    assert |votes.Keys| == |votes|;
  }

  function CastAll(votes: map<VoteKey, Vote>, cs: seq<(VoteKey, Vote)>): map<VoteKey, Vote> {
    if cs == [] then votes
    else
      var before := CastAll(votes, cs[..|cs| - 1]);
      match Cast(before, cs[|cs| - 1].0, cs[|cs| - 1].1)
      case None => before
      case Some(after) => after
  }

  ghost function VotersOf(cs: seq<(VoteKey, Vote)>): set<VoteKey> {
    if cs == [] then {} else VotersOf(cs[..|cs| - 1]) + {cs[|cs| - 1].0}
  }

  /** The table only grows, and only by the voters of the list. */
  lemma {:induction false} CastAllKeys(votes: map<VoteKey, Vote>, cs: seq<(VoteKey, Vote)>)
    ensures votes.Keys <= CastAll(votes, cs).Keys <= votes.Keys + VotersOf(cs)
  {
    if cs == [] {
    } else {
      CastAllKeys(votes, cs[..|cs| - 1]);
    }
  }

  lemma {:induction false} VotersOfPrefix(cs: seq<(VoteKey, Vote)>, i: nat)
    requires i < |cs|
    ensures VotersOf(cs[..i]) <= VotersOf(cs) && cs[i].0 in VotersOf(cs)
  {
    if i == |cs| - 1 {
    } else {
      VotersOfPrefix(cs[..|cs| - 1], i);
      assert cs[..|cs| - 1][..i] == cs[..i];
    }
  }

  lemma {:induction false} CastAllBounds(votes: map<VoteKey, Vote>, cs: seq<(VoteKey, Vote)>, k: VoteKey, bound: int)
    requires k in votes ==> votes[k].updated < bound
    requires forall c :: c in cs && c.0 == k ==> c.1.updated < bound
    ensures var r := CastAll(votes, cs); k in r ==> r[k].updated < bound
  {
    if cs == [] {
    } else {
      var front, last := cs[..|cs| - 1], cs[|cs| - 1];
      assert cs == front + [last];
      CastAllBounds(votes, front, k, bound);
    }
  }

  /** cs[i] is its voter's latest vote, and the first to arrive with its time. */
  ghost predicate Latest(votes: map<VoteKey, Vote>, cs: seq<(VoteKey, Vote)>, i: nat)
    requires i < |cs|
  {
    && (cs[i].0 in votes ==> votes[cs[i].0].updated < cs[i].1.updated)
    && (forall j :: 0 <= j < i && cs[j].0 == cs[i].0 ==> cs[j].1.updated < cs[i].1.updated)
    && (forall j :: i < j < |cs| && cs[j].0 == cs[i].0 ==> cs[j].1.updated <= cs[i].1.updated)
  }

  /** The quota lets a vote in: its voter is on record, or the table is not full. */
  predicate Admits(votes: map<VoteKey, Vote>, k: VoteKey) {
    k in votes || |votes| < MAX_VOTES
  }

  /**
   In whatever order votes arrive, each voter's latest vote is the one stored, exactly when the quota
   let it in on its arrival; a voter it did not let in stays out.
   */
  lemma {:induction false} LatestVoteWinsIff(votes: map<VoteKey, Vote>, cs: seq<(VoteKey, Vote)>, i: nat)
    requires i < |cs| && Latest(votes, cs, i)
    ensures var r := CastAll(votes, cs); var (k, v) := cs[i];
      if Admits(CastAll(votes, cs[..i]), k) then k in r && r[k] == v else !Admits(r, k)
    decreases |cs|
  {
    var front := cs[..|cs| - 1];
    if i == |cs| - 1 {
      CastAllBounds(votes, front, cs[i].0, cs[i].1.updated);
    } else {
      LatestVoteWinsIff(votes, front, i);
      assert front[..i] == cs[..i];
      ghost var before, last := CastAll(votes, front), cs[|cs| - 1];
      if last.0 !in before {
        assert before[last.0 := last.1].Keys == before.Keys + {last.0};
      } else {
        assert before[last.0 := last.1].Keys == before.Keys;
      }
    }
  }

  /** So every voter on record is heard, and so is everybody when the table has room for all of them. */
  lemma LatestVoteWins(votes: map<VoteKey, Vote>, cs: seq<(VoteKey, Vote)>, i: nat)
    requires i < |cs| && Latest(votes, cs, i)
    requires cs[i].0 in votes || |votes.Keys + VotersOf(cs)| <= 100_000
    ensures cs[i].0 in CastAll(votes, cs) && CastAll(votes, cs)[cs[i].0] == cs[i].1
  {
    var before, everybody := CastAll(votes, cs[..i]), votes.Keys + VotersOf(cs);
    CastAllKeys(votes, cs[..i]);
    VotersOfPrefix(cs, i);
    if cs[i].0 !in before {
      assert before.Keys <= everybody - {cs[i].0};
      SubsetSize(before.Keys, everybody - {cs[i].0});
      assert |before| == |before.Keys|;
    }
    LatestVoteWinsIff(votes, cs, i);
  }

  /// The tally

  ghost function Selectors(votes: map<VoteKey, Vote>, chat: string, poll: string, choice: string): set<VoteKey> {
    set k | k in votes && k.chat == chat && k.poll == poll && choice in votes[k].choices
  }

  ghost function Voters(votes: map<VoteKey, Vote>, chat: string, poll: string): set<VoteKey> {
    set k | k in votes && k.chat == chat && k.poll == poll && votes[k].choices != []
  }

  /** One row of the tally loop. */
  method AddBallot(counts: map<string, nat>, selected: seq<string>) returns (r: map<string, nat>)
    requires NoDuplicates(selected)
    ensures r.Keys == counts.Keys
    ensures forall c :: c in counts ==> r[c] == counts[c] + (if c in selected then 1 else 0)
  {
    r := counts;
    for i := 0 to |selected|
      invariant r.Keys == counts.Keys
      invariant forall c :: c in counts ==> r[c] == counts[c] + (if c in selected[..i] then 1 else 0)
    {
      assert selected[i] !in selected[..i];
      if selected[i] in r {
        r := r[selected[i] := r[selected[i]] + 1];
      }
      assert selected[..i + 1] == selected[..i] + [selected[i]];
    }
    assert selected[..|selected|] == selected;
  }

  /** The counts and the number of voters after the rows in `done`. */
  ghost predicate Counted(
      votes: map<VoteKey, Vote>, chat: string, poll: string, options: seq<string>, done: set<VoteKey>,
      counts: map<string, nat>, voters: nat)
  {
    && counts.Keys == (set c | c in options)
    && (forall c :: c in options ==> counts[c] == |Selectors(votes, chat, poll, c) * done|)
    && voters == |Voters(votes, chat, poll) * done|
  }

  lemma CountOneMore(
      votes: map<VoteKey, Vote>, chat: string, poll: string, options: seq<string>, done: set<VoteKey>, k: VoteKey,
      counts: map<string, nat>, voters: nat, counts': map<string, nat>, voters': nat)
    requires Counted(votes, chat, poll, options, done, counts, voters)
    requires k in votes && k.chat == chat && k.poll == poll && k !in done
    requires counts'.Keys == counts.Keys
    requires forall c :: c in counts ==> counts'[c] == counts[c] + (if c in votes[k].choices then 1 else 0)
    requires voters' == voters + (if votes[k].choices != [] then 1 else 0)
    ensures Counted(votes, chat, poll, options, done + {k}, counts', voters')
  {
    AddToDone(Voters(votes, chat, poll), done, k);
    forall c | c in options ensures counts'[c] == |Selectors(votes, chat, poll, c) * (done + {k})| {
      AddToDone(Selectors(votes, chat, poll, c), done, k);
    }
  }

  /** The body of the row loop. */
  method TallyRow(
      votes: map<VoteKey, Vote>, chat: string, poll: string, ghost options: seq<string>, ghost done: set<VoteKey>,
      k: VoteKey, counts: map<string, nat>, voters: nat)
    returns (counts': map<string, nat>, voters': nat)
    requires k in votes && k.chat == chat && k.poll == poll && k !in done && NoDuplicates(votes[k].choices)
    requires Counted(votes, chat, poll, options, done, counts, voters)
    ensures Counted(votes, chat, poll, options, done + {k}, counts', voters')
  {
    voters' := voters;
    if |votes[k].choices| > 0 {
      voters' := voters + 1;
    }
    counts' := AddBallot(counts, votes[k].choices);
    CountOneMore(votes, chat, poll, options, done, k, counts, voters, counts', voters');
  }

  /** PollResults: every listed option with its number of selectors, and the number of non-empty ballots. */
  method Tally(votes: map<VoteKey, Vote>, chat: string, poll: string, options: seq<string>)
    returns (counts: map<string, nat>, voters: nat)
    requires VotesOk(votes)
    ensures counts.Keys == set c | c in options
    ensures forall c :: c in options ==> counts[c] == |Selectors(votes, chat, poll, c)|
    ensures voters == |Voters(votes, chat, poll)|
  {
    counts, voters := map c | c in options :: 0, 0;
    ghost var done: set<VoteKey> := {};
    var rows := Ballots(votes, chat, poll);
    NothingCounted(votes, chat, poll, options, counts);
    while rows != {}
      invariant rows + done == Ballots(votes, chat, poll) && rows !! done
      invariant Counted(votes, chat, poll, options, done, counts, voters)
      decreases |rows|
    {
      var k :| k in rows;
      counts, voters := TallyRow(votes, chat, poll, options, done, k, counts, voters);
      rows, done := rows - {k}, done + {k};
    }
    EverythingCounted(votes, chat, poll, options, counts, voters);
  }

  function Ballots(votes: map<VoteKey, Vote>, chat: string, poll: string): set<VoteKey> {
    set k | k in votes && k.chat == chat && k.poll == poll
  }

  lemma NothingCounted(
      votes: map<VoteKey, Vote>, chat: string, poll: string, options: seq<string>, counts: map<string, nat>)
    requires counts == map c | c in options :: 0
    ensures Counted(votes, chat, poll, options, {}, counts, 0)
  {
  }

  lemma EverythingCounted(
      votes: map<VoteKey, Vote>, chat: string, poll: string, options: seq<string>, counts: map<string, nat>,
      voters: nat)
    requires Counted(votes, chat, poll, options, Ballots(votes, chat, poll), counts, voters)
    ensures forall c :: c in options ==> counts[c] == |Selectors(votes, chat, poll, c)|
    ensures voters == |Voters(votes, chat, poll)|
  {
    var all := Ballots(votes, chat, poll);
    forall c | c in options ensures counts[c] == |Selectors(votes, chat, poll, c)| {
      assert Selectors(votes, chat, poll, c) * all == Selectors(votes, chat, poll, c);
    }
    assert Voters(votes, chat, poll) * all == Voters(votes, chat, poll);
  }

  lemma AddToDone(s: set<VoteKey>, done: set<VoteKey>, k: VoteKey)
    requires k !in done
    ensures |s * (done + {k})| == |s * done| + (if k in s then 1 else 0)
  {
    if k in s {
      assert s * (done + {k}) == s * done + {k};
    } else {
      assert s * (done + {k}) == s * done;
    }
  }

  /** No option is counted more often than there are voters. */
  lemma NoOptionBeatsTheVoters(votes: map<VoteKey, Vote>, chat: string, poll: string, choice: string)
    ensures |Selectors(votes, chat, poll, choice)| <= |Voters(votes, chat, poll)|
  {
    SubsetSize(Selectors(votes, chat, poll, choice), Voters(votes, chat, poll));
  }

  /** All selections of listed options, one pair per voter and option. */
  ghost function Selections(
      votes: map<VoteKey, Vote>, chat: string, poll: string, options: set<string>): set<(VoteKey, string)>
  {
    set k, c | k in votes && c in options && k in Selectors(votes, chat, poll, c) :: (k, c)
  }

  ghost function Sum(counts: map<string, nat>, options: set<string>): nat
    requires options <= counts.Keys
  {
    if options == {} then 0
    else
      var c :| c in options;
      counts[c] + Sum(counts, options - {c})
  }

  lemma {:induction false} PairUp(s: set<VoteKey>, c: string) returns (pairs: set<(VoteKey, string)>)
    ensures pairs == set k | k in s :: (k, c)
    ensures |pairs| == |s|
  {
    if s == {} {
      pairs := {};
    } else {
      var k :| k in s;
      var rest := PairUp(s - {k}, c);
      pairs := rest + {(k, c)};
    }
  }

  /** Conservation: the counts add up to all the selections of listed options. */
  lemma {:induction false} CountsAddUp(
      votes: map<VoteKey, Vote>, chat: string, poll: string, counts: map<string, nat>, options: set<string>)
    requires options <= counts.Keys
    requires forall c :: c in options ==> counts[c] == |Selectors(votes, chat, poll, c)|
    ensures Sum(counts, options) == |Selections(votes, chat, poll, options)|
    decreases |options|
  {
    if options == {} {
      assert Selections(votes, chat, poll, options) == {};
    } else {
      var c :| c in options && Sum(counts, options) == counts[c] + Sum(counts, options - {c});
      CountsAddUp(votes, chat, poll, counts, options - {c});
      var pairs := PairUp(Selectors(votes, chat, poll, c), c);
      assert Selections(votes, chat, poll, options) == Selections(votes, chat, poll, options - {c}) + pairs;
    }
  }
}
