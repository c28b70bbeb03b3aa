/**
 Chat presence commands with delayed pauses (internal/directory/presence.go:67-115, index.go:338-351): a command runs in
 two critical sections with an arbitrary wait in between, so any number of commands interleave. */
module PresenceSignal {
  import opened Prelude

  const MAX_CHATS := 10_000

  datatype ChatPresence = Composing | Paused

  datatype SignalError = DirectoryClosed | Cancelled | SendFailed

  /** The first critical section ends in an error, at once, or waiting with a generation. */
  datatype Begun = Refused(error: SignalError) | Done | Waiting(generation: nat)

  /// The locked state

  datatype Board = Board(generation: nat, owners: map<string, nat>, closed: bool)

  /** A command that was sent takes the chat over; a full table first loses an arbitrary owner. */
  function Take(b: Board, jid: string, victim: Option<string>): Board {
    var owners := if victim.Some? then b.owners - {victim.value} else b.owners;
    Board(b.generation + 1, owners[jid := b.generation + 1], b.closed)
  }

  ghost predicate VictimFits(b: Board, victim: Option<string>) {
    if |b.owners| >= 10_000 then victim.Some? && victim.value in b.owners else victim == None
  }

  predicate Owns(b: Board, jid: string, generation: nat) {
    !b.closed && jid in b.owners && b.owners[jid] == generation
  }

  /** The second critical section: a command that still owns the chat gives it up and pauses it. */
  function Wake(b: Board, jid: string, generation: nat): Board {
    if Owns(b, jid, generation) then b.(owners := b.owners - {jid}) else b
  }

  class State {
    var generation: nat
    var owners: map<string, nat>
    var closed: bool

    function Model(): Board
      reads this
    {
      Board(generation, owners, closed)
    }

    constructor ()
      ensures Model() == Board(0, map[], false)
    {
      generation, owners, closed := 0, map[], false;
    }

    /** Up to the unlock: `cancelled` and `sendFails` are what the context and the client answer. */
    method Begin(jid: string, presence: ChatPresence, duration: int, cancelled: bool, sendFails: bool)
      returns (r: Begun, ghost victim: Option<string>)
      modifies this
      ensures r.Refused? <==> old(closed) || cancelled || sendFails
      ensures r.Refused? ==>
        && Model() == old(Model())
        && r.error == (if old(closed) then DirectoryClosed else if cancelled then Cancelled else SendFailed)
      ensures !r.Refused? ==> VictimFits(old(Model()), victim) && Model() == Take(old(Model()), jid, victim)
      ensures r == Done <==> !r.Refused? && (duration == 0 || presence == Paused)
      ensures r.Waiting? ==> r.generation == generation
    {
      victim := None;
      if closed {
        return Refused(DirectoryClosed), None;
      }
      if cancelled {
        return Refused(Cancelled), None;
      }
      if sendFails {
        return Refused(SendFailed), None;
      }
      generation := generation + 1;
      if |owners| >= MAX_CHATS {
        assert owners != map[];
        var id :| id in owners;
        victim := Some(id);
        owners := owners - {id};
      }
      owners := owners[jid := generation];
      if duration == 0 || presence == Paused {
        return Done, victim;
      }
      r := Waiting(generation);
    }

    /** After the wait: `waitError` if the context ended it; the pause itself may fail. */
    method Resume(jid: string, mine: nat, waitError: Option<SignalError>, pauseFails: bool)
      returns (error: Option<SignalError>, pauses: bool)
      modifies this
      ensures pauses <==> Owns(old(Model()), jid, mine)
      ensures Model() == Wake(old(Model()), jid, mine)
      ensures error == if waitError.Some? then waitError else if pauses && pauseFails then Some(SendFailed) else None
    {
      pauses := false;
      if closed || jid !in owners || owners[jid] != mine {
        return waitError, false;
      }
      owners := owners - {jid};
      pauses := true;
      error := if pauseFails then Some(SendFailed) else None;
      if waitError.Some? {
        error := waitError;
      }
    }

    method ResetPresence()
      modifies this
      ensures Model() == old(Model()).(owners := map[])
    {
      owners := map[];
    }

    method Close()
      modifies this
      ensures Model() == old(Model()).(owners := map[], closed := true)
    {
      closed := true;
      owners := map[];
    }
  }

  /// Every interleaving

  datatype Note =
    | Sent(jid: string, generation: nat)
    | Evicted(jid: string)
    | DelayedPause(jid: string, generation: nat)
    | Reset
    | Closed

  /** The board, the commands waiting between their two critical sections, and what has happened. */
  datatype System = System(board: Board, waiting: map<nat, string>, log: seq<Note>)

  datatype Step =
    | Command(jid: string, delayed: bool, victim: Option<string>)
    | Awake(generation: nat)
    | ResetStep
    | CloseStep

  const START := System(Board(0, map[], false), map[], [])

  ghost predicate Enabled(s: System, st: Step) {
    match st
    case Command(_, _, victim) => !s.board.closed && VictimFits(s.board, victim)
    case Awake(g) => g in s.waiting
    case ResetStep => true
    case CloseStep => true
  }

  ghost function Apply(s: System, st: Step): System
    requires Enabled(s, st)
  {
    match st
    case Command(jid, delayed, victim) =>
      var g := s.board.generation + 1;
      System(Take(s.board, jid, victim),
             if delayed then s.waiting[g := jid] else s.waiting,
             s.log + (if victim.Some? then [Evicted(victim.value)] else []) + [Sent(jid, g)])
    case Awake(g) =>
      var jid := s.waiting[g];
      System(Wake(s.board, jid, g), s.waiting - {g},
             if Owns(s.board, jid, g) then s.log + [DelayedPause(jid, g)] else s.log)
    case ResetStep => s.(board := s.board.(owners := map[]), log := s.log + [Reset])
    case CloseStep => s.(board := s.board.(owners := map[], closed := true), log := s.log + [Closed])
  }

  ghost predicate ValidRun(s: System, steps: seq<Step>)
    decreases |steps|
  {
    steps == [] || (Enabled(s, steps[0]) && ValidRun(Apply(s, steps[0]), steps[1..]))
  }

  ghost function Run(s: System, steps: seq<Step>): System
    requires ValidRun(s, steps)
    decreases |steps|
  {
    if steps == [] then s else Run(Apply(s, steps[0]), steps[1..])
  }

  /** What ends a command's claim on its chat. */
  predicate Disturbs(x: Note, jid: string) {
    x.Reset? || x.Closed? || x.jid == jid
  }

  /** The command that owns the chat: the last one sent to it, unless something happened to it since. */
  function OwnerOf(log: seq<Note>, jid: string): Option<nat> {
    if log == [] then None
    else
      var x := log[|log| - 1];
      if !Disturbs(x, jid) then OwnerOf(log[..|log| - 1], jid)
      else if x.Sent? then Some(x.generation)
      else None
  }

  /** Generation g was sent to the chat at position i and nothing disturbed it up to the end. */
  ghost predicate LatestAt(log: seq<Note>, jid: string, g: nat, i: nat) {
    && i < |log| && log[i] == Sent(jid, g)
    && forall k :: i < k < |log| ==> !Disturbs(log[k], jid)
  }

  lemma {:induction false} OwnerMeansLatest(log: seq<Note>, jid: string, g: nat)
    ensures OwnerOf(log, jid) == Some(g) <==> exists i: nat :: LatestAt(log, jid, g, i)
  {
    if log == [] {
    } else {
      var n := |log| - 1;
      var front := log[..n];
      OwnerMeansLatest(front, jid, g);
      if exists i: nat :: LatestAt(log, jid, g, i) {
        var i: nat :| LatestAt(log, jid, g, i);
        if i < n { assert LatestAt(front, jid, g, i); }
      }
      if OwnerOf(log, jid) == Some(g) {
        if Disturbs(log[n], jid) {
          assert LatestAt(log, jid, g, n);
        } else {
          var i: nat :| LatestAt(front, jid, g, i);
          assert LatestAt(log, jid, g, i);
        }
      }
    }
  }

  ghost predicate BoardOk(s: System) {
    && |s.board.owners| <= MAX_CHATS
    && (s.board.closed ==> s.board.owners == map[])
    && forall jid :: OwnerOf(s.log, jid) == if jid in s.board.owners then Some(s.board.owners[jid]) else None
  }

  /** Every delayed pause in the log was due: its command owned the chat at that moment. */
  ghost predicate PausesOk(log: seq<Note>) {
    forall p :: 0 <= p < |log| && log[p].DelayedPause? ==> OwnerOf(log[..p], log[p].jid) == Some(log[p].generation)
  }

  ghost predicate GenerationsOk(s: System) {
    && (forall g :: g in s.waiting ==> g <= s.board.generation)
    && (forall p :: 0 <= p < |s.log| && s.log[p].DelayedPause? ==>
        s.log[p].generation <= s.board.generation && s.log[p].generation !in s.waiting)
    && (forall p, q :: 0 <= p < q < |s.log| && s.log[p].DelayedPause? && s.log[q].DelayedPause? ==>
        s.log[p].generation != s.log[q].generation)
  }

  ghost predicate Inv(s: System) {
    BoardOk(s) && PausesOk(s.log) && GenerationsOk(s)
  }

  lemma PausesSnoc(log: seq<Note>, x: Note)
    requires PausesOk(log)
    requires x.DelayedPause? ==> OwnerOf(log, x.jid) == Some(x.generation)
    ensures PausesOk(log + [x])
  {
    forall p | 0 <= p < |log + [x]| && (log + [x])[p].DelayedPause?
      ensures OwnerOf((log + [x])[..p], (log + [x])[p].jid) == Some((log + [x])[p].generation)
    {
      assert (log + [x])[..p] == log[..p];
      if p == |log| { assert log[..p] == log; }
    }
  }

  lemma OwnerSnoc(log: seq<Note>, x: Note, jid: string)
    ensures OwnerOf(log + [x], jid) ==
      if !Disturbs(x, jid) then OwnerOf(log, jid) else if x.Sent? then Some(x.generation) else None
  {
    assert (log + [x])[..|log|] == log;
  }

  lemma CommandKeeps(s: System, st: Step)
    requires Inv(s) && st.Command? && Enabled(s, st)
    ensures Inv(Apply(s, st))
  {
    var s' := Apply(s, st);
    var g := s.board.generation + 1;
    var mid := if st.victim.Some? then s.log + [Evicted(st.victim.value)] else s.log;
    assert s'.log == mid + [Sent(st.jid, g)];
    if st.victim.Some? { PausesSnoc(s.log, Evicted(st.victim.value)); }
    PausesSnoc(mid, Sent(st.jid, g));
    forall jid ensures OwnerOf(s'.log, jid) == if jid in s'.board.owners then Some(s'.board.owners[jid]) else None {
      if st.victim.Some? { OwnerSnoc(s.log, Evicted(st.victim.value), jid); }
      OwnerSnoc(mid, Sent(st.jid, g), jid);
    }
  }

  lemma AwakeBoard(s: System, g: nat)
    requires BoardOk(s) && g in s.waiting
    ensures BoardOk(Apply(s, Awake(g)))
  {
    var s', jid := Apply(s, Awake(g)), s.waiting[g];
    if Owns(s.board, jid, g) {
      assert s'.board.owners.Keys == s.board.owners.Keys - {jid};
      SubsetSize(s'.board.owners.Keys, s.board.owners.Keys);
      assert |s'.board.owners| == |s'.board.owners.Keys| && |s.board.owners| == |s.board.owners.Keys|;
      forall j ensures OwnerOf(s'.log, j) == if j in s'.board.owners then Some(s'.board.owners[j]) else None {
        OwnerSnoc(s.log, DelayedPause(jid, g), j);
      }
    }
  }

  lemma AwakeGenerations(s: System, g: nat)
    requires GenerationsOk(s) && g in s.waiting
    ensures GenerationsOk(Apply(s, Awake(g)))
  {
  }

  lemma AwakeKeeps(s: System, st: Step)
    requires Inv(s) && st.Awake? && Enabled(s, st)
    ensures Inv(Apply(s, st))
  {
    AwakeBoard(s, st.generation);
    AwakeGenerations(s, st.generation);
    var jid := s.waiting[st.generation];
    if Owns(s.board, jid, st.generation) {
      PausesSnoc(s.log, DelayedPause(jid, st.generation));
    }
  }

  lemma StepKeeps(s: System, st: Step)
    requires Inv(s) && Enabled(s, st)
    ensures Inv(Apply(s, st))
  {
    match st
    case Command(_, _, _) => CommandKeeps(s, st);
    case Awake(_) => AwakeKeeps(s, st);
    case _ =>
      var s' := Apply(s, st);
      var x := if st.ResetStep? then Reset else Closed;
      PausesSnoc(s.log, x);
      forall jid ensures OwnerOf(s'.log, jid) == if jid in s'.board.owners then Some(s'.board.owners[jid]) else None {
        OwnerSnoc(s.log, x, jid);
      }
  }

  lemma {:induction false} RunKeeps(s: System, steps: seq<Step>)
    requires Inv(s) && ValidRun(s, steps)
    ensures Inv(Run(s, steps))
    decreases |steps|
  {
    if steps == [] {
    } else {
      StepKeeps(s, steps[0]);
      RunKeeps(Apply(s, steps[0]), steps[1..]);
    }
  }

  /**
   In every interleaving, a delayed pause that goes out belongs to the latest command successfully
   sent to that chat, with no reset, close or eviction since; and no command causes two.
   */
  lemma PausesAreDue(steps: seq<Step>, p: nat)
    requires ValidRun(START, steps)
    requires var log := Run(START, steps).log; p < |log| && log[p].DelayedPause?
    ensures var log := Run(START, steps).log; exists i: nat :: LatestAt(log[..p], log[p].jid, log[p].generation, i)
    ensures var log := Run(START, steps).log;
      forall q :: 0 <= q < |log| && q != p && log[q].DelayedPause? ==> log[q].generation != log[p].generation
  {
    RunKeeps(START, steps);
    var log := Run(START, steps).log;
    OwnerMeansLatest(log[..p], log[p].jid, log[p].generation);
  }

  /** And conversely: a waking command pauses its chat exactly when it is still that chat's latest. */
  lemma WakingPausesIffLatest(steps: seq<Step>, g: nat)
    requires ValidRun(START, steps) && g in Run(START, steps).waiting
    ensures var s := Run(START, steps); var jid := s.waiting[g];
      DelayedPause(jid, g) in Apply(s, Awake(g)).log <==> exists i: nat :: LatestAt(s.log, jid, g, i)
  {
    RunKeeps(START, steps);
    var s := Run(START, steps);
    var jid := s.waiting[g];
    OwnerMeansLatest(s.log, jid, g);
    assert DelayedPause(jid, g) !in s.log;
  }

  lemma OwnersAreBounded(steps: seq<Step>)
    requires ValidRun(START, steps)
    ensures |Run(START, steps).board.owners| <= 10_000
  {
    RunKeeps(START, steps);
  }
}
