/**
 One delivery worker (internal/eventbus/bus.go:124-181) as an object working on the shared log.
 A turn has two halves, with the delivery, and whatever the other workers do, in between.
 */
module OutboxWorker {
  import opened Prelude
  import opened Outbox
  import opened OutboxProtocol
  import OutboxLog

  /** names[k..] followed by names[..k]. */
  function RotatedBy(names: seq<string>, k: nat): seq<string>
    requires k <= |names|
  {
    names[k..] + names[..k]
  }

  class Worker {
    /** The targets in the order this worker tries them. */
    var names: seq<string>
    var holding: Option<Claim>
    const options: Options

    constructor (targets: seq<string>, offset: nat, options: Options)
      ensures this.options == options && holding == None
      ensures names == if targets == [] then [] else RotatedBy(targets, offset % |targets|)
    {
      this.options := options;
      var order := targets;
      if |order| > 0 {
        var n := offset % |order|;
        order := order[n..] + order[..n];
      }
      names, holding := order, None;
    }

    /** Claims under the delivery timeout plus 15 s, amid what other workers and publishers commit. */
    method Take(log: OutboxLog.Log, clocks: seq<Clock>, leases: seq<string>, others: seq<seq<Tx>>)
      requires |names| == |clocks| == |leases| == |others|
      modifies this`holding, log
      ensures (log.Model(), holding)
        == ClaimAny(old(log.Model()), log.limits, names, clocks, options.timeout + 15 * SECOND, leases, others)
    {
      holding := log.Claim(names, clocks, options.timeout + 15 * SECOND, leases, others);
    }

    /** A cancelled shutdown abandons the claim; otherwise the outcome is written under the claim's lease. */
    method Complete(log: OutboxLog.Log, outcome: Outcome, at: int, cancelled: bool)
      requires holding.Some?
      modifies this`names, this`holding, log`rows
      ensures holding == None
      ensures cancelled ==> log.Model() == old(log.Model()) && names == old(names)
      ensures !cancelled ==>
        var d := old(holding).value; var settled := Settle(options, d.attempt, outcome, at);
        && log.Model() == Finish(old(log.Model()), Key(d.event.id, d.target), d.lease, settled.0, settled.1)
        && names == if |old(names)| > 1 then RotatedBy(old(names), 1) else old(names)
      ensures !cancelled ==>
        var d := old(holding).value; var k := Key(d.event.id, d.target);
        k in old(log.rows) && old(log.rows)[k].lease == d.lease ==>
          && k in log.rows && log.rows[k].attempt == old(log.rows)[k].attempt + 1
          && log.rows[k].lease == "" && log.rows[k].leaseUntil == 0 && log.rows[k].next <= Milli(at + 30 * SECOND)
          && (log.rows[k].status == Delivered <==> outcome == Acknowledged)
          && (log.rows[k].status == Failed <==>
                outcome != Acknowledged
                && (d.attempt + 1 >= options.attempts || (outcome.Rejected? && outcome.permanent)))
    {
      var d := holding.value;
      holding := None;
      var status, next := SettleStepByStep(options, d.attempt, outcome, at);
      if cancelled {
        return;
      }
      log.Finish(Key(d.event.id, d.target), d.lease, status, next);
      if |names| > 1 {
        names := names[1..] + [names[0]];
        assert old(names)[..1] == [old(names)[0]];
      }
    }
  }

  function Rotations(names: seq<string>, turns: nat): (r: seq<string>)
    ensures |r| == |names|
  {
    if turns == 0 then names
    else
      var before := Rotations(names, turns - 1);
      if |before| > 1 then RotatedBy(before, 1) else before
  }

  /** Round robin: in |names| completed turns every target is tried first exactly once, and the order returns. */
  lemma {:induction false} EveryTargetComesFirst(names: seq<string>, turns: nat)
    requires turns <= |names|
    ensures Rotations(names, turns) == RotatedBy(names, turns)
    ensures turns < |names| ==> Rotations(names, turns)[0] == names[turns]
    ensures turns == |names| ==> Rotations(names, turns) == names
  {
    if turns == 0 {
    } else {
      EveryTargetComesFirst(names, turns - 1);
    }
  }
}
