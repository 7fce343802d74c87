/** The zombie reaper as a real-time bound. */
module FederationTiming {
  import opened Sequences
  import opened FederationJobs

  ghost predicate NonDecreasing(ops: seq<Op>, from: nat)
    decreases |ops|
  {
    ops != [] ==> from <= OpTime(ops[0]) && NonDecreasing(ops[1..], OpTime(ops[0]))
  }

  /** When worker traffic last touched job id, judged by what was asked and answered. */
  ghost function ContactAfter(contact: Option<nat>, op: Op, reply: Reply, id: string): Option<nat> {
    if op.ClaimOp? && reply.ClaimReply? && reply.job.Some? && reply.job.value.id == id then Some(op.now)
    else if op.HeartbeatOp? && op.id == id && reply == Flag(true) then Some(op.now)
    else contact
  }

  ghost function LastHeard(s: State, ops: seq<Op>, id: string, contact: Option<nat>): Option<nat>
    requires Valid(s)
    decreases |ops|
  {
    if ops == [] then contact
    else
      StepKeepsValid(s, ops[0]);
      var r := Step(s, ops[0]);
      LastHeard(r.0, ops[1..], id, ContactAfter(contact, ops[0], r.1, id))
  }

  /** The record of a claimed job agrees with the history. */
  ghost predicate Tracks(s: State, id: string, contact: Option<nat>, now: nat) {
    id in s.jobs && s.jobs[id].status == Claimed ==>
      && s.jobs[id].heartbeatAt.Some? && s.jobs[id].heartbeatAt == contact
      && s.jobs[id].claimedAt.Some?
      && s.jobs[id].claimedAt.value <= s.jobs[id].heartbeatAt.value <= now
  }

  lemma StepTracks(s: State, op: Op, id: string, contact: Option<nat>, from: nat)
    requires Valid(s) && WellFormed(op) && Tracks(s, id, contact, from) && from <= OpTime(op)
    ensures Tracks(Step(s, op).0, id, ContactAfter(contact, op, Step(s, op).1, id), OpTime(op))
  {
    if op.ClaimOp? { ClaimIsBest(s, op.worker, op.now); }
  }

  lemma {:induction false} RunTracks(s: State, ops: seq<Op>, id: string, contact: Option<nat>, from: nat, now: nat)
    requires Valid(s) && Tracks(s, id, contact, from) && NonDecreasing(ops, from)
    requires forall k :: 0 <= k < |ops| ==> WellFormed(ops[k]) && OpTime(ops[k]) <= now
    requires from <= now
    ensures Tracks(Run(s, ops).0, id, LastHeard(s, ops, id, contact), now)
    decreases |ops|
  {
    if ops != [] {
      assert WellFormed(ops[0]) && OpTime(ops[0]) <= now;
      StepTracks(s, ops[0], id, contact, from);
      StepKeepsValid(s, ops[0]);
      var r := Step(s, ops[0]);
      RunTracks(r.0, ops[1..], id, ContactAfter(contact, ops[0], r.1, id), OpTime(ops[0]), now);
    }
  }

  /** In any run from the empty coordinator under a non-decreasing clock, the reaper takes a
      job exactly when it is claimed and more than timeout has passed since its last accepted
      claim or heartbeat. */
  lemma ReapedIffSilent(ops: seq<Op>, id: string, now: nat, timeout: nat)
    requires NonDecreasing(ops, 0) && forall k :: 0 <= k < |ops| ==> WellFormed(ops[k]) && OpTime(ops[k]) <= now
    ensures
      var s := Run(EMPTY_STATE, ops).0;
      var heard := LastHeard(EMPTY_STATE, ops, id, None);
      id in Reap(s, now, timeout).1 <==>
        id in s.jobs && s.jobs[id].status == Claimed && heard.Some? && now - heard.value > timeout
  {
    var s := Run(EMPTY_STATE, ops).0;
    RunTracks(EMPTY_STATE, ops, id, None, 0, now);
    FilterMembers(StaleIn(s, now, timeout), s.order);
  }

  /** The traffic of a worker that never stays silent longer than timeout. */
  ghost predicate KeepsAlive(ops: seq<Op>, id: string, worker: string, contact: nat, timeout: nat)
    decreases |ops|
  {
    ops != [] ==>
      && OpTime(ops[0]) - contact <= timeout
      && (ops[0].ReapOp? ==> ops[0].timeout == timeout)
      && !(ops[0].CompleteOp? && ops[0].id == id)
      && !(ops[0].SubmitOp? && ops[0].job.id == id)
      && KeepsAlive(ops[1..], id, worker,
           if ops[0].HeartbeatOp? && ops[0].id == id && ops[0].worker == worker then ops[0].now else contact, timeout)
  }

  /** Such a worker still holds its claim at the end, whatever the others do. */
  lemma {:induction false} LiveWorkerIsNeverReaped(s: State, ops: seq<Op>, id: string, worker: string,
                                                   contact: nat, timeout: nat)
    requires Valid(s) && id in s.jobs && s.jobs[id].status == Claimed && s.jobs[id].claimedBy == Some(worker)
    requires Tracks(s, id, Some(contact), contact) && NonDecreasing(ops, contact)
    requires KeepsAlive(ops, id, worker, contact, timeout)
    ensures id in Run(s, ops).0.jobs && Run(s, ops).0.jobs[id].status == Claimed
    ensures Run(s, ops).0.jobs[id].claimedBy == Some(worker)
    decreases |ops|
  {
    if ops != [] {
      StepKeepsValid(s, ops[0]);
      var next := LastBeat(ops[0], id, worker, contact);
      StillClaimed(s, ops, id, worker, contact, timeout);
      Weaken(ops[1..], OpTime(ops[0]), next);
      hide Step;
      LiveWorkerIsNeverReaped(Step(s, ops[0]).0, ops[1..], id, worker, next, timeout);
    }
  }

  function LastBeat(op: Op, id: string, worker: string, contact: nat): nat {
    if op.HeartbeatOp? && op.id == id && op.worker == worker then op.now else contact
  }

  lemma StillClaimed(s: State, ops: seq<Op>, id: string, worker: string, contact: nat, timeout: nat)
    requires Valid(s) && id in s.jobs && s.jobs[id].status == Claimed && s.jobs[id].claimedBy == Some(worker)
    requires Tracks(s, id, Some(contact), contact) && NonDecreasing(ops, contact)
    requires ops != [] && KeepsAlive(ops, id, worker, contact, timeout)
    ensures
      var s', next := Step(s, ops[0]).0, LastBeat(ops[0], id, worker, contact);
      && id in s'.jobs && s'.jobs[id].status == Claimed && s'.jobs[id].claimedBy == Some(worker)
      && Tracks(s', id, Some(next), next)
  {
    if ops[0].ClaimOp? { ClaimIsBest(s, ops[0].worker, ops[0].now); }
  }

  lemma Weaken(ops: seq<Op>, from: nat, earlier: nat)
    requires NonDecreasing(ops, from) && earlier <= from
    ensures NonDecreasing(ops, earlier)
  {
  }

  /** The reaper ticks at least every timeout/2 between `last` and `end`, and the
      claim on id gets no heartbeat, completion or resubmission. */
  ghost predicate SilentUnderReaper(ops: seq<Op>, id: string, worker: string, last: nat, end: nat, timeout: nat)
    decreases |ops|
  {
    if ops == [] then 2 * (end - last) < timeout
    else
      && 2 * (OpTime(ops[0]) - last) <= timeout
      && (ops[0].ReapOp? ==> ops[0].timeout == timeout)
      && !(ops[0].HeartbeatOp? && ops[0].id == id && ops[0].worker == worker)
      && !(ops[0].CompleteOp? && ops[0].id == id)
      && !(ops[0].SubmitOp? && ops[0].job.id == id)
      && SilentUnderReaper(ops[1..], id, worker, if ops[0].ReapOp? then ops[0].now else last, end, timeout)
  }

  /** Whatever the reaper reports is pending right after that tick. */
  lemma {:induction false} ReportedIsPending(s: State, ops: seq<Op>, k: nat, id: string)
    requires Valid(s) && k < |ops| && ops[k].ReapOp?
    requires Run(s, ops).1[k].Reaped? && id in Run(s, ops).1[k].ids
    ensures id in Run(s, ops[..k + 1]).0.jobs && Run(s, ops[..k + 1]).0.jobs[id].status == Pending
    decreases |ops|
  {
    StepKeepsValid(s, ops[0]);
    var next := Step(s, ops[0]).0;
    assert ops[..k + 1][1..] == ops[1..][..k];
    if k == 0 {
      FilterMembers(StaleIn(s, ops[0].now, ops[0].timeout), s.order);
      assert Run(s, ops[..1]).0 == Run(next, []).0;
    } else {
      ReportedIsPending(next, ops[1..], k - 1, id);
    }
  }

  lemma StaleIsReported(s: State, op: Op, id: string)
    requires Valid(s) && op.ReapOp? && id in s.jobs && Stale(s.jobs[id], op.now, op.timeout)
    ensures id in Step(s, op).1.ids
  {
    FilterMembers(StaleIn(s, op.now, op.timeout), s.order);
  }

  /** A claim that falls silent is reported, and pending again, within 1.5 * timeout of its
      last contact. */
  lemma {:induction false} SilentClaimIsRequeued(s: State, ops: seq<Op>, id: string, worker: string,
                                                 contact: nat, last: nat, end: nat, timeout: nat) returns (k: nat)
    requires Valid(s) && id in s.jobs && s.jobs[id].status == Claimed && s.jobs[id].claimedBy == Some(worker)
    requires Tracks(s, id, Some(contact), contact) && last <= contact + timeout
    requires 2 * end >= 2 * contact + 3 * timeout
    requires SilentUnderReaper(ops, id, worker, last, end, timeout)
    ensures k < |ops| && ops[k].ReapOp? && 2 * ops[k].now <= 2 * contact + 3 * timeout
    ensures Run(s, ops).1[k].Reaped? && id in Run(s, ops).1[k].ids
    ensures id in Run(s, ops[..k + 1]).0.jobs && Run(s, ops[..k + 1]).0.jobs[id].status == Pending
    decreases |ops|
  {
    hide Valid;
    assert ops != [];
    var op := ops[0];
    StepKeepsValid(s, op);
    if op.ReapOp? && op.now - contact > timeout {
      k := 0;
      StaleIsReported(s, op, id);
    } else {
      ClaimedRecordKept(s, op, id, worker);
      var j := SilentClaimIsRequeued(Step(s, op).0, ops[1..], id, worker, contact,
                                     if op.ReapOp? then op.now else last, end, timeout);
      k := j + 1;
    }
    ReportedIsPending(s, ops, k, id);
  }
}
