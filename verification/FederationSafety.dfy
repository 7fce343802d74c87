/** What every run of the coordinator keeps, whatever the workers send. */
module FederationSafety {
  import opened Sequences
  import opened FederationJobs

  /** Claim fields are set on a claimed job and cleared on a pending one; the outcome
      fields are set exactly by completion. */
  predicate CoherentJob(j: Job) {
    match j.status
    case Pending => j.claimedBy.None? && j.claimedAt.None? && j.heartbeatAt.None?
                    && j.completedAt.None? && j.result.None? && j.error.None?
    case Claimed => j.claimedBy.Some? && j.claimedAt.Some? && j.heartbeatAt.Some?
                    && j.completedAt.None? && j.result.None? && j.error.None?
    case Done => j.completedAt.Some? && !Truthy(j.error)
    case Error => j.completedAt.Some? && Truthy(j.error)
  }

  ghost predicate Coherent(s: State) {
    forall id :: id in s.jobs ==> CoherentJob(s.jobs[id])
  }

  /** Every submission along the run carries an unused id. */
  ghost predicate FreshRun(s: State, ops: seq<Op>)
    requires Valid(s)
    decreases |ops|
  {
    ops != [] ==>
      && WellFormed(ops[0])
      && (ops[0].SubmitOp? ==> ops[0].job.id !in s.jobs)
      && (StepKeepsValid(s, ops[0]); FreshRun(Step(s, ops[0]).0, ops[1..]))
  }

  function Submitted(ops: seq<Op>): set<string> {
    set k | 0 <= k < |ops| && ops[k].SubmitOp? :: ops[k].job.id
  }

  /** What a client fixed at submission time. */
  predicate SameOrder(a: Job, b: Job) {
    a.id == b.id && a.query == b.query && a.priority == b.priority && a.forceRoute == b.forceRoute
    && a.submittedBy == b.submittedBy && a.createdAt == b.createdAt
  }

  lemma StepKeepsKeys(s: State, op: Op)
    requires Valid(s) && WellFormed(op)
    ensures Step(s, op).0.jobs.Keys == s.jobs.Keys + Submitted([op])
  {
    if op.ClaimOp? { ClaimIsBest(s, op.worker, op.now); }
    assert Submitted([op]) == if op.SubmitOp? then {op.job.id} else {} by {
      assert [op][0] == op;
    }
  }

  lemma StepIsSafe(s: State, op: Op, id: string)
    requires Valid(s) && Coherent(s) && WellFormed(op) && (op.SubmitOp? ==> op.job.id !in s.jobs)
    requires id in Step(s, op).0.jobs
    ensures CoherentJob(Step(s, op).0.jobs[id])
    ensures id in s.jobs ==>
      SameOrder(s.jobs[id], Step(s, op).0.jobs[id]) && (Finished(s.jobs[id]) ==> Step(s, op).0.jobs[id] == s.jobs[id])
  {
    if id in s.jobs { StepKeepsOrder(s, op, id); }
    hide SameOrder;
    if op.ClaimOp? { ClaimIsBest(s, op.worker, op.now); }
  }

  lemma StepKeepsOrder(s: State, op: Op, id: string)
    requires Valid(s) && (op.SubmitOp? ==> op.job.id !in s.jobs) && id in s.jobs
    ensures id in Step(s, op).0.jobs && SameOrder(s.jobs[id], Step(s, op).0.jobs[id])
    ensures Finished(s.jobs[id]) ==> Step(s, op).0.jobs[id] == s.jobs[id]
  {
    if op.ClaimOp? { ClaimIsBest(s, op.worker, op.now); }
  }

  /** Over any run with fresh ids no job is lost or invented, its order form never changes,
      its claim fields stay coherent, and a done or error record is frozen. */
  lemma {:induction false} RunIsSafe(s: State, ops: seq<Op>)
    requires Valid(s) && Coherent(s) && FreshRun(s, ops)
    ensures Coherent(Run(s, ops).0)
    ensures Run(s, ops).0.jobs.Keys == s.jobs.Keys + Submitted(ops)
    ensures forall id :: id in s.jobs ==>
      SameOrder(s.jobs[id], Run(s, ops).0.jobs[id]) && (Finished(s.jobs[id]) ==> Run(s, ops).0.jobs[id] == s.jobs[id])
    decreases |ops|
  {
    if ops != [] {
      StepKeepsValid(s, ops[0]);
      StepKeepsKeys(s, ops[0]);
      forall id | id in Step(s, ops[0]).0.jobs {
        StepIsSafe(s, ops[0], id);
      }
      RunIsSafe(Step(s, ops[0]).0, ops[1..]);
      SubmittedSplit(ops);
    } else {
      assert Submitted(ops) == {};
    }
  }

  lemma SubmittedSplit(ops: seq<Op>)
    requires ops != []
    ensures Submitted(ops) == Submitted([ops[0]]) + Submitted(ops[1..])
  {
    forall id | id in Submitted(ops)
      ensures id in Submitted([ops[0]]) + Submitted(ops[1..])
    {
      var k :| 0 <= k < |ops| && ops[k].SubmitOp? && ops[k].job.id == id;
      if k > 0 { assert ops[1..][k - 1] == ops[k]; } else { assert [ops[0]][0] == ops[k]; }
    }
    forall id | id in Submitted(ops[1..])
      ensures id in Submitted(ops)
    {
      var k :| 0 <= k < |ops| - 1 && ops[1..][k].SubmitOp? && ops[1..][k].job.id == id;
      assert ops[k + 1] == ops[1..][k];
    }
    assert [ops[0]][0] == ops[0];
  }

  /** The freshness condition is exact: a finished record survives a step unchanged
      if and only if the step is not a submission under its id. */
  lemma FinishedFrozenIff(s: State, op: Op, id: string)
    requires Valid(s) && WellFormed(op) && id in s.jobs && Finished(s.jobs[id])
    ensures Step(s, op).0.jobs[id] == s.jobs[id] <==> !(op.SubmitOp? && op.job.id == id)
  {
    if op.ClaimOp? { ClaimIsBest(s, op.worker, op.now); }
  }

  predicate Holds(s: State, id: string, worker: string) {
    id in s.jobs && s.jobs[id].status == Claimed && s.jobs[id].claimedBy == Some(worker)
  }

  lemma OnlyClaimingGivesAClaim(s: State, op: Op, id: string, worker: string)
    requires Valid(s) && WellFormed(op) && !Holds(s, id, worker) && !(op.ClaimOp? && op.worker == worker)
    ensures !Holds(Step(s, op).0, id, worker)
  {
    if op.ClaimOp? { ClaimIsBest(s, op.worker, op.now); }
  }

  /** A worker that does not hold a claim does not get it back except by claiming, and its
      heartbeats change nothing at any point of such a run. */
  lemma {:induction false} LostClaimStaysLost(s: State, ops: seq<Op>, id: string, worker: string, now: nat)
    requires Valid(s) && !Holds(s, id, worker)
    requires forall k :: 0 <= k < |ops| ==> WellFormed(ops[k]) && !(ops[k].ClaimOp? && ops[k].worker == worker)
    ensures Heartbeat(Run(s, ops).0, id, worker, now) == (Run(s, ops).0, false)
    decreases |ops|
  {
    hide Valid, Step, WellFormed;
    if ops != [] {
      OnlyClaimingGivesAClaim(s, ops[0], id, worker);
      StepKeepsValid(s, ops[0]);
      LostClaimStaysLost(Step(s, ops[0]).0, ops[1..], id, worker, now);
    }
  }
}
