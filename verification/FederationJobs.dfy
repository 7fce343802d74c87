/** The federation's jobs and the single-coordinator backend: a dict scanned for the best
    pending job. Times are integers in microseconds; every operation is one atomic step
    at one reading of the clock. */
module FederationJobs {
  import opened Sequences
  import opened StableSort

  datatype Status = Pending | Claimed | Done | Error

  datatype Job = Job(
    id: string, query: string, priority: int, forceRoute: Option<string>, submittedBy: string,
    status: Status, claimedBy: Option<string>, result: Option<string>, error: Option<string>,
    createdAt: nat, claimedAt: Option<nat>, completedAt: Option<nat>, heartbeatAt: Option<nat>)

  predicate Finished(j: Job) { j.status == Done || j.status == Error }

  /** Python truthiness of an optional string. */
  predicate Truthy(s: Option<string>) { s.Some? && s.value != "" }

  /** `heartbeat_at or claimed_at`: zero counts as absent. */
  function LastContact(heartbeatAt: Option<nat>, claimedAt: Option<nat>): Option<nat> {
    if heartbeatAt.Some? && heartbeatAt.value != 0 then heartbeatAt else claimedAt
  }

  predicate Stale(j: Job, now: nat, timeout: nat) {
    var contact := LastContact(j.heartbeatAt, j.claimedAt);
    j.status == Claimed && contact.Some? && now - contact.value > timeout
  }

  /** A dict of jobs together with its insertion order. */
  datatype State = State(jobs: map<string, Job>, order: seq<string>)

  ghost predicate Valid(s: State) {
    && NoDuplicates(s.order)
    && (forall id :: id in s.order <==> id in s.jobs)
    && (forall id :: id in s.jobs ==> s.jobs[id].id == id)
  }

  const EMPTY_STATE := State(map[], [])

  function NewJob(id: string, query: string, priority: int, forceRoute: Option<string>,
                  submittedBy: string, now: nat): Job
  {
    Job(id, query, priority, forceRoute, submittedBy, Pending, None, None, None, now, None, None, None)
  }

  function Submit(s: State, job: Job): State {
    State(s.jobs[job.id := job], if job.id in s.jobs then s.order else s.order + [job.id])
  }

  /** The jobs in dict order. */
  function Listed(s: State): seq<Job>
    requires forall id :: id in s.order ==> id in s.jobs
  {
    seq(|s.order|, i requires 0 <= i < |s.order| => s.jobs[s.order[i]])
  }

  /** The sort key (-priority, created_at). */
  predicate Before(a: Job, b: Job) {
    a.priority > b.priority || (a.priority == b.priority && a.createdAt <= b.createdAt)
  }

  predicate IsPending(j: Job) { j.status == Pending }

  function PendingJobs(s: State): seq<Job>
    requires forall id :: id in s.order ==> id in s.jobs
  {
    Filter(IsPending, Listed(s))
  }

  function Take(j: Job, worker: string, now: nat): Job {
    j.(status := Claimed, claimedBy := Some(worker), claimedAt := Some(now), heartbeatAt := Some(now))
  }

  function Claim(s: State, worker: string, now: nat): (r: (State, Option<Job>))
    requires forall id :: id in s.order ==> id in s.jobs
  {
    var pending := PendingJobs(s);
    if pending == [] then (s, None)
    else
      var job := Take(Sort(Before, pending)[0], worker, now);
      (s.(jobs := s.jobs[job.id := job]), Some(job))
  }

  function Finish(j: Job, result: Option<string>, error: Option<string>, now: nat): Job {
    j.(status := if Truthy(error) then Error else Done, result := result, error := error,
       completedAt := Some(now))
  }

  function Complete(s: State, id: string, result: Option<string>, error: Option<string>, now: nat): (State, bool) {
    if id !in s.jobs || Finished(s.jobs[id]) then (s, false)
    else (s.(jobs := s.jobs[id := Finish(s.jobs[id], result, error, now)]), true)
  }

  function Heartbeat(s: State, id: string, worker: string, now: nat): (State, bool) {
    if id !in s.jobs || s.jobs[id].status != Claimed || s.jobs[id].claimedBy != Some(worker) then (s, false)
    else (s.(jobs := s.jobs[id := s.jobs[id].(heartbeatAt := Some(now))]), true)
  }

  function Requeue(j: Job): Job {
    j.(status := Pending, claimedBy := None, claimedAt := None, heartbeatAt := None)
  }

  function ReapJob(j: Job, now: nat, timeout: nat): Job {
    if Stale(j, now, timeout) then Requeue(j) else j
  }

  function StaleIn(s: State, now: nat, timeout: nat): string -> bool {
    id => id in s.jobs && Stale(s.jobs[id], now, timeout)
  }

  /** The jobs after the reaper has visited exactly those in ids. */
  function ReapAmong(jobs: map<string, Job>, ids: set<string>, now: nat, timeout: nat): map<string, Job> {
    map id | id in jobs :: if id in ids then ReapJob(jobs[id], now, timeout) else jobs[id]
  }

  function Reap(s: State, now: nat, timeout: nat): (State, seq<string>) {
    (s.(jobs := ReapAmong(s.jobs, s.jobs.Keys, now, timeout)),
     Filter(StaleIn(s, now, timeout), s.order))
  }

  lemma ReapAnother(jobs: map<string, Job>, ids: set<string>, id: string, now: nat, timeout: nat)
    requires id in jobs && id !in ids
    ensures ReapAmong(jobs, ids, now, timeout)[id] == jobs[id]
    ensures ReapAmong(jobs, ids + {id}, now, timeout)
         == ReapAmong(jobs, ids, now, timeout)[id := ReapJob(jobs[id], now, timeout)]
  {
  }

  /** The reaper's scan in dict order, i records visited. */
  ghost predicate Reaping(s: State, jobs: map<string, Job>, i: nat, reaped: seq<string>, now: nat, timeout: nat) {
    && i <= |s.order|
    && jobs == ReapAmong(s.jobs, (set id | id in s.order[..i]), now, timeout)
    && reaped == Filter(StaleIn(s, now, timeout), s.order[..i])
  }

  lemma ReapingStart(s: State, now: nat, timeout: nat)
    ensures Reaping(s, s.jobs, 0, [], now, timeout)
  {
  }

  lemma ReapingNext(s: State, jobs: map<string, Job>, i: nat, reaped: seq<string>, now: nat, timeout: nat)
    requires Valid(s) && Reaping(s, jobs, i, reaped, now, timeout) && i < |s.order|
    ensures s.order[i] in jobs
    ensures
      var id := s.order[i];
      Reaping(s, jobs[id := ReapJob(jobs[id], now, timeout)], i + 1,
              if Stale(jobs[id], now, timeout) then reaped + [id] else reaped, now, timeout)
  {
    var id := s.order[i];
    var done := set x | x in s.order[..i];
    assert s.order[..i + 1] == s.order[..i] + [id];
    var upTo := s.order[..i + 1];
    assert (set x | x in upTo) == done + {id};
    ReapAnother(s.jobs, done, id, now, timeout);
    FilterNext(StaleIn(s, now, timeout), s.order, i);
  }

  lemma ReapingDone(s: State, jobs: map<string, Job>, reaped: seq<string>, now: nat, timeout: nat)
    requires Valid(s) && Reaping(s, jobs, |s.order|, reaped, now, timeout)
    ensures (State(jobs, s.order), reaped) == Reap(s, now, timeout) && Valid(Reap(s, now, timeout).0)
  {
    assert s.order[..|s.order|] == s.order;
    assert (set id | id in s.order) == s.jobs.Keys;
  }

  // ---------------------------------------------------------------- runs

  datatype Op =
    | SubmitOp(job: Job)
    | ClaimOp(worker: string, now: nat)
    | CompleteOp(id: string, result: Option<string>, error: Option<string>, now: nat)
    | HeartbeatOp(id: string, worker: string, now: nat)
    | ReapOp(now: nat, timeout: nat)

  datatype Reply = Accepted | ClaimReply(job: Option<Job>) | Flag(ok: bool) | Reaped(ids: set<string>)

  function OpTime(op: Op): nat {
    match op
    case SubmitOp(job) => job.createdAt
    case ClaimOp(_, now) => now
    case CompleteOp(_, _, _, now) => now
    case HeartbeatOp(_, _, now) => now
    case ReapOp(now, _) => now
  }

  /** Waiting, and nobody has worked on it. */
  predicate Unworked(j: Job) {
    && j.status == Pending && j.claimedBy.None? && j.claimedAt.None? && j.heartbeatAt.None?
    && j.result.None? && j.error.None? && j.completedAt.None?
  }

  /** A submitted job is a fresh FederatedJob. */
  predicate WellFormed(op: Op) { op.SubmitOp? ==> Unworked(op.job) }

  ghost function Step(s: State, op: Op): (State, Reply)
    requires Valid(s)
  {
    match op
    case SubmitOp(job) => (Submit(s, job), Accepted)
    case ClaimOp(worker, now) => var r := Claim(s, worker, now); (r.0, ClaimReply(r.1))
    case CompleteOp(id, result, error, now) => var r := Complete(s, id, result, error, now); (r.0, Flag(r.1))
    case HeartbeatOp(id, worker, now) => var r := Heartbeat(s, id, worker, now); (r.0, Flag(r.1))
    case ReapOp(now, timeout) => var r := Reap(s, now, timeout); (r.0, Reaped(set id | id in r.1))
  }

  lemma BeforeIsTotal()
    ensures TotalPreorder(Before)
  {
  }

  lemma {:induction false} PendingAt(s: State, k: nat) returns (i: nat)
    requires Valid(s) && k < |PendingJobs(s)|
    ensures i < |s.order| && PendingJobs(s)[k] == s.jobs[s.order[i]] && s.jobs[s.order[i]].status == Pending
  {
    FilterMembers(IsPending, Listed(s));
    assert PendingJobs(s)[k] in PendingJobs(s);
    i :| 0 <= i < |Listed(s)| && Listed(s)[i] == PendingJobs(s)[k];
  }

  lemma PendingListed(s: State, id: string)
    requires Valid(s) && id in s.jobs && s.jobs[id].status == Pending
    ensures s.jobs[id] in PendingJobs(s)
  {
    FilterMembers(IsPending, Listed(s));
    var i :| 0 <= i < |s.order| && s.order[i] == id;
    assert Listed(s)[i] == s.jobs[id];
  }

  /** `claim` hands out a pending job exactly when there is one, and the one it hands out
      has the highest priority and, among those, the oldest stamp. */
  lemma ClaimIsBest(s: State, worker: string, now: nat)
    requires Valid(s)
    ensures Claim(s, worker, now).1.None? <==> forall id :: id in s.jobs ==> s.jobs[id].status != Pending
    ensures Claim(s, worker, now).1.Some? ==>
      var job := Claim(s, worker, now).1.value;
      && job.id in s.jobs && s.jobs[job.id].status == Pending
      && job == s.jobs[job.id].(status := Claimed, claimedBy := Some(worker), claimedAt := Some(now), heartbeatAt := Some(now))
      && Claim(s, worker, now).0 == State(s.jobs[job.id := job], s.order)
      && (forall id :: id in s.jobs && s.jobs[id].status == Pending ==>
            job.priority > s.jobs[id].priority
            || (job.priority == s.jobs[id].priority && job.createdAt <= s.jobs[id].createdAt))
  {
    var pending := PendingJobs(s);
    forall id | id in s.jobs && s.jobs[id].status == Pending
      ensures s.jobs[id] in pending
    {
      PendingListed(s, id);
    }
    if pending != [] {
      BeforeIsTotal();
      var k := HeadOfSort(Before, pending);
      var i := PendingAt(s, k);
      forall id | id in s.jobs && s.jobs[id].status == Pending
        ensures Before(pending[k], s.jobs[id])
      {
        var j :| 0 <= j < |pending| && pending[j] == s.jobs[id];
      }
    }
  }

  lemma StepKeepsValid(s: State, op: Op)
    requires Valid(s)
    ensures Valid(Step(s, op).0)
  {
    if op.ClaimOp? { ClaimIsBest(s, op.worker, op.now); }
  }

  /** Only a handful of operations can touch the record of a job that is claimed by worker. */
  lemma ClaimedRecordKept(s: State, op: Op, id: string, worker: string)
    requires Valid(s) && id in s.jobs && s.jobs[id].status == Claimed && s.jobs[id].claimedBy == Some(worker)
    requires !(op.SubmitOp? && op.job.id == id) && !(op.CompleteOp? && op.id == id)
    requires !(op.HeartbeatOp? && op.id == id && op.worker == worker)
    requires !(op.ReapOp? && Stale(s.jobs[id], op.now, op.timeout))
    ensures id in Step(s, op).0.jobs && Step(s, op).0.jobs[id] == s.jobs[id]
  {
    if op.ClaimOp? { ClaimIsBest(s, op.worker, op.now); }
  }

  /** The state after a run, and the replies along it. */
  ghost function Run(s: State, ops: seq<Op>): (r: (State, seq<Reply>))
    requires Valid(s)
    ensures Valid(r.0) && |r.1| == |ops|
    decreases |ops|
  {
    if ops == [] then (s, [])
    else
      StepKeepsValid(s, ops[0]);
      var first := Step(s, ops[0]);
      var rest := Run(first.0, ops[1..]);
      (rest.0, [first.1] + rest.1)
  }
}
