/** The Redis backend refines the in-memory one: on guarded runs both answer every request
    alike, and the sorted set always holds exactly the pending jobs. */
module FederationRefinement {
  import opened Sequences
  import opened RedisStamps
  import J = FederationJobs
  import R = RedisJobs

  function EmptyToNone(s: Option<string>): Option<string> { if J.Truthy(s) then s else None }

  /** Redis cannot tell an empty route or error from an absent one. */
  function Normal(j: J.Job): J.Job {
    j.(forceRoute := EmptyToNone(j.forceRoute), error := EmptyToNone(j.error))
  }

  /** A hash as the dict would have it: a pending job has no heartbeat, and a claim overwrites the one that
      an earlier life of the id may have left in the hash. */
  function Read(id: string, h: R.Hash): J.Job {
    var j := R.JobFromHash(id, h);
    if j.status == J.Pending then j.(heartbeatAt := None) else j
  }

  function NormalReply(r: J.Reply): J.Reply {
    if r.ClaimReply? && r.job.Some? then J.ClaimReply(Some(Normal(r.job.value))) else r
  }

  /** The sorted set is {(-priority, "created_at:id")} over the pending hashes. */
  ghost predicate PendingExact(r: R.Store) {
    && (forall m :: m in r.pending ==>
          var id := AfterColon(m);
          && id in r.hashes && r.hashes[id].status == J.Pending
          && m == R.MemberOf(id, r.hashes[id]) && r.pending[m] == -r.hashes[id].priority)
    && (forall id :: id in r.hashes && r.hashes[id].status == J.Pending ==> R.MemberOf(id, r.hashes[id]) in r.pending)
  }

  /** Creation stamps are fixed-width and pairwise distinct; a job that left the pending
      state did so through a claim; an unfinished job has no outcome. */
  ghost predicate Orderly(m: J.State) {
    DistinctStamps(Stamps(m)) && forall id :: id in m.jobs ==> OrderlyJob(m.jobs[id])
  }

  predicate OrderlyJob(j: J.Job) {
    && FixedWidth(j.createdAt) && (j.status == J.Pending <==> j.heartbeatAt.None?)
    && (j.status == J.Pending || j.status == J.Claimed ==> j.result.None? && j.error.None?)
  }

  ghost function Stamps(m: J.State): map<string, nat> { map id | id in m.jobs :: m.jobs[id].createdAt }

  ghost predicate DistinctStamps(stamps: map<string, nat>) {
    forall a, b :: a in stamps && b in stamps && a != b ==> stamps[a] != stamps[b]
  }

  ghost predicate SameJobs(m: J.State, r: R.Store) {
    && r.hashes.Keys == m.jobs.Keys
    && (forall id :: id in m.jobs ==> Read(id, r.hashes[id]) == Normal(m.jobs[id]))
  }

  ghost predicate Sim(m: J.State, r: R.Store) {
    J.Valid(m) && R.Backed(r) && Orderly(m) && SameJobs(m, r) && PendingExact(r)
  }

  ghost predicate NewStamp(m: J.State, now: nat) {
    FixedWidth(now) && forall id :: id in m.jobs ==> m.jobs[id].createdAt != now
  }

  predicate IsPending(m: J.State, id: string) { id in m.jobs && m.jobs[id].status == J.Pending }

  /** What a step must respect for the two backends to stay together. */
  ghost predicate Guard(m: J.State, op: J.Op) {
    match op
    case SubmitOp(job) => J.WellFormed(op) && !IsPending(m, job.id) && NewStamp(m, job.createdAt)
    case ClaimOp(worker, _) => worker != ""
    case CompleteOp(id, _, _, _) => !IsPending(m, id)
    case HeartbeatOp(_, _, _) => true
    case ReapOp(_, _) => true
  }

  /** Overwriting one record, creation stamp unchanged. */
  lemma UpdateJob(m: J.State, id: string, job: J.Job)
    requires J.Valid(m) && Orderly(m) && id in m.jobs
    requires job.id == id && job.createdAt == m.jobs[id].createdAt && OrderlyJob(job)
    ensures J.Valid(m.(jobs := m.jobs[id := job])) && Orderly(m.(jobs := m.jobs[id := job]))
  {
    assert Stamps(m.(jobs := m.jobs[id := job])) == Stamps(m);
  }

  lemma UpdateHash(m: J.State, r: R.Store, id: string, job: J.Job, h: R.Hash)
    requires R.Backed(r) && SameJobs(m, r) && id in m.jobs && Read(id, h) == Normal(job)
    ensures SameJobs(m.(jobs := m.jobs[id := job]), r.(hashes := r.hashes[id := h]))
    ensures R.Backed(r.(hashes := r.hashes[id := h]))
  {
  }

  lemma UpdateBoth(m: J.State, r: R.Store, id: string, job: J.Job, h: R.Hash)
    requires Sim(m, r) && id in m.jobs && m.jobs[id].status != J.Pending && job.status != J.Pending
    requires job.id == id && job.createdAt == m.jobs[id].createdAt && OrderlyJob(job)
    requires Read(id, h) == Normal(job)
    ensures Sim(m.(jobs := m.jobs[id := job]), r.(hashes := r.hashes[id := h]))
  {
    UpdateJob(m, id, job);
    UpdateHash(m, r, id, job, h);
    assert Read(id, r.hashes[id]) == Normal(m.jobs[id]);
    UpdateTaken(r, id, h);
  }

  /** A record that is taken before and after is nothing to the sorted set. */
  lemma UpdateTaken(r: R.Store, id: string, h: R.Hash)
    requires PendingExact(r) && id in r.hashes && r.hashes[id].status != J.Pending && h.status != J.Pending
    ensures PendingExact(r.(hashes := r.hashes[id := h]))
  {
  }

  lemma SubmitCommutes(m: J.State, r: R.Store, job: J.Job)
    requires Sim(m, r) && Guard(m, J.SubmitOp(job))
    ensures Sim(J.Submit(m, job), R.Submit(r, job))
  {
    SameStatus(m, r, job.id);
    SubmitOrderly(m, job);
    SubmitSame(m, r, job);
    SubmitExact(r, job);
  }

  /** Whatever heartbeat a reused hash still holds. */
  lemma SubmittedReads(r: R.Store, job: J.Job)
    requires J.WellFormed(J.SubmitOp(job))
    ensures Read(job.id, R.Submit(r, job).hashes[job.id]) == Normal(job)
  {
  }

  lemma SubmitSame(m: J.State, r: R.Store, job: J.Job)
    requires R.Backed(r) && SameJobs(m, r) && J.WellFormed(J.SubmitOp(job))
    ensures SameJobs(J.Submit(m, job), R.Submit(r, job)) && R.Backed(R.Submit(r, job))
  {
    hide Member, AfterColon, Read, Normal, J.WellFormed;
    IdRoundTrip(job.createdAt, job.id);
    SubmittedReads(r, job);
  }

  lemma SubmitOrderly(m: J.State, job: J.Job)
    requires J.Valid(m) && Orderly(m) && Guard(m, J.SubmitOp(job))
    ensures J.Valid(J.Submit(m, job)) && Orderly(J.Submit(m, job))
  {
    SubmitValid(m, job);
    SubmitStamps(m, job);
    SubmitOrderlyJobs(m, job);
  }

  lemma SubmitValid(m: J.State, job: J.Job)
    requires J.Valid(m)
    ensures J.Valid(J.Submit(m, job))
  {
  }

  lemma SubmitStamps(m: J.State, job: J.Job)
    requires DistinctStamps(Stamps(m)) && NewStamp(m, job.createdAt)
    ensures DistinctStamps(Stamps(J.Submit(m, job)))
  {
    assert Stamps(J.Submit(m, job)) == Stamps(m)[job.id := job.createdAt];
  }

  lemma SubmitOrderlyJobs(m: J.State, job: J.Job)
    requires Orderly(m) && Guard(m, J.SubmitOp(job))
    ensures forall id :: id in J.Submit(m, job).jobs ==> OrderlyJob(J.Submit(m, job).jobs[id])
  {
    hide Stamps, DistinctStamps;
  }

  lemma SubmitExact(r: R.Store, job: J.Job)
    requires PendingExact(r) && !(job.id in r.hashes && r.hashes[job.id].status == J.Pending)
    ensures PendingExact(R.Submit(r, job))
  {
    hide Member, AfterColon;
    IdRoundTrip(job.createdAt, job.id);
    var r' := R.Submit(r, job);
    var added := Member(job.createdAt, job.id);
    forall x | x in r'.pending && x != added
      ensures AfterColon(x) != job.id
    {
      assert x in r.pending;
    }
  }

  /** The guard is exact: a submission keeps the backends together if and only if its id is not
      pending. Reusing the id of a claimed or finished job resets both alike. */
  lemma SubmitCommutesIff(m: J.State, r: R.Store, job: J.Job)
    requires Sim(m, r) && J.WellFormed(J.SubmitOp(job)) && NewStamp(m, job.createdAt)
    ensures Sim(J.Submit(m, job), R.Submit(r, job)) <==> !IsPending(m, job.id)
  {
    hide Member, AfterColon;
    if !IsPending(m, job.id) {
      SubmitCommutes(m, r, job);
    } else {
      SameStatus(m, r, job.id);
      assert Read(job.id, r.hashes[job.id]) == Normal(m.jobs[job.id]);
      var stale := R.MemberOf(job.id, r.hashes[job.id]);
      IdRoundTrip(r.hashes[job.id].createdAt, job.id);
      MembersDiffer(r.hashes[job.id].createdAt, job.createdAt, job.id);
      assert stale in R.Submit(r, job).pending;
      assert !PendingExact(R.Submit(r, job));
    }
  }

  lemma MembersDiffer(t: nat, u: nat, id: string)
    requires FixedWidth(t) && FixedWidth(u) && t != u
    ensures Member(t, id) != Member(u, id)
  {
    if t < u { OlderSortsFirst(t, u, id, id); } else { OlderSortsFirst(u, t, id, id); }
    LexTotal(Member(t, id), Member(t, id));
  }

  /** The member that ZRANGE finds is that of the job the dict scan finds. */
  lemma BestIsFirst(m: J.State, r: R.Store, id: string)
    requires Sim(m, r) && id in m.jobs && m.jobs[id].status == J.Pending
    requires forall other :: other in m.jobs && m.jobs[other].status == J.Pending ==>
      m.jobs[id].priority > m.jobs[other].priority
      || (m.jobs[id].priority == m.jobs[other].priority && m.jobs[id].createdAt <= m.jobs[other].createdAt)
    ensures R.IsFirst(r.pending, R.MemberOf(id, r.hashes[id]))
  {
    hide Member, AfterColon;
    var first := R.MemberOf(id, r.hashes[id]);
    IdRoundTrip(r.hashes[id].createdAt, id);
    assert Read(id, r.hashes[id]) == Normal(m.jobs[id]);
    forall x | x in r.pending && x != first
      ensures R.RanksBefore(r.pending[first], first, r.pending[x], x)
    {
      var other := AfterColon(x);
      assert Read(other, r.hashes[other]) == Normal(m.jobs[other]);
      assert other != id ==> Stamps(m)[id] != Stamps(m)[other];
      if m.jobs[id].createdAt < m.jobs[other].createdAt {
        OlderSortsFirst(m.jobs[id].createdAt, m.jobs[other].createdAt, id, other);
      }
    }
  }

  lemma NothingPending(m: J.State, r: R.Store)
    requires Sim(m, r) && forall id :: id in m.jobs ==> m.jobs[id].status != J.Pending
    ensures r.pending == map[]
  {
    forall x
      ensures x !in r.pending
    {
      var id := AfterColon(x);
      assert id in m.jobs ==> Read(id, r.hashes[id]) == Normal(m.jobs[id]);
    }
  }

  lemma ClaimCommutes(m: J.State, r: R.Store, worker: string, now: nat)
    requires Sim(m, r) && worker != ""
    ensures Sim(J.Claim(m, worker, now).0, R.Claim(r, worker, now).0)
    ensures J.ClaimReply(R.Claim(r, worker, now).1) == NormalReply(J.ClaimReply(J.Claim(m, worker, now).1))
  {
    J.ClaimIsBest(m, worker, now);
    var taken := J.Claim(m, worker, now).1;
    if taken.None? {
      NothingPending(m, r);
    } else {
      var id := taken.value.id;
      var first := R.MemberOf(id, r.hashes[id]);
      BestIsFirst(m, r, id);
      R.FirstIsUnique(r.pending, R.First(r.pending), first);
      IdRoundTrip(r.hashes[id].createdAt, id);
      assert Read(id, r.hashes[id]) == Normal(m.jobs[id]);
      ClaimKeepsSim(m, r, id, worker, now);
    }
  }

  lemma ClaimKeepsSim(m: J.State, r: R.Store, id: string, worker: string, now: nat)
    requires Sim(m, r) && worker != "" && id in m.jobs && m.jobs[id].status == J.Pending
    ensures Sim(J.State(m.jobs[id := J.Take(m.jobs[id], worker, now)], m.order),
                R.Store(r.hashes[id := R.TakeHash(r.hashes[id], worker, now)],
                        r.pending - {R.MemberOf(id, r.hashes[id])}, r.ids))
  {
    var h := R.TakeHash(r.hashes[id], worker, now);
    assert Read(id, r.hashes[id]) == Normal(m.jobs[id]);
    UpdateJob(m, id, J.Take(m.jobs[id], worker, now));
    UpdateHash(m, r, id, J.Take(m.jobs[id], worker, now), h);
    ClaimExact(r, id, h);
  }

  lemma ClaimExact(r: R.Store, id: string, h: R.Hash)
    requires PendingExact(r) && id in r.hashes && r.hashes[id].status == J.Pending && h.status != J.Pending
    ensures PendingExact(R.Store(r.hashes[id := h], r.pending - {R.MemberOf(id, r.hashes[id])}, r.ids))
  {
    hide Member, AfterColon;
    IdRoundTrip(r.hashes[id].createdAt, id);
    forall other | other in r.hashes && other != id
      ensures R.MemberOf(other, r.hashes[other]) != R.MemberOf(id, r.hashes[id])
    {
      IdRoundTrip(r.hashes[other].createdAt, other);
    }
  }

  lemma FinishMatches(id: string, j: J.Job, h: R.Hash, result: Option<string>, error: Option<string>, now: nat)
    requires Read(id, h) == Normal(j) && j.status != J.Pending && j.result.None? && j.error.None?
    ensures Read(id, R.FinishHash(h, result, error, now)) == Normal(J.Finish(j, result, error, now))
  {
  }

  lemma ReapMatches(id: string, j: J.Job, h: R.Hash, now: nat, timeout: nat)
    requires Read(id, h) == Normal(j)
    ensures Read(id, R.ReapHash(h, true, now, timeout)) == Normal(J.ReapJob(j, now, timeout))
    ensures R.StaleHash(h, now, timeout) == J.Stale(j, now, timeout)
  {
  }

  lemma FinishBoth(m: J.State, r: R.Store, id: string, result: Option<string>, error: Option<string>, now: nat)
    requires Sim(m, r) && id in m.jobs && m.jobs[id].status == J.Claimed
    ensures Sim(m.(jobs := m.jobs[id := J.Finish(m.jobs[id], result, error, now)]),
                r.(hashes := r.hashes[id := R.FinishHash(r.hashes[id], result, error, now)]))
  {
    assert Read(id, r.hashes[id]) == Normal(m.jobs[id]);
    FinishMatches(id, m.jobs[id], r.hashes[id], result, error, now);
    UpdateBoth(m, r, id, J.Finish(m.jobs[id], result, error, now), R.FinishHash(r.hashes[id], result, error, now));
  }

  lemma SameStatus(m: J.State, r: R.Store, id: string)
    requires Sim(m, r)
    ensures id in r.hashes <==> id in m.jobs
    ensures id in m.jobs ==> r.hashes[id].status == m.jobs[id].status
  {
    assert id in m.jobs ==> Read(id, r.hashes[id]) == Normal(m.jobs[id]);
  }

  lemma CompleteCommutes(m: J.State, r: R.Store, id: string, result: Option<string>, error: Option<string>, now: nat)
    requires Sim(m, r) && !IsPending(m, id)
    ensures Sim(J.Complete(m, id, result, error, now).0, R.Complete(r, id, result, error, now).0)
    ensures R.Complete(r, id, result, error, now).1 == J.Complete(m, id, result, error, now).1
  {
    hide Sim;
    SameStatus(m, r, id);
    if id in m.jobs && m.jobs[id].status == J.Claimed { FinishBoth(m, r, id, result, error, now); }
  }

  /** The guard is exact: completing keeps the backends together if and only if the job is
      not currently pending. */
  lemma CompleteCommutesIff(m: J.State, r: R.Store, id: string, result: Option<string>, error: Option<string>, now: nat)
    requires Sim(m, r)
    ensures Sim(J.Complete(m, id, result, error, now).0, R.Complete(r, id, result, error, now).0)
      <==> !IsPending(m, id)
  {
    hide Member, AfterColon;
    if id in m.jobs && m.jobs[id].status == J.Pending {
      assert Read(id, r.hashes[id]) == Normal(m.jobs[id]);
      IdRoundTrip(r.hashes[id].createdAt, id);
      assert !PendingExact(R.Complete(r, id, result, error, now).0);
    } else {
      CompleteCommutes(m, r, id, result, error, now);
    }
  }

  lemma HeartbeatCommutes(m: J.State, r: R.Store, id: string, worker: string, now: nat)
    requires Sim(m, r)
    ensures Sim(J.Heartbeat(m, id, worker, now).0, R.Heartbeat(r, id, worker, now).0)
    ensures R.Heartbeat(r, id, worker, now).1 == J.Heartbeat(m, id, worker, now).1
  {
    if id in m.jobs {
      assert Read(id, r.hashes[id]) == Normal(m.jobs[id]);
      if J.Heartbeat(m, id, worker, now).1 {
        var h := r.hashes[id].(heartbeatAt := Some(now));
        UpdateBoth(m, r, id, m.jobs[id].(heartbeatAt := Some(now)), h);
      }
    }
  }

  lemma ReapCommutes(m: J.State, r: R.Store, now: nat, timeout: nat)
    requires Sim(m, r)
    ensures Sim(J.Reap(m, now, timeout).0, R.Reap(r, now, timeout))
    ensures R.StaleIds(r, now, timeout) == set id | id in J.Reap(m, now, timeout).1
  {
    ReapSame(m, r, now, timeout);
    StaleSame(m, r, now, timeout);
    FilterMembers(J.StaleIn(m, now, timeout), m.order);
    ReapOrderly(m, now, timeout);
    ReapExact(r, now, timeout);
  }

  lemma ReapSame(m: J.State, r: R.Store, now: nat, timeout: nat)
    requires R.Backed(r) && SameJobs(m, r)
    ensures SameJobs(J.Reap(m, now, timeout).0, R.Reap(r, now, timeout))
  {
    hide Member, AfterColon, Read, Normal, R.ReapHash, J.ReapJob;
    forall id | id in m.jobs
      ensures Read(id, R.ReapHash(r.hashes[id], true, now, timeout)) == Normal(J.ReapJob(m.jobs[id], now, timeout))
    {
      ReapMatches(id, m.jobs[id], r.hashes[id], now, timeout);
    }
  }

  lemma StaleSame(m: J.State, r: R.Store, now: nat, timeout: nat)
    requires R.Backed(r) && SameJobs(m, r)
    ensures R.StaleIds(r, now, timeout) == set id | id in m.jobs && J.Stale(m.jobs[id], now, timeout)
  {
    forall id | id in m.jobs
      ensures R.StaleHash(r.hashes[id], now, timeout) == J.Stale(m.jobs[id], now, timeout)
    {
      ReapMatches(id, m.jobs[id], r.hashes[id], now, timeout);
    }
  }

  lemma ReapOrderly(m: J.State, now: nat, timeout: nat)
    requires J.Valid(m) && Orderly(m)
    ensures J.Valid(J.Reap(m, now, timeout).0) && Orderly(J.Reap(m, now, timeout).0)
  {
    var m' := J.Reap(m, now, timeout).0;
    forall id | id in m.jobs
      ensures m'.jobs[id].createdAt == m.jobs[id].createdAt && m'.jobs[id].id == id && OrderlyJob(m'.jobs[id])
    {
      assert m'.jobs[id] == J.ReapJob(m.jobs[id], now, timeout);
    }
    assert Stamps(m') == Stamps(m);
  }

  lemma ReapExact(r: R.Store, now: nat, timeout: nat)
    requires R.Backed(r) && PendingExact(r)
    ensures PendingExact(R.Reap(r, now, timeout)) && R.Backed(R.Reap(r, now, timeout))
  {
    hide Member, AfterColon;
    var r' := R.Reap(r, now, timeout);
    forall id | id in r.hashes
      ensures AfterColon(R.MemberOf(id, r.hashes[id])) == id
      ensures R.StaleHash(r.hashes[id], now, timeout) ==>
        R.Returned(r, r.ids, now, timeout, R.MemberOf(id, r.hashes[id]))
    {
      IdRoundTrip(r.hashes[id].createdAt, id);
    }
    forall x | x in r'.pending
      ensures var id := AfterColon(x);
        && id in r'.hashes && r'.hashes[id].status == J.Pending
        && x == R.MemberOf(id, r'.hashes[id]) && r'.pending[x] == -r'.hashes[id].priority
    {
      ReapMember(r, now, timeout, x);
    }
  }

  lemma ReapMember(r: R.Store, now: nat, timeout: nat, x: string)
    requires R.Backed(r) && PendingExact(r) && x in R.Reap(r, now, timeout).pending
    ensures
      var id, r' := AfterColon(x), R.Reap(r, now, timeout);
      && id in r'.hashes && r'.hashes[id].status == J.Pending
      && x == R.MemberOf(id, r'.hashes[id]) && r'.pending[x] == -r'.hashes[id].priority
  {
    hide Member, AfterColon;
    assert x in r.pending || R.Returned(r, r.ids, now, timeout, x);
  }

  lemma StepCommutes(m: J.State, r: R.Store, op: J.Op)
    requires Sim(m, r) && Guard(m, op)
    ensures Sim(J.Step(m, op).0, R.Step(r, op).0)
    ensures R.Step(r, op).1 == NormalReply(J.Step(m, op).1)
  {
    match op
    case SubmitOp(job) => SubmitCommutes(m, r, job);
    case ClaimOp(worker, now) => ClaimCommutes(m, r, worker, now);
    case CompleteOp(id, result, error, now) => CompleteCommutes(m, r, id, result, error, now);
    case HeartbeatOp(id, worker, now) => HeartbeatCommutes(m, r, id, worker, now);
    case ReapOp(now, timeout) => ReapCommutes(m, r, now, timeout);
  }

  ghost predicate Guarded(m: J.State, ops: seq<J.Op>)
    requires J.Valid(m)
    decreases |ops|
  {
    ops != [] ==> Guard(m, ops[0]) && (J.StepKeepsValid(m, ops[0]); Guarded(J.Step(m, ops[0]).0, ops[1..]))
  }

  ghost predicate SameReplies(redis: seq<J.Reply>, memory: seq<J.Reply>) {
    |redis| == |memory| && forall k :: 0 <= k < |redis| ==> redis[k] == NormalReply(memory[k])
  }

  lemma SameRepliesCons(a: J.Reply, b: J.Reply, redis: seq<J.Reply>, memory: seq<J.Reply>)
    requires a == NormalReply(b) && SameReplies(redis, memory)
    ensures SameReplies([a] + redis, [b] + memory)
  {
  }

  /** Over every guarded run the two backends give the same replies (in particular they hand
      out the same job at every claim) and end with the same jobs. */
  lemma {:induction false} RedisRefinesMemory(m: J.State, r: R.Store, ops: seq<J.Op>)
    requires Sim(m, r) && Guarded(m, ops)
    ensures Sim(J.Run(m, ops).0, R.Run(r, ops).0)
    ensures SameReplies(R.Run(r, ops).1, J.Run(m, ops).1)
    decreases |ops|
  {
    if ops != [] {
      StepCommutes(m, r, ops[0]);
      J.StepKeepsValid(m, ops[0]);
      R.StepKeepsBacked(r, ops[0]);
      var mem, redis := J.Step(m, ops[0]), R.Step(r, ops[0]);
      RedisRefinesMemory(mem.0, redis.0, ops[1..]);
      SameRepliesCons(redis.1, mem.1, R.Run(redis.0, ops[1..]).1, J.Run(mem.0, ops[1..]).1);
    }
  }

  lemma FreshBackendsAgree(ops: seq<J.Op>)
    requires Guarded(J.EMPTY_STATE, ops)
    ensures SameReplies(R.Run(R.EMPTY_STORE, ops).1, J.Run(J.EMPTY_STATE, ops).1)
    ensures PendingExact(R.Run(R.EMPTY_STORE, ops).0)
  {
    RedisRefinesMemory(J.EMPTY_STATE, R.EMPTY_STORE, ops);
  }

  /** Without the guard they part: after submit and complete, the dict has nothing to claim
      but Redis hands the finished job out again. */
  lemma FinishedJobIsHandedOutAgain(job: J.Job, worker: string, done: nat, now: nat)
    requires J.WellFormed(J.SubmitOp(job)) && worker != ""
    ensures
      var m := J.Complete(J.Submit(J.EMPTY_STATE, job), job.id, None, None, done).0;
      var r := R.Complete(R.Submit(R.EMPTY_STORE, job), job.id, None, None, done).0;
      && J.Valid(m) && R.Backed(r)
      && J.Claim(m, worker, now).1 == None
      && R.Claim(r, worker, now).1.Some? && R.Claim(r, worker, now).1.value.id == job.id
  {
    var m := J.Complete(J.Submit(J.EMPTY_STATE, job), job.id, None, None, done).0;
    var r := R.Complete(R.Submit(R.EMPTY_STORE, job), job.id, None, None, done).0;
    IdRoundTrip(job.createdAt, job.id);
    J.ClaimIsBest(m, worker, now);
    assert Member(job.createdAt, job.id) in r.pending;
  }

  lemma DictHandsOutOnce(job: J.Job, again: J.Job, worker: string, other: string, now: nat, later: nat)
    requires J.WellFormed(J.SubmitOp(job)) && J.WellFormed(J.SubmitOp(again)) && again.id == job.id
    ensures
      var m := J.Submit(J.Submit(J.EMPTY_STATE, job), again);
      J.Valid(m) && J.Claim(m, worker, now).1.Some? && J.Claim(J.Claim(m, worker, now).0, other, later).1 == None
  {
    var m := J.Submit(J.Submit(J.EMPTY_STATE, job), again);
    J.ClaimIsBest(m, worker, now);
    J.ClaimIsBest(J.Claim(m, worker, now).0, other, later);
  }

  lemma RedisHandsOutTwice(job: J.Job, again: J.Job, worker: string, other: string, now: nat, later: nat)
    requires J.WellFormed(J.SubmitOp(job)) && J.WellFormed(J.SubmitOp(again)) && again.id == job.id
    requires FixedWidth(job.createdAt) && FixedWidth(again.createdAt) && again.createdAt != job.createdAt
    ensures
      var r := R.Submit(R.Submit(R.EMPTY_STORE, job), again);
      && R.Backed(r) && R.Claim(r, worker, now).1.Some? && R.Claim(r, worker, now).1.value.id == job.id
      && var next := R.Claim(r, worker, now).0;
      && R.Backed(next) && R.Claim(next, other, later).1.Some? && R.Claim(next, other, later).1.value.id == job.id
  {
    hide Member, AfterColon, R.IsFirst;
    var r := R.Submit(R.Submit(R.EMPTY_STORE, job), again);
    var a, b := Member(job.createdAt, job.id), Member(again.createdAt, job.id);
    IdRoundTrip(job.createdAt, job.id);
    IdRoundTrip(again.createdAt, job.id);
    MembersDiffer(job.createdAt, again.createdAt, job.id);
    assert r.pending.Keys == {a, b} && r.hashes.Keys == {job.id};
    FirstIsThere(r.pending);
    var next := R.Claim(r, worker, now).0;
    assert next.pending.Keys == {a, b} - {R.First(r.pending)} && next.hashes.Keys == {job.id};
    var left := if R.First(r.pending) == a then b else a;
    assert left in next.pending.Keys;
    FirstIsThere(next.pending);
    assert forall m :: m in next.pending ==> AfterColon(m) == job.id;
    assert R.Backed(next);
  }

  lemma FirstIsThere(pending: map<string, int>)
    ensures pending != map[] ==> R.First(pending) in pending.Keys
    ensures pending.Keys != {} ==> pending != map[]
  {
  }

  /** Reusing the id of a pending job is what the guard forbids: the dict then holds one job, but Redis
      holds two members for it and hands it out twice. */
  lemma ReusedPendingIdIsHandedOutTwice(job: J.Job, again: J.Job, worker: string, other: string, now: nat, later: nat)
    requires J.WellFormed(J.SubmitOp(job)) && J.WellFormed(J.SubmitOp(again)) && again.id == job.id
    requires FixedWidth(job.createdAt) && FixedWidth(again.createdAt) && again.createdAt != job.createdAt
    ensures
      var m := J.Submit(J.Submit(J.EMPTY_STATE, job), again);
      var r := R.Submit(R.Submit(R.EMPTY_STORE, job), again);
      && J.Valid(m) && J.Claim(m, worker, now).1.Some? && J.Claim(J.Claim(m, worker, now).0, other, later).1 == None
      && R.Backed(r) && R.Claim(r, worker, now).1.Some? && R.Claim(r, worker, now).1.value.id == job.id
      && var next := R.Claim(r, worker, now).0;
      && R.Backed(next) && R.Claim(next, other, later).1.Some? && R.Claim(next, other, later).1.value.id == job.id
  {
    hide Member, AfterColon;
    DictHandsOutOnce(job, again, worker, other, now, later);
    RedisHandsOutTwice(job, again, worker, other, now, later);
  }
}
