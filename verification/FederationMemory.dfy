/** The in-memory backend as the object it is: a dict whose records are overwritten in place. */
module FederationMemory {
  import opened Sequences
  import opened StableSort
  import opened FederationJobs

  lemma ClaimKeepsValid(s: State, worker: string, now: nat)
    requires Valid(s)
    ensures Valid(FederationJobs.Claim(s, worker, now).0)
  {
    ClaimIsBest(s, worker, now);
  }

  class InMemoryFederationState {
    var jobs: map<string, Job>
    var order: seq<string>

    ghost function Contents(): State reads this { State(jobs, order) }

    constructor ()
      ensures Contents() == EMPTY_STATE
    {
      jobs, order := map[], [];
    }

    method Submit(id: string, query: string, priority: int, forceRoute: Option<string>,
                  submittedBy: string, now: nat) returns (job: Job)
      requires Valid(Contents())
      modifies this
      ensures job.id == id && job.query == query && job.priority == priority && job.forceRoute == forceRoute
      ensures job.submittedBy == submittedBy && job.createdAt == now
      ensures job.status == Pending && job.claimedBy.None? && job.claimedAt.None? && job.heartbeatAt.None?
      ensures job.result.None? && job.error.None? && job.completedAt.None?
      ensures Contents() == FederationJobs.Submit(old(Contents()), job) && Valid(Contents())
    {
      job := NewJob(id, query, priority, forceRoute, submittedBy, now);
      if id !in jobs { order := order + [id]; }
      jobs := jobs[id := job];
    }

    method Claim(worker: string, now: nat) returns (r: Option<Job>)
      requires Valid(Contents())
      modifies this
      ensures (Contents(), r) == FederationJobs.Claim(old(Contents()), worker, now) && Valid(Contents())
    {
      ghost var before := Contents();
      ClaimKeepsValid(before, worker, now);
      var pending: seq<Job> := [];
      for i := 0 to |order|
        invariant pending == Filter(IsPending, Listed(before)[..i])
        invariant Contents() == before
      {
        var job := jobs[order[i]];
        FilterNext(IsPending, Listed(before), i);
        if job.status == Pending { pending := pending + [job]; }
      }
      assert Listed(before)[..|order|] == Listed(before);
      if pending == [] { return None; }
      var job := Sort(Before, pending)[0];
      job := job.(status := Claimed, claimedBy := Some(worker), claimedAt := Some(now));
      job := job.(heartbeatAt := Some(now));
      jobs := jobs[job.id := job];
      return Some(job);
    }

    method Complete(id: string, result: Option<string>, error: Option<string>, now: nat) returns (ok: bool)
      requires Valid(Contents())
      modifies this
      ensures (Contents(), ok) == FederationJobs.Complete(old(Contents()), id, result, error, now) && Valid(Contents())
    {
      if id !in jobs { return false; }
      var job := jobs[id];
      if job.status == Done || job.status == Error { return false; }
      job := job.(status := if Truthy(error) then Error else Done);
      job := job.(result := result, error := error, completedAt := Some(now));
      jobs := jobs[id := job];
      return true;
    }

    method Heartbeat(id: string, worker: string, now: nat) returns (ok: bool)
      requires Valid(Contents())
      modifies this
      ensures (Contents(), ok) == FederationJobs.Heartbeat(old(Contents()), id, worker, now) && Valid(Contents())
    {
      if id !in jobs || jobs[id].status != Claimed { return false; }
      if jobs[id].claimedBy != Some(worker) { return false; }
      jobs := jobs[id := jobs[id].(heartbeatAt := Some(now))];
      return true;
    }

    method ReapStaleClaims(now: nat, timeout: nat) returns (reaped: seq<string>)
      requires Valid(Contents())
      modifies this
      ensures (Contents(), reaped) == Reap(old(Contents()), now, timeout) && Valid(Contents())
    {
      ghost var before := Contents();
      hide Reaping;
      ReapingStart(before, now, timeout);
      reaped := [];
      for i := 0 to |order|
        invariant order == before.order && Reaping(before, jobs, i, reaped, now, timeout)
      {
        var id := order[i];
        ReapingNext(before, jobs, i, reaped, now, timeout);
        var requeued := ReapOne(id, now, timeout);
        if requeued { reaped := reaped + [id]; }
      }
      ReapingDone(before, jobs, reaped, now, timeout);
    }

    /** One turn of the reaper's scan. */
    method ReapOne(id: string, now: nat, timeout: nat) returns (requeued: bool)
      requires id in jobs
      modifies this`jobs
      ensures jobs == old(jobs)[id := ReapJob(old(jobs)[id], now, timeout)]
      ensures requeued == Stale(old(jobs)[id], now, timeout)
    {
      var job := jobs[id];
      if job.status != Claimed { return false; }
      var contact := LastContact(job.heartbeatAt, job.claimedAt);
      if contact.None? { return false; }
      if now - contact.value <= timeout { return false; }
      jobs := jobs[id := job.(status := Pending, claimedBy := None, claimedAt := None, heartbeatAt := None)];
      return true;
    }
  }
}
