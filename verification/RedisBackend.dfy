/** The Redis backend as the object it is, command by command. */
module RedisBackend {
  import opened Sequences
  import opened FederationJobs
  import opened RedisStamps
  import opened RedisJobs

  class RedisFederationState {
    var hashes: map<string, Hash>
    var pending: map<string, int>
    var ids: set<string>

    ghost function Contents(): Store reads this { Store(hashes, pending, ids) }

    constructor ()
      ensures Contents() == EMPTY_STORE
    {
      hashes, pending, ids := map[], map[], {};
    }

    method Submit(id: string, query: string, priority: int, forceRoute: Option<string>,
                  submittedBy: string, now: nat) returns (job: Job)
      requires Backed(Contents())
      modifies this
      ensures job.id == id && job.query == query && job.priority == priority && job.forceRoute == forceRoute
      ensures job.submittedBy == submittedBy && job.createdAt == now
      ensures job.status == Pending && job.claimedBy.None? && job.claimedAt.None? && job.heartbeatAt.None?
      ensures job.result.None? && job.error.None? && job.completedAt.None?
      ensures Contents() == RedisJobs.Submit(old(Contents()), job) && Backed(Contents())
      ensures hashes[id].heartbeatAt == if id in old(hashes) then old(hashes)[id].heartbeatAt else None
    {
      job := NewJob(id, query, priority, forceRoute, submittedBy, now);
      var kept := if id in hashes then hashes[id].heartbeatAt else None;
      var route := if forceRoute.Some? then forceRoute.value else "";
      hashes := hashes[id := Hash(query, priority, route, submittedBy, Pending, "", None, "", now, None, None, kept)];
      var member := Stamp(now) + ":" + id;
      pending := pending[member := -priority];
      ids := ids + {id};
      IdRoundTrip(now, id);
    }

    /** ZRANGE 0 0: scans the set for its least member. */
    method ZRangeFirst() returns (m: string)
      requires pending != map[]
      ensures IsFirst(pending, m)
    {
      m :| m in pending;
      var rest := pending.Keys - {m};
      while rest != {}
        invariant m in pending && m !in rest && rest <= pending.Keys
        invariant forall x :: x in pending && x !in rest && x != m ==> RanksBefore(pending[m], m, pending[x], x)
        decreases |rest|
      {
        var x :| x in rest;
        rest := rest - {x};
        if RanksBefore(pending[x], x, pending[m], m) {
          forall y | y in pending && y !in rest && y != x
            ensures RanksBefore(pending[x], x, pending[y], y)
          {
            if y != m && LexLess(x, m) && LexLess(m, y) { LexTransitive(x, m, y); }
          }
          m := x;
        } else {
          LexTotal(m, x);
        }
      }
    }

    method Claim(worker: string, now: nat) returns (r: Option<Job>)
      requires Backed(Contents())
      modifies this
      ensures (Contents(), r) == RedisJobs.Claim(old(Contents()), worker, now) && Backed(Contents())
    {
      if pending == map[] { return None; }
      var member := ZRangeFirst();
      FirstIsUnique(pending, member, First(pending));
      var id := AfterColon(member);
      pending := pending - {member};
      hashes := hashes[id := hashes[id].(status := Claimed, claimedBy := worker, claimedAt := Some(now),
                                         heartbeatAt := Some(now))];
      return Some(JobFromHash(id, hashes[id]));
    }

    method Complete(id: string, result: Option<string>, error: Option<string>, now: nat) returns (ok: bool)
      requires Backed(Contents())
      modifies this
      ensures (Contents(), ok) == RedisJobs.Complete(old(Contents()), id, result, error, now) && Backed(Contents())
    {
      if id !in hashes { return false; }
      var h := hashes[id];
      if h.status == Done || h.status == Error { return false; }
      h := h.(status := if Truthy(error) then Error else Done, completedAt := Some(now));
      if result.Some? { h := h.(result := result); }
      if Truthy(error) { h := h.(error := error.value); }
      hashes := hashes[id := h];
      return true;
    }

    method Heartbeat(id: string, worker: string, now: nat) returns (ok: bool)
      requires Backed(Contents())
      modifies this
      ensures (Contents(), ok) == RedisJobs.Heartbeat(old(Contents()), id, worker, now) && Backed(Contents())
    {
      if id !in hashes { return false; }
      var job := JobFromHash(id, hashes[id]);
      if job.status != Claimed || job.claimedBy != Some(worker) { return false; }
      hashes := hashes[id := hashes[id].(heartbeatAt := Some(now))];
      return true;
    }

    method ReapStaleClaims(now: nat, timeout: nat) returns (reaped: set<string>)
      requires Backed(Contents())
      modifies this
      ensures Contents() == RedisJobs.Reap(old(Contents()), now, timeout) && Backed(Contents())
      ensures reaped == StaleIds(old(Contents()), now, timeout)
    {
      ghost var before := Contents();
      var todo := ids;
      reaped := {};
      hide Sweeping;
      SweepingStart(before, now, timeout);
      while todo != {}
        invariant Sweeping(before, Contents(), todo, reaped, now, timeout)
        decreases |todo|
      {
        var id :| id in todo;
        SweepingNext(before, Contents(), todo, reaped, id, now, timeout);
        var requeued := ReapTurn(id, now, timeout);
        todo := todo - {id};
        if requeued { reaped := reaped + {id}; }
      }
      SweepingDone(before, Contents(), reaped, now, timeout);
    }

    /** One turn of the scan: HGETALL, the staleness test, HSET and ZADD. */
    method ReapTurn(id: string, now: nat, timeout: nat) returns (requeued: bool)
      requires id in hashes
      modifies this
      ensures Contents() == ReapOne(old(Contents()), id, now, timeout)
      ensures requeued == StaleHash(old(hashes)[id], now, timeout)
    {
      var h := hashes[id];
      if h.status != Claimed { return false; }
      var contact := LastContact(h.heartbeatAt, h.claimedAt);
      if contact.None? { return false; }
      if now - contact.value <= timeout { return false; }
      hashes := hashes[id := h.(status := Pending, claimedBy := "", claimedAt := None, heartbeatAt := None)];
      pending := pending[Stamp(h.createdAt) + ":" + id := -h.priority];
      return true;
    }
  }
}
