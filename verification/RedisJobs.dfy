/** The Redis backend: one hash per job, a sorted set of pending members, a set of ids.
    Every operation is modelled as one atomic step. */
module RedisJobs {
  import opened Sequences
  import opened FederationJobs
  import opened RedisStamps

  /** A job hash. Redis has no null: an absent string field is the empty string. */
  datatype Hash = Hash(
    query: string, priority: int, forceRoute: string, submittedBy: string, status: Status,
    claimedBy: string, result: Option<string>, error: string, createdAt: nat,
    claimedAt: Option<nat>, completedAt: Option<nat>, heartbeatAt: Option<nat>)

  datatype Store = Store(hashes: map<string, Hash>, pending: map<string, int>, ids: set<string>)

  const EMPTY_STORE := Store(map[], map[], {})

  function OrNone(s: string): Option<string> { if s == "" then None else Some(s) }

  function OrEmpty(s: Option<string>): string { if s.Some? then s.value else "" }

  function JobFromHash(id: string, h: Hash): Job {
    Job(id, h.query, h.priority, OrNone(h.forceRoute), h.submittedBy, h.status, OrNone(h.claimedBy),
        h.result, OrNone(h.error), h.createdAt, h.claimedAt, h.completedAt, h.heartbeatAt)
  }

  function MemberOf(id: string, h: Hash): string { Member(h.createdAt, id) }

  /** Every member of the sorted set has a hash behind it. */
  ghost predicate Backed(r: Store) {
    r.ids == r.hashes.Keys && forall m :: m in r.pending ==> AfterColon(m) in r.hashes
  }

  function Submit(r: Store, job: Job): Store {
    var h := Hash(job.query, job.priority, OrEmpty(job.forceRoute), job.submittedBy, Pending, "", None, "",
                  job.createdAt, None, None,
                  // HSET leaves a field it does not name as it was.
                  if job.id in r.hashes then r.hashes[job.id].heartbeatAt else None);
    Store(r.hashes[job.id := h], r.pending[MemberOf(job.id, h) := -job.priority], r.ids + {job.id})
  }

  /** Ascending score, then ascending bytes. */
  predicate RanksBefore(scoreA: int, a: string, scoreB: int, b: string) {
    scoreA < scoreB || (scoreA == scoreB && LexLess(a, b))
  }

  /** m is what ZRANGE 0 0 answers. */
  predicate IsFirst(pending: map<string, int>, m: string) {
    m in pending && forall x :: x in pending && x != m ==> RanksBefore(pending[m], m, pending[x], x)
  }

  lemma FirstIsUnique(pending: map<string, int>, m: string, n: string)
    requires IsFirst(pending, m) && IsFirst(pending, n)
    ensures m == n
  {
    LexTotal(m, n);
  }

  lemma FirstExists(pending: map<string, int>) returns (m: string)
    requires pending != map[]
    ensures IsFirst(pending, m)
    decreases |pending|
  {
    var x :| x in pending;
    var rest := pending - {x};
    if rest == map[] {
      m := x;
      assert forall y :: y in pending && y != x ==> y in rest;
    } else {
      assert pending.Keys == rest.Keys + {x};
      m := FirstExists(rest);
      LexTotal(m, x);
      if !RanksBefore(pending[m], m, pending[x], x) {
        forall y | y in pending && y != x
          ensures RanksBefore(pending[x], x, pending[y], y)
        {
          assert y in rest;
          if y != m && LexLess(x, m) && LexLess(m, y) { LexTransitive(x, m, y); }
        }
        m := x;
      }
    }
  }

  ghost function First(pending: map<string, int>): (m: string)
    requires pending != map[]
    ensures IsFirst(pending, m)
  {
    assert exists m :: IsFirst(pending, m) by { var x := FirstExists(pending); }
    var m :| IsFirst(pending, m);
    m
  }

  function TakeHash(h: Hash, worker: string, now: nat): Hash {
    h.(status := Claimed, claimedBy := worker, claimedAt := Some(now), heartbeatAt := Some(now))
  }

  /** The claim script: pop the first member and mark the hash it names. */
  ghost function Claim(r: Store, worker: string, now: nat): (Store, Option<Job>)
    requires Backed(r)
  {
    if r.pending == map[] then (r, None)
    else
      var m := First(r.pending);
      var id := AfterColon(m);
      var h := TakeHash(r.hashes[id], worker, now);
      (Store(r.hashes[id := h], r.pending - {m}, r.ids), Some(JobFromHash(id, h)))
  }

  function FinishHash(h: Hash, result: Option<string>, error: Option<string>, now: nat): Hash {
    h.(status := if Truthy(error) then Error else Done, completedAt := Some(now),
       result := if result.Some? then result else h.result,
       error := if Truthy(error) then error.value else h.error)
  }

  function Complete(r: Store, id: string, result: Option<string>, error: Option<string>, now: nat): (Store, bool) {
    if id !in r.hashes || r.hashes[id].status == Done || r.hashes[id].status == Error then (r, false)
    else (r.(hashes := r.hashes[id := FinishHash(r.hashes[id], result, error, now)]), true)
  }

  function Heartbeat(r: Store, id: string, worker: string, now: nat): (Store, bool) {
    if id !in r.hashes then (r, false)
    else
      var job := JobFromHash(id, r.hashes[id]);
      if job.status != Claimed || job.claimedBy != Some(worker) then (r, false)
      else (r.(hashes := r.hashes[id := r.hashes[id].(heartbeatAt := Some(now))]), true)
  }

  predicate StaleHash(h: Hash, now: nat, timeout: nat) {
    var contact := LastContact(h.heartbeatAt, h.claimedAt);
    h.status == Claimed && contact.Some? && now - contact.value > timeout
  }

  function RequeueHash(h: Hash): Hash {
    h.(status := Pending, claimedBy := "", claimedAt := None, heartbeatAt := None)
  }

  /** One turn of the reaper's loop over the ids. */
  function ReapOne(r: Store, id: string, now: nat, timeout: nat): Store {
    if id in r.hashes && StaleHash(r.hashes[id], now, timeout) then
      var h := RequeueHash(r.hashes[id]);
      Store(r.hashes[id := h], r.pending[MemberOf(id, h) := -h.priority], r.ids)
    else r
  }

  function ReapHash(h: Hash, visited: bool, now: nat, timeout: nat): Hash {
    if visited && StaleHash(h, now, timeout) then RequeueHash(h) else h
  }

  function StaleAmong(r: Store, todo: set<string>, now: nat, timeout: nat): set<string> {
    set id | id in todo && id in r.hashes && StaleHash(r.hashes[id], now, timeout)
  }

  function StaleIds(r: Store, now: nat, timeout: nat): set<string> { StaleAmong(r, r.ids, now, timeout) }

  /** The loop as a whole: every stale hash is requeued and its member is back in the sorted set. */
  ghost predicate IsReaped(r: Store, r': Store, todo: set<string>, now: nat, timeout: nat) {
    && r'.ids == r.ids && r'.hashes.Keys == r.hashes.Keys
    && (forall id :: id in r.hashes ==>
         r'.hashes[id] == ReapHash(r.hashes[id], id in todo, now, timeout))
    && (forall m :: m in r'.pending <==> m in r.pending || Returned(r, todo, now, timeout, m))
    && (forall m :: m in r'.pending ==>
         r'.pending[m] == if Returned(r, todo, now, timeout, m) then -r.hashes[AfterColon(m)].priority else r.pending[m])
  }

  /** m is the member of a hash that the reaper puts back. */
  predicate Returned(r: Store, todo: set<string>, now: nat, timeout: nat, m: string) {
    var id := AfterColon(m);
    id in r.hashes && id in todo && StaleHash(r.hashes[id], now, timeout) && m == MemberOf(id, r.hashes[id])
  }

  lemma RequeueAnother(r: Store, r': Store, todo: set<string>, id: string, now: nat, timeout: nat)
    requires IsReaped(r, r', todo, now, timeout) && id in r.hashes && id !in todo
    ensures IsReaped(r, ReapOne(r', id, now, timeout), todo + {id}, now, timeout)
    ensures StaleHash(r'.hashes[id], now, timeout) == StaleHash(r.hashes[id], now, timeout)
  {
    hide Member, AfterColon;
    IdRoundTrip(r.hashes[id].createdAt, id);
    forall m
      ensures Returned(r, todo + {id}, now, timeout, m) <==>
        Returned(r, todo, now, timeout, m) || (StaleHash(r.hashes[id], now, timeout) && m == MemberOf(id, r.hashes[id]))
    {
    }
  }

  lemma StaleAmongOneMore(r: Store, todo: set<string>, id: string, now: nat, timeout: nat)
    requires id in r.hashes
    ensures StaleAmong(r, todo + {id}, now, timeout)
         == StaleAmong(r, todo, now, timeout) + if StaleHash(r.hashes[id], now, timeout) then {id} else {}
  {
  }

  /** The reaper with todo still to visit, having reported `reaped`. */
  ghost predicate Sweeping(r: Store, r': Store, todo: set<string>, reaped: set<string>, now: nat, timeout: nat) {
    && todo <= r.ids
    && IsReaped(r, r', r.ids - todo, now, timeout)
    && reaped == StaleAmong(r, r.ids - todo, now, timeout)
  }

  lemma SweepingStart(r: Store, now: nat, timeout: nat)
    ensures Sweeping(r, r, r.ids, {}, now, timeout)
  {
    assert r.ids - r.ids == {};
  }

  lemma SweepingNext(r: Store, r': Store, todo: set<string>, reaped: set<string>, id: string, now: nat, timeout: nat)
    requires Backed(r) && Sweeping(r, r', todo, reaped, now, timeout) && id in todo
    ensures id in r'.hashes
    ensures Sweeping(r, ReapOne(r', id, now, timeout), todo - {id},
                    reaped + (if StaleHash(r'.hashes[id], now, timeout) then {id} else {}), now, timeout)
  {
    ShrinkTodo(r.ids, todo, id);
    RequeueAnother(r, r', r.ids - todo, id, now, timeout);
    StaleAmongOneMore(r, r.ids - todo, id, now, timeout);
  }

  lemma SweepingDone(r: Store, r': Store, reaped: set<string>, now: nat, timeout: nat)
    requires Backed(r) && Sweeping(r, r', {}, reaped, now, timeout)
    ensures r' == Reap(r, now, timeout) && reaped == StaleIds(r, now, timeout) && Backed(r')
  {
    assert r.ids - {} == r.ids;
    ReapIsUnique(r, r', Reap(r, now, timeout), r.ids, now, timeout);
  }

  ghost function ReapAmong(r: Store, todo: set<string>, now: nat, timeout: nat): (r': Store)
    requires todo <= r.hashes.Keys
    ensures IsReaped(r, r', todo, now, timeout)
    decreases todo
  {
    if todo == {} then r
    else
      var id :| id in todo;
      var rest := ReapAmong(r, todo - {id}, now, timeout);
      RequeueAnother(r, rest, todo - {id}, id, now, timeout);
      assert todo - {id} + {id} == todo;
      ReapOne(rest, id, now, timeout)
  }

  /** The order in which SMEMBERS lists the ids does not matter. */
  lemma ReapIsUnique(r: Store, a: Store, b: Store, todo: set<string>, now: nat, timeout: nat)
    requires IsReaped(r, a, todo, now, timeout) && IsReaped(r, b, todo, now, timeout)
    ensures a == b
  {
    assert forall m :: m in a.pending <==> m in b.pending;
    assert a.hashes == b.hashes && a.pending == b.pending;
  }

  ghost function Reap(r: Store, now: nat, timeout: nat): Store
    requires Backed(r)
  {
    ReapAmong(r, r.ids, now, timeout)
  }

  /** A requeued job keeps its order and stamp, and nothing of the claim. */
  lemma RequeuedHash(r: Store, id: string, now: nat, timeout: nat)
    requires Backed(r) && id in r.hashes && StaleHash(r.hashes[id], now, timeout)
    ensures
      var n, h := Reap(r, now, timeout), r.hashes[id];
      && id in n.hashes && n.hashes[id] == h.(status := Pending, claimedBy := "", claimedAt := None, heartbeatAt := None)
      && Member(h.createdAt, id) in n.pending && n.pending[Member(h.createdAt, id)] == -h.priority
  {
    hide Member, AfterColon;
    IdRoundTrip(r.hashes[id].createdAt, id);
    assert Returned(r, r.ids, now, timeout, MemberOf(id, r.hashes[id]));
  }

  ghost function Step(r: Store, op: Op): (Store, Reply)
    requires Backed(r)
  {
    match op
    case SubmitOp(job) => (Submit(r, job), Accepted)
    case ClaimOp(worker, now) => var a := Claim(r, worker, now); (a.0, ClaimReply(a.1))
    case CompleteOp(id, result, error, now) => var a := Complete(r, id, result, error, now); (a.0, Flag(a.1))
    case HeartbeatOp(id, worker, now) => var a := Heartbeat(r, id, worker, now); (a.0, Flag(a.1))
    case ReapOp(now, timeout) => (Reap(r, now, timeout), Reaped(StaleIds(r, now, timeout)))
  }

  lemma StepKeepsBacked(r: Store, op: Op)
    requires Backed(r)
    ensures Backed(Step(r, op).0)
  {
    if op.SubmitOp? { IdRoundTrip(op.job.createdAt, op.job.id); }
  }

  ghost function Run(r: Store, ops: seq<Op>): (a: (Store, seq<Reply>))
    requires Backed(r)
    ensures Backed(a.0) && |a.1| == |ops|
    decreases |ops|
  {
    if ops == [] then (r, [])
    else
      StepKeepsBacked(r, ops[0]);
      var first := Step(r, ops[0]);
      var rest := Run(first.0, ops[1..]);
      (rest.0, [first.1] + rest.1)
  }
}
