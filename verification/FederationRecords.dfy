/** The coordinator job by job: what each request does to one record, field by field, and what a
    client's orders come to. */
module FederationRecords {
  import opened Sequences
  import opened FederationJobs

  /** More than timeout since the last heartbeat, or since the claim when there was none. */
  predicate Silent(j: Job, now: nat, timeout: nat) {
    if j.heartbeatAt.Some? && j.heartbeatAt.value > 0 then now > j.heartbeatAt.value + timeout
    else j.claimedAt.Some? && now > j.claimedAt.value + timeout
  }

  /** What one request makes of the record j, which it may not concern at all. */
  function Moved(j: Job, op: Op, reply: Reply): Job {
    match op
    case SubmitOp(job) => if job.id == j.id then job else j
    case ClaimOp(worker, now) =>
      if reply.ClaimReply? && reply.job.Some? && reply.job.value.id == j.id then
        j.(status := Claimed, claimedBy := Some(worker), claimedAt := Some(now), heartbeatAt := Some(now))
      else j
    case CompleteOp(id, result, error, now) =>
      if id == j.id && (j.status == Pending || j.status == Claimed) then
        j.(status := if error == None || error == Some("") then Done else Error,
           result := result, error := error, completedAt := Some(now))
      else j
    case HeartbeatOp(id, worker, now) =>
      if id == j.id && j.status == Claimed && j.claimedBy == Some(worker) then j.(heartbeatAt := Some(now)) else j
    case ReapOp(now, timeout) =>
      if j.status == Claimed && Silent(j, now, timeout) then
        j.(status := Pending, claimedBy := None, claimedAt := None, heartbeatAt := None)
      else j
  }

  /** The answer is right for the state it was given in. */
  ghost predicate Answers(s: State, op: Op, reply: Reply) {
    match op
    case SubmitOp(_) => reply == Accepted
    case ClaimOp(worker, now) =>
      && reply.ClaimReply?
      && (reply.job.None? <==> forall id :: id in s.jobs ==> s.jobs[id].status != Pending)
      && (reply.job.Some? ==>
            var taken := reply.job.value;
            && taken.id in s.jobs && s.jobs[taken.id].status == Pending && taken == Moved(s.jobs[taken.id], op, reply))
    case CompleteOp(id, _, _, _) =>
      reply == Flag(id in s.jobs && (s.jobs[id].status == Pending || s.jobs[id].status == Claimed))
    case HeartbeatOp(id, worker, _) =>
      reply == Flag(id in s.jobs && s.jobs[id].status == Claimed && s.jobs[id].claimedBy == Some(worker))
    case ReapOp(now, timeout) =>
      && reply.Reaped?
      && forall id :: id in reply.ids <==> id in s.jobs && s.jobs[id].status == Claimed && Silent(s.jobs[id], now, timeout)
  }

  /** Every request moves every record by that table, adds none but the one it submits, and is answered right. */
  lemma RecordsMove(s: State, op: Op)
    requires Valid(s)
    ensures Follows(s, op)
  {
    hide Follows, Valid;
    match op
    case SubmitOp(_) => SubmitFollows(s, op);
    case ClaimOp(_, _) => ClaimFollows(s, op);
    case CompleteOp(_, _, _, _) => CompleteFollows(s, op);
    case HeartbeatOp(_, _, _) => HeartbeatFollows(s, op);
    case ReapOp(_, _) => ReapFollows(s, op);
  }

  ghost predicate Follows(s: State, op: Op)
    requires Valid(s)
  {
    var (s', reply) := Step(s, op);
    && Answers(s, op, reply)
    && s'.jobs.Keys == s.jobs.Keys + (if op.SubmitOp? then {op.job.id} else {})
    && (op.SubmitOp? ==> s'.jobs[op.job.id] == op.job)
    && forall id :: id in s.jobs ==> s'.jobs[id] == Moved(s.jobs[id], op, reply)
  }

  lemma SubmitFollows(s: State, op: Op)
    requires Valid(s) && op.SubmitOp?
    ensures Follows(s, op)
  {
  }

  lemma ClaimFollows(s: State, op: Op)
    requires Valid(s) && op.ClaimOp?
    ensures Follows(s, op)
  {
    ClaimIsBest(s, op.worker, op.now);
    hide Claim;
  }

  lemma CompleteFollows(s: State, op: Op)
    requires Valid(s) && op.CompleteOp?
    ensures Follows(s, op)
  {
  }

  lemma HeartbeatFollows(s: State, op: Op)
    requires Valid(s) && op.HeartbeatOp?
    ensures Follows(s, op)
  {
  }

  lemma ReapFollows(s: State, op: Op)
    requires Valid(s) && op.ReapOp?
    ensures Follows(s, op)
  {
    FilterMembers(StaleIn(s, op.now, op.timeout), s.order);
  }

  // ------------------------------------------------- what a client asked for

  /** The arguments of one submission. */
  datatype Order = Order(id: string, query: string, priority: int, forceRoute: Option<string>, submittedBy: string, now: nat)

  function Submission(o: Order): Op { SubmitOp(NewJob(o.id, o.query, o.priority, o.forceRoute, o.submittedBy, o.now)) }

  ghost predicate FreshIds(orders: seq<Order>) {
    forall i, j :: 0 <= i < j < |orders| ==> orders[i].id != orders[j].id
  }

  /** The record is what the order asked for, and nobody has worked on it. */
  predicate Placed(j: Job, o: Order) {
    && j.id == o.id && j.query == o.query && j.priority == o.priority && j.forceRoute == o.forceRoute
    && j.submittedBy == o.submittedBy && j.createdAt == o.now && Unworked(j)
  }

  predicate Ordered(orders: seq<Order>, id: string) { exists i :: 0 <= i < |orders| && orders[i].id == id }

  lemma OrderedNext(orders: seq<Order>, id: string)
    requires orders != []
    ensures Ordered(orders, id) <==> orders[0].id == id || Ordered(orders[1..], id)
  {
    if Ordered(orders[1..], id) {
      var i :| 0 <= i < |orders| - 1 && orders[1..][i].id == id;
      assert orders[i + 1].id == id;
    }
    if i :| 0 < i < |orders| && orders[i].id == id { assert orders[1..][i - 1].id == id; }
  }

  ghost function AfterOrders(s: State, orders: seq<Order>): (n: State)
    requires Valid(s)
    ensures Valid(n)
  {
    Run(s, Map(Submission, orders)).0
  }

  lemma AfterOrdersNext(s: State, orders: seq<Order>)
    requires Valid(s) && orders != []
    ensures Valid(Step(s, Submission(orders[0])).0)
    ensures AfterOrders(s, orders) == AfterOrders(Step(s, Submission(orders[0])).0, orders[1..])
  {
    var ops := Map(Submission, orders);
    assert ops[1..] == Map(Submission, orders[1..]);
    StepKeepsValid(s, ops[0]);
  }

  /** Submissions leave the jobs that they do not name. */
  lemma {:induction false} OthersStay(s: State, orders: seq<Order>, id: string)
    requires Valid(s)
    ensures id in AfterOrders(s, orders).jobs <==> id in s.jobs || Ordered(orders, id)
    ensures id in s.jobs && !Ordered(orders, id) ==> AfterOrders(s, orders).jobs[id] == s.jobs[id]
    decreases |orders|
  {
    hide Ordered;
    if orders == [] {
      assert !Ordered(orders, id) by { NothingOrdered(id); }
      assert Map(Submission, orders) == [];
    } else {
      AfterOrdersNext(s, orders);
      OrderedNext(orders, id);
      OthersStay(Step(s, Submission(orders[0])).0, orders[1..], id);
    }
  }

  lemma NothingOrdered(id: string)
    ensures !Ordered([], id)
  {
  }

  /** After nothing but submissions, the coordinator holds every order as it was placed. */
  lemma {:induction false} OrdersArePlaced(s: State, orders: seq<Order>, k: nat)
    requires Valid(s) && FreshIds(orders) && k < |orders|
    ensures orders[k].id in AfterOrders(s, orders).jobs && Placed(AfterOrders(s, orders).jobs[orders[k].id], orders[k])
    decreases |orders|
  {
    hide AfterOrders;
    AfterOrdersNext(s, orders);
    var next := Step(s, Submission(orders[0])).0;
    if k == 0 {
      OthersStay(next, orders[1..], orders[0].id);
    } else {
      OrdersArePlaced(next, orders[1..], k - 1);
    }
  }

  function IdsOf(orders: seq<Order>): seq<string> {
    if orders == [] then [] else [orders[0].id] + IdsOf(orders[1..])
  }

  lemma OneOrder(s: State, o: Order)
    requires Valid(s) && o.id !in s.jobs
    ensures Step(s, Submission(o)).0.order == s.order + [o.id]
    ensures Step(s, Submission(o)).0.jobs.Keys == s.jobs.Keys + {o.id}
  {
  }

  /** New ids go behind the known ones, in the order in which they were placed. */
  lemma {:induction false} OrdersKeepTheirPlace(s: State, orders: seq<Order>)
    requires Valid(s) && FreshIds(orders) && forall i :: 0 <= i < |orders| ==> orders[i].id !in s.jobs
    ensures AfterOrders(s, orders).order == s.order + IdsOf(orders)
    decreases |orders|
  {
    if orders == [] {
      assert Map(Submission, orders) == [] && s.order + [] == s.order;
    } else {
      hide AfterOrders, Step, Valid;
      AfterOrdersNext(s, orders);
      OneOrder(s, orders[0]);
      OrdersKeepTheirPlace(Step(s, Submission(orders[0])).0, orders[1..]);
      assert s.order + [orders[0].id] + IdsOf(orders[1..]) == s.order + IdsOf(orders);
    }
  }

  /** Of the orders placed, the first claim hands out the one of the largest priority, and among
      those the one placed first. */
  lemma MostUrgentGoesFirst(orders: seq<Order>, worker: string, now: nat) returns (k: nat)
    requires orders != [] && FreshIds(orders)
    ensures k < |orders|
    ensures
      var claimed := Claim(AfterOrders(EMPTY_STATE, orders), worker, now).1;
      && claimed.Some? && claimed.value.id == orders[k].id && claimed.value.query == orders[k].query
      && claimed.value.priority == orders[k].priority && claimed.value.forceRoute == orders[k].forceRoute
      && claimed.value.submittedBy == orders[k].submittedBy && claimed.value.claimedBy == Some(worker)
    ensures forall i :: 0 <= i < |orders| ==>
      orders[i].priority < orders[k].priority || (orders[i].priority == orders[k].priority && orders[k].now <= orders[i].now)
  {
    hide AfterOrders;
    var s := AfterOrders(EMPTY_STATE, orders);
    OrdersArePlaced(EMPTY_STATE, orders, 0);
    ClaimIsBest(s, worker, now);
    var claimed := Claim(s, worker, now).1.value;
    OthersStay(EMPTY_STATE, orders, claimed.id);
    k :| 0 <= k < |orders| && orders[k].id == claimed.id;
    OrdersArePlaced(EMPTY_STATE, orders, k);
    forall i | 0 <= i < |orders|
      ensures orders[i].priority < orders[k].priority
        || (orders[i].priority == orders[k].priority && orders[k].now <= orders[i].now)
    {
      OrdersArePlaced(EMPTY_STATE, orders, i);
    }
  }
}
