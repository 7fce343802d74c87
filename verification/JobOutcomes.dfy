/** What becomes of each job: which event gives it its final status, what a cancel answers, and which
    lines of the file recovery goes by. */
module JobOutcomes {
  import opened Sequences
  import opened StableSort
  import opened JobSteps
  import opened JobInvariants
  import opened JobTheorems

  /** What the end of the orchestrator call leaves of its job: the status it ended with, no line in a
      legible file, and an event unless a callback is still to be awaited. */
  lemma CallEndsJob(q: Queue, id: JobId, outcome: Status, awaits: bool, max: nat)
    requires Inv(q, max) && id in q.tasks && q.tasks[id] == Executing
    requires outcome == Completed || outcome == Failed || outcome == Cancelled
    ensures Enabled(q, DoFinish(id, outcome, awaits))
    ensures
      var n := Next(q, DoFinish(id, outcome, awaits), max);
      && id in n.status && n.status[id] == outcome
      && (forall x :: x in q.status && x != id ==> x in n.status && n.status[x] == q.status[x])
      && (id in n.events <==> !(outcome == Completed && awaits))
      && (Legible(q.file) ==> id !in Ids(Listed(n.file)))
  {
    hide Shape, Lists, Control, Unpersist, Listed, Legible;
    ExecutingIsRunning(q, id, max);
    if Legible(q.file) { EndedIsNotListed(q, id, outcome, awaits, max); }
  }

  /** Nothing is ruled out that the queue's users may do: submit under a fresh id, cancel and stop at any time. */
  lemma UsersAreFree(q: Queue, r: Rec, id: JobId)
    ensures Enabled(q, DoCancel(id)) && Enabled(q, DoStop)
    ensures Enabled(q, DoSubmit(r)) <==> r.id != "" && r.id !in q.status
  {
  }

  lemma ExecutingIsRunning(q: Queue, id: JobId, max: nat)
    requires Inv(q, max) && id in q.tasks && q.tasks[id] == Executing
    ensures id in q.status && q.status[id] == Running && id !in q.events
  {
    hide DistinctIds, Lists, Control;
    CoherentAt(q, id);
  }

  lemma EndedIsNotListed(q: Queue, id: JobId, outcome: Status, awaits: bool, max: nat)
    requires Inv(q, max) && Enabled(q, DoFinish(id, outcome, awaits)) && Legible(q.file)
    ensures id !in Ids(Listed(Finish(q, id, outcome, awaits).file))
  {
    hide Inv, Listed, Legible, Unpersist;
    var n := Finish(q, id, outcome, awaits);
    FinishKeeps(q, id, outcome, awaits, max);
    StepKeepsLegibility(q, DoFinish(id, outcome, awaits), max);
    ListedIds(n, max, id);
  }

  /** What one step says about how job id ended, if anything. */
  function Word(q: Queue, op: Op, id: JobId): Option<Status> {
    if op == DoCancel(id) then (if id in q.status && q.status[id] == Pending then Some(Cancelled) else None)
    else if op.DoFinish? && op.id == id then Some(op.outcome)
    else if op == DoCallbackEnds(id, true) then Some(Cancelled)
    else None
  }

  /** The last word of a run. */
  function LastWord(q: Queue, ops: seq<Op>, max: nat, id: JobId): Option<Status>
    requires Legal(q, ops, max)
    decreases |ops|
  {
    if ops == [] then None
    else
      var later := LastWord(Next(q, ops[0], max), ops[1..], max, id);
      if later.Some? then later else Word(q, ops[0], id)
  }

  /** How job id has ended; None while it has not, or is not known. */
  function Ended(q: Queue, id: JobId): Option<Status> {
    if id in q.status && (q.status[id] == Completed || q.status[id] == Failed || q.status[id] == Cancelled)
    then Some(q.status[id]) else None
  }

  lemma EndedByWord(q: Queue, op: Op, max: nat, id: JobId)
    requires Inv(q, max) && Enabled(q, op)
    ensures Ended(Next(q, op, max), id) == if Word(q, op, id).Some? then Word(q, op, id) else Ended(q, id)
  {
    if op.DoBegin? { CoherentAt(q, op.id); }
    hide Inv, Ended, Word, Submit, Cancel, Stop, Dispatch, Begin, Finish, CallbackEnds, Cleanup;
    match op
    case DoSubmit(r) => EndedElsewhere(q, Next(q, op, max), op, id);
    case DoCancel(other) => EndedByCancel(q, other, id);
    case DoStop => EndedElsewhere(q, Stop(q), op, id);
    case DoDispatch => DispatchFrame(q, max); EndedElsewhere(q, Dispatch(q, max), op, id);
    case DoBegin(other) => EndedByBegin(q, other, id);
    case DoFinish(other, outcome, awaits) => EndedByFinish(q, other, outcome, awaits, id);
    case DoCallbackEnds(other, cancelled) => EndedByCallback(q, other, cancelled, id);
    case DoCleanup(other) => EndedElsewhere(q, Cleanup(q, other), op, id);
  }

  lemma EndedElsewhere(q: Queue, n: Queue, op: Op, id: JobId)
    requires op.DoSubmit? || op.DoStop? || op.DoDispatch? || op.DoCleanup?
    requires n.status == q.status || (op.DoSubmit? && op.rec.id !in q.status && n.status == q.status[op.rec.id := Pending])
    ensures Word(q, op, id).None? && Ended(n, id) == Ended(q, id)
  {
  }

  lemma EndedByCancel(q: Queue, other: JobId, id: JobId)
    ensures Ended(Cancel(q, other).0, id) == if Word(q, DoCancel(other), id).Some? then Word(q, DoCancel(other), id) else Ended(q, id)
  {
    hide Unpersist, RemoveFirst;
  }

  lemma EndedByBegin(q: Queue, other: JobId, id: JobId)
    requires other in q.status && (q.status[other] == Pending || q.status[other] == Cancelled)
    ensures Word(q, DoBegin(other), id).None? && Ended(Begin(q, other), id) == Ended(q, id)
  {
  }

  lemma EndedByFinish(q: Queue, other: JobId, outcome: Status, awaits: bool, id: JobId)
    requires Terminal(outcome)
    ensures
      var word := Word(q, DoFinish(other, outcome, awaits), id);
      Ended(Finish(q, other, outcome, awaits), id) == if word.Some? then word else Ended(q, id)
  {
    hide Unpersist;
  }

  lemma EndedByCallback(q: Queue, other: JobId, cancelled: bool, id: JobId)
    ensures
      var word := Word(q, DoCallbackEnds(other, cancelled), id);
      Ended(CallbackEnds(q, other, cancelled), id) == if word.Some? then word else Ended(q, id)
  {
    hide Unpersist;
  }

  /** Over any run, a job has ended with just the status that the run gave it last: the outcome of its
      orchestrator call, or Cancelled by a cancel while it was pending or by its callback; and it has not
      ended if there was no such event. */
  lemma {:induction false} EndsAsItWasTold(q: Queue, ops: seq<Op>, max: nat, id: JobId)
    requires Inv(q, max) && Legal(q, ops, max) && max >= 1
    ensures Ended(Run(q, ops, max), id) ==
      if LastWord(q, ops, max, id).Some? then LastWord(q, ops, max, id) else Ended(q, id)
    decreases |ops|
  {
    hide Inv, Next, Enabled, Word, Ended;
    if ops != [] {
      EndedByWord(q, ops[0], max, id);
      NextKeeps(q, ops[0], max);
      EndsAsItWasTold(Next(q, ops[0], max), ops[1..], max, id);
    }
  }

  /** `cancel` answers True exactly for the jobs that have neither completed nor failed. A pending job is then
      cancelled at once, a running one is asked to stop and nothing else changes; otherwise nothing does. */
  lemma CancelAnswers(q: Queue, id: JobId, max: nat)
    requires Inv(q, max)
    ensures
      var (n, ok) := Cancel(q, id);
      && (ok <==> id in q.status && q.status[id] != Completed && q.status[id] != Failed)
      && (ok && q.status[id] == Pending ==>
            && n.status == q.status[id := Cancelled] && n.events == q.events + {id} && n.asked == q.asked
            && n.tasks == q.tasks && (forall r :: r in n.pending <==> r in q.pending && r.id != id))
      && (ok && q.status[id] == Running ==> n == q.(asked := q.asked + {id}))
      && (!ok || q.status[id] == Cancelled ==> n == q)
  {
    hide Lists, Control, DistinctIds, Unpersist, RemoveFirst;
    if id in q.status {
      CoherentAt(q, id);
      CancelledPending(q, id);
      FilterMembers(Other(id), q.pending);
    }
  }

  /** A job has been asked to stop exactly if some cancel found it running. */
  lemma {:induction false} AskedByCancel(q: Queue, ops: seq<Op>, max: nat, id: JobId)
    requires Inv(q, max) && Legal(q, ops, max) && max >= 1
    ensures id in Run(q, ops, max).asked <==> id in q.asked || CancelledRunning(q, ops, max, id)
    decreases |ops|
  {
    hide Inv, Next, Enabled;
    if ops != [] {
      StepAsks(q, ops[0], max, id);
      NextKeeps(q, ops[0], max);
      AskedByCancel(Next(q, ops[0], max), ops[1..], max, id);
    }
  }

  predicate CancelledRunning(q: Queue, ops: seq<Op>, max: nat, id: JobId)
    requires Legal(q, ops, max)
    decreases |ops|
  {
    ops != [] &&
    ((ops[0] == DoCancel(id) && InRunning(q, id)) || CancelledRunning(Next(q, ops[0], max), ops[1..], max, id))
  }

  lemma StepAsks(q: Queue, op: Op, max: nat, id: JobId)
    requires Inv(q, max) && Enabled(q, op)
    ensures id in Next(q, op, max).asked <==> id in q.asked || (op == DoCancel(id) && InRunning(q, id))
  {
    hide Lists, Control, DistinctIds, Unpersist, CanDispatch, Dispatch;
    DispatchAsksNobody(q, max);
    if op.DoCancel? && op.id in q.status { CoherentAt(q, op.id); }
  }

  lemma {:induction false} DispatchAsksNobody(q: Queue, max: nat)
    ensures Dispatch(q, max).asked == q.asked
    decreases |q.pending|
  {
    if q.pending != [] && !(q.tasks != map[] && |q.tasks| >= max) { DispatchAsksNobody(Launch(q), max); }
  }

  // ------------------------------------------------- recovery from a file with repeated ids

  /** Record i is the first of its id, and the id is not empty. */
  predicate FirstOfId(recs: seq<Rec>, i: nat)
    requires i < |recs|
  {
    recs[i].id != "" && forall j :: 0 <= j < i ==> recs[j].id != recs[i].id
  }

  /** Recovery takes the first legible line of each id, and drops the later ones. */
  lemma {:induction false} FirstLineCounts(recs: seq<Rec>, r: Rec)
    ensures r in Dedupe(recs) <==> exists i :: 0 <= i < |recs| && recs[i] == r && FirstOfId(recs, i)
  {
    if recs != [] {
      var init, last := recs[..|recs| - 1], recs[|recs| - 1];
      FirstLineCounts(init, r);
      KnownIds(init, last.id);
      forall i | 0 <= i < |init|
        ensures FirstOfId(init, i) <==> FirstOfId(recs, i)
      {
        assert forall j :: 0 <= j < i ==> init[j] == recs[j];
      }
      if i :| 0 <= i < |init| && init[i] == r && FirstOfId(init, i) { assert recs[i] == r && FirstOfId(recs, i); }
      if i :| 0 <= i < |recs| && recs[i] == r && FirstOfId(recs, i) && i < |init| { assert init[i] == r && FirstOfId(init, i); }
      assert FirstOfId(recs, |init|) <==> last.id != "" && last.id !in Ids(Dedupe(init));
    }
  }

  lemma {:induction false} KnownIds(recs: seq<Rec>, id: JobId)
    ensures id in Ids(Dedupe(recs)) <==> id != "" && exists j :: 0 <= j < |recs| && recs[j].id == id
  {
    if recs != [] {
      var init, last := recs[..|recs| - 1], recs[|recs| - 1];
      KnownIds(init, id);
      KnownIds(init, last.id);
      IdsSnoc(Dedupe(init), last);
      if j :| 0 <= j < |init| && init[j].id == id { assert recs[j].id == id; }
      if j :| 0 <= j < |recs| && recs[j].id == id && j < |init| { assert init[j].id == id; }
      if last.id == id { assert recs[|init|].id == id; }
    } else {
      assert Ids(Dedupe(recs)) == {};
    }
  }
}
