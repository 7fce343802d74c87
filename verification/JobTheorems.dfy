/** What the invariant means for the queue's users. */
module JobTheorems {
  import opened Sequences
  import opened StableSort
  import opened JobSteps
  import opened JobInvariants

  /** Any run from any persistence file keeps the invariant. */
  lemma QueueIsSafe(file: seq<Line>, ops: seq<Op>, max: nat)
    requires max >= 1 && Legal(Start(file), ops, max)
    ensures Inv(Run(Start(file), ops, max), max)
  {
    hide Inv, Start, Legal;
    StartKeeps(file, max);
    RunKeeps(Start(file), ops, max);
  }

  // ------------------------------------------------- places

  predicate InPending(q: Queue, id: JobId) { id in Ids(q.pending) }

  predicate InLaunched(q: Queue, id: JobId) {
    id in q.status && q.status[id] == Pending && id in q.tasks && q.tasks[id] == Launched
  }

  predicate InRunning(q: Queue, id: JobId) { id in q.status && q.status[id] == Running }

  predicate IsTerminal(q: Queue, id: JobId) { id in q.status && Terminal(q.status[id]) }

  function One(b: bool): nat { if b then 1 else 0 }

  /** Every known job is in exactly one place. */
  lemma ExactlyOnePlace(q: Queue, max: nat, id: JobId)
    requires Inv(q, max) && id in q.status
    ensures One(InPending(q, id)) + One(InLaunched(q, id)) + One(InRunning(q, id)) + One(IsTerminal(q, id)) == 1
    ensures InPending(q, id) <==> q.status[id] == Pending && id !in q.tasks
  {
    hide Lists, Control, DistinctIds;
    PendingIsDistinct(q);
    CoherentAt(q, id);
    assert id in Ids(q.all);
    var r :| r in q.all && r.id == id;
    if InPending(q, id) {
      var p :| p in q.pending && p.id == id;
    }
    assert InPending(q, id) <==> r in q.pending;
  }

  /** An event is set only for a finished job, and finished jobs without one are inside their callback. */
  lemma EventsAreForFinishedJobs(q: Queue, max: nat, id: JobId)
    requires Inv(q, max) && id in q.status
    ensures id in q.events ==> Terminal(q.status[id])
    ensures Terminal(q.status[id]) && id !in q.events <==> id in q.tasks && q.tasks[id] == InCallback
  {
    hide Lists, Control, DistinctIds;
    CoherentAt(q, id);
  }

  /** At most max jobs run at once. */
  lemma AtMostMaxRunning(q: Queue, max: nat)
    requires Inv(q, max)
    ensures |set id | id in q.status && q.status[id] == Running| <= max
  {
    hide Lists, DistinctIds;
    var running := set id | id in q.status && q.status[id] == Running;
    forall id | id in running
      ensures id in q.tasks.Keys
    {
      CoherentAt(q, id);
    }
    assert q.tasks.Keys == running + (q.tasks.Keys - running);
    assert |q.tasks| == |q.tasks.Keys|;
  }

  // ------------------------------------------------- finality

  /** Dispatching changes no status and sets no event. */
  lemma {:induction false} DispatchFrame(q: Queue, max: nat)
    ensures
      var n := Dispatch(q, max);
      n.status == q.status && n.events == q.events && n.all == q.all && n.running == q.running && n.early == q.early && n.file == q.file
    decreases |q.pending|
  {
    if q.pending != [] && !(q.tasks != map[] && |q.tasks| >= max) { DispatchFrame(Launch(q), max); }
  }

  /** A finished job's status changes in one case only: its awaited callback ends in a
      CancelledError, which turns Completed into Cancelled. */
  lemma FinalStatusChangesIff(q: Queue, op: Op, max: nat, id: JobId)
    requires Inv(q, max) && Enabled(q, op) && id in q.status && Terminal(q.status[id])
    ensures id in Next(q, op, max).status
    ensures Next(q, op, max).status[id] != q.status[id] <==> op == DoCallbackEnds(id, true)
  {
    hide Lists, Control, DistinctIds, Dispatch, Ids;
    CoherentAt(q, id);
    DispatchFrame(q, max);
  }

  /** Once a job's event is set, its status is settled for the rest of any run. */
  lemma {:induction false} SettledForEver(q: Queue, ops: seq<Op>, max: nat, id: JobId)
    requires Inv(q, max) && Legal(q, ops, max) && max >= 1 && id in q.status && id in q.events
    ensures
      var n := Run(q, ops, max);
      id in n.status && n.status[id] == q.status[id] && id in n.events
    decreases |ops|
  {
    hide Inv, Next, Enabled;
    if ops != [] {
      SettledStep(q, ops[0], max, id);
      NextKeeps(q, ops[0], max);
      SettledForEver(Next(q, ops[0], max), ops[1..], max, id);
    }
  }

  lemma SettledStep(q: Queue, op: Op, max: nat, id: JobId)
    requires Inv(q, max) && Enabled(q, op) && id in q.status && id in q.events
    ensures
      var n := Next(q, op, max);
      id in n.status && n.status[id] == q.status[id] && id in n.events
  {
    hide Lists, Control, DistinctIds, Dispatch, Ids;
    CoherentAt(q, id);
    DispatchFrame(q, max);
  }

  // ------------------------------------------------- order and recovery

  /** The job launched next is the earliest arrival among those of the highest priority waiting. */
  lemma NextLaunchIsBest(q: Queue, max: nat) returns (k: nat)
    requires Inv(q, max) && q.pending != []
    ensures k < |q.all| && q.pending[0] == q.all[k] && Queued(q.status, q.tasks)(q.all[k])
    ensures forall i :: 0 <= i < |q.all| && Queued(q.status, q.tasks)(q.all[i]) ==>
              q.all[i].priority <= q.all[k].priority && (q.all[i].priority == q.all[k].priority ==> k <= i)
  {
    hide Control, Sort, Filter, Dedupe, Shape;
    var p := Queued(q.status, q.tasks);
    var queued := Filter(p, q.all);
    ByPriorityIsTotal();
    var h := HeadOfSort(ByPriority(), queued);
    k := PositionOf(p, q.all, h);
    forall i | 0 <= i < |q.all| && p(q.all[i])
      ensures q.all[i].priority <= q.all[k].priority && (q.all[i].priority == q.all[k].priority ==> k <= i)
    {
      var j := RankOf(p, q.all, i);
      assert ByPriority()(queued[h], queued[j]);
      if j < h {
        assert !ByPriority()(queued[j], queued[h]);
      } else {
        PositionsGrow(p, q.all, h, k, j, i);
      }
    }
  }

  /** How many of the first n elements satisfy p. */
  function CountTo(p: Rec -> bool, s: seq<Rec>, n: nat): nat
    requires n <= |s|
  {
    |Filter(p, s[..n])|
  }

  lemma RankOf(p: Rec -> bool, s: seq<Rec>, i: nat) returns (j: nat)
    requires i < |s| && p(s[i])
    ensures j == CountTo(p, s, i) && j < |Filter(p, s)| && Filter(p, s)[j] == s[i]
  {
    j := CountTo(p, s, i);
    assert s == s[..i] + ([s[i]] + s[i + 1..]);
    FilterAppend(p, s[..i], [s[i]] + s[i + 1..]);
    FilterAppend(p, [s[i]], s[i + 1..]);
    FilterOne(p, s[i]);
  }

  lemma {:induction false} PositionOf(p: Rec -> bool, s: seq<Rec>, j: nat) returns (i: nat)
    requires j < |Filter(p, s)|
    ensures i < |s| && p(s[i]) && s[i] == Filter(p, s)[j] && CountTo(p, s, i) == j
  {
    FilterCons(p, s);
    if p(s[0]) && j == 0 {
      i := 0;
      assert s[..0] == [];
    } else {
      var before := PositionOf(p, s[1..], if p(s[0]) then j - 1 else j);
      i := before + 1;
      assert s[..i] == [s[0]] + s[1..][..before];
      FilterAppend(p, [s[0]], s[1..][..before]);
      FilterOne(p, s[0]);
    }
  }

  lemma PositionsGrow(p: Rec -> bool, s: seq<Rec>, h: nat, k: nat, j: nat, i: nat)
    requires k < |s| && i < |s| && p(s[i]) && CountTo(p, s, k) == h && CountTo(p, s, i) == j && h <= j
    ensures k <= i
  {
    if i < k {
      assert s[..k] == s[..i] + ([s[i]] + s[i + 1..k]);
      FilterAppend(p, s[..i], [s[i]] + s[i + 1..k]);
      FilterAppend(p, [s[i]], s[i + 1..k]);
      FilterOne(p, s[i]);
      assert false;
    }
  }

  /** The pending list is the priority sort of the file restricted to the jobs still waiting. */
  lemma PendingFromFile(q: Queue, max: nat)
    requires Inv(q, max)
    ensures q.pending == Sort(ByPriority(), Filter(Queued(q.status, q.tasks), Listed(q.file)))
  {
    hide Sort, Filter, Listed, Control, Shape;
    var p, alive := Queued(q.status, q.tasks), Alive(q.status);
    FilterFilter(p, alive, q.all);
    FilterAgree(p, Both(p, alive), q.all);
  }

  /** A crash loses the memory but not the file: starting over from a legible file queues every
      unfinished job exactly once, from an illegible one every job that ever arrived; either way those
      that were waiting keep their relative order. */
  lemma CrashRecovery(q: Queue, max: nat)
    requires Inv(q, max)
    ensures
      var n := Start(q.file);
      && n.all == (if Legible(q.file) then Filter(Alive(q.status), q.all) else q.all)
      && DistinctIds(n.pending)
      && (forall r :: r in n.pending <==> r in q.all && (Legible(q.file) ==> Alive(q.status)(r)))
      && Filter(Queued(q.status, q.tasks), n.pending) == q.pending
  {
    hide Sort, Filter, Listed, Control, Shape, Start;
    var n := Start(q.file);
    StartKeeps(q.file, max);
    StartLists(q.file);
    PendingIsDistinct(n);
    PendingFromFile(q, max);
    ByPriorityIsTotal();
    FilterSort(ByPriority(), Queued(q.status, q.tasks), Listed(q.file));
    SortMembers(ByPriority(), Listed(q.file));
    FilterMembers(Alive(q.status), q.all);
  }

  /** One unreadable line is enough: the file lists exactly the unfinished jobs if and only if it is
      legible or no job has finished yet. */
  lemma FileIsExactIff(q: Queue, max: nat)
    requires Inv(q, max)
    ensures Listed(q.file) == Filter(Alive(q.status), q.all)
       <==> Legible(q.file) || forall r :: r in q.all ==> Alive(q.status)(r)
  {
    hide Listed, Control, Shape, Legible;
    FilterMembers(Alive(q.status), q.all);
    if forall r :: r in q.all ==> Alive(q.status)(r) { FilterAll(Alive(q.status), q.all); }
  }

  /** The queue neither repairs nor spoils its file, so that is decided when it starts. */
  lemma {:induction false} LegibilityLasts(q: Queue, ops: seq<Op>, max: nat)
    requires Legal(q, ops, max)
    ensures Legible(Run(q, ops, max).file) <==> Legible(q.file)
    decreases |ops|
  {
    hide Legible, Next, Enabled;
    if ops != [] {
      StepKeepsLegibility(q, ops[0], max);
      LegibilityLasts(Next(q, ops[0], max), ops[1..], max);
    }
  }

  lemma StepKeepsLegibility(q: Queue, op: Op, max: nat)
    requires Enabled(q, op)
    ensures Legible(Next(q, op, max).file) <==> Legible(q.file)
  {
    hide Dispatch, CanDispatch, Filter;
    DispatchFrame(q, max);
    if Legible(q.file) && (op.DoCancel? || op.DoFinish? || op.DoCallbackEnds?) { RowsOfRemaining(q.file, op.id); }
    if op.DoSubmit? { LegibleSnoc(q.file, op.rec); }
  }

  // ------------------------------------------------- starting again

  lemma {:induction false} InsertAllMultiset(pending: seq<Rec>, recs: seq<Rec>)
    ensures multiset(InsertAll(pending, recs)) == multiset(pending) + multiset(recs)
  {
    if recs != [] {
      var init, last := recs[..|recs| - 1], recs[|recs| - 1];
      InsertAllMultiset(pending, init);
      InsertMultiset(ByPriority(), last, InsertAll(pending, init));
      assert recs == init + [last];
    }
  }

  lemma {:induction false} OnceEach(s: seq<Rec>, r: Rec)
    requires DistinctIds(s)
    ensures multiset(s)[r] <= 1
  {
    if s != [] {
      OnceEach(s[1..], r);
      assert s == [s[0]] + s[1..];
      if s[0] == r {
        assert r !in s[1..];
        assert r !in multiset(s[1..]);
      }
    }
  }

  /** How many records of one job a list holds. */
  function Copies(s: seq<Rec>, id: JobId): nat {
    if s == [] then 0 else One(s[0].id == id) + Copies(s[1..], id)
  }

  lemma {:induction false} CopiesInsert(x: Rec, s: seq<Rec>, id: JobId)
    ensures Copies(Insert(ByPriority(), x, s), id) == Copies(s, id) + One(x.id == id)
  {
    if s != [] && ByPriority()(s[0], x) { CopiesInsert(x, s[1..], id); }
  }

  lemma CopiesSnoc(s: seq<Rec>, x: Rec, id: JobId)
    ensures Copies(s + [x], id) == Copies(s, id) + One(x.id == id)
  {
    if s != [] {
      assert (s + [x])[1..] == s[1..] + [x];
      CopiesSnoc(s[1..], x, id);
    }
  }

  lemma {:induction false} CopiesInsertAll(pending: seq<Rec>, recs: seq<Rec>, id: JobId)
    ensures Copies(InsertAll(pending, recs), id) == Copies(pending, id) + Copies(recs, id)
  {
    if recs != [] {
      var init, last := recs[..|recs| - 1], recs[|recs| - 1];
      CopiesInsertAll(pending, init, id);
      CopiesInsert(last, InsertAll(pending, init), id);
      CopiesSnoc(init, last, id);
      assert recs == init + [last];
    }
  }

  lemma {:induction false} CopiesOfDistinct(s: seq<Rec>, id: JobId)
    requires DistinctIds(s)
    ensures Copies(s, id) == One(id in Ids(s))
  {
    if s != [] {
      CopiesOfDistinct(s[1..], id);
      assert s == [s[0]] + s[1..];
      assert forall r :: r in s[1..] ==> r.id != s[0].id;
    }
  }

  /** The jobs that a start over this queue reads out of the file. */
  predicate ReadBack(q: Queue, id: JobId) { id in q.status && (Legible(q.file) ==> !Terminal(q.status[id])) }

  lemma ListedIds(q: Queue, max: nat, id: JobId)
    requires Inv(q, max)
    ensures id in Ids(Listed(q.file)) <==> ReadBack(q, id)
  {
    hide Control, Listed, DistinctIds, Legible;
    FilterMembers(Alive(q.status), q.all);
    if id in q.status {
      assert id in Ids(q.all);
      var r :| r in q.all && r.id == id;
      assert Legible(q.file) ==> (r in Filter(Alive(q.status), q.all) <==> Alive(q.status)(r));
    }
  }

  /** `start()` reads the file whatever is queued already. Called again after a stop, it queues every
      unfinished job once more, be it waiting, launched or running; a finished one comes back too if
      the file is illegible. */
  lemma StartAddsCopies(q: Queue, max: nat, id: JobId)
    requires Inv(q, max) && q.pc.Exited? && id in q.status
    ensures Copies(q.pending, id) == One(InPending(q, id))
    ensures Copies(Restart(q).pending, id) == Copies(q.pending, id) + One(ReadBack(q, id))
    ensures Restart(q).status[id] == (if ReadBack(q, id) then Pending else q.status[id]) && Restart(q).tasks == q.tasks
  {
    hide Control, Shape, InsertAll, Listed, DistinctIds, ReadBack;
    PendingIsDistinct(q);
    CopiesOfDistinct(q.pending, id);
    ListedIsDistinct(q.file);
    CopiesOfDistinct(Listed(q.file), id);
    CopiesInsertAll(q.pending, Listed(q.file), id);
    ListedIds(q, max, id);
  }

  /** A job that has not finished is queued although it is already waiting, or its task is still under way. */
  predicate QueuedAgain(q: Queue, id: JobId) {
    && id in q.status && !Terminal(q.status[id])
    && Copies(Restart(q).pending, id) == Copies(q.pending, id) + 1
    && (InPending(q, id) || InLaunched(q, id) || (InRunning(q, id) && id in q.tasks && q.tasks[id].Executing?))
  }

  /** Starting again after a stop queues some job again that is waiting, launched or running if and only if
      some job has not finished. */
  lemma StartQueuesAgainIff(q: Queue, max: nat)
    requires Inv(q, max) && q.pc.Exited?
    ensures (exists id :: QueuedAgain(q, id)) <==> exists id :: id in q.status && !Terminal(q.status[id])
  {
    hide Lists, Control, DistinctIds, Restart, InPending, Copies;
    if id :| id in q.status && !Terminal(q.status[id]) {
      StartAddsCopies(q, max, id);
      ExactlyOnePlace(q, max, id);
      CoherentAt(q, id);
      assert QueuedAgain(q, id);
    }
  }

  /** The list itself then holds some job twice if and only if one was waiting. */
  lemma StartQueuesTwiceIff(q: Queue, max: nat)
    requires Inv(q, max) && q.pc.Exited?
    ensures DistinctIds(Restart(q).pending) <==> q.pending == []
  {
    hide Control, Shape, InsertAll, Dedupe, Rows, DistinctIds;
    var recs := Listed(q.file);
    if q.pending == [] {
      InsertAllIsSort(recs);
      DedupeIsDistinct(Rows(q.file));
      SortKeepsDistinct(recs);
    } else {
      var r := q.pending[0];
      PendingIsDistinct(q);
      assert r in q.pending;
      FilterMembers(Alive(q.status), q.all);
      assert r in recs;
      InsertAllMultiset(q.pending, recs);
      assert r in multiset(q.pending) && r in multiset(recs);
      assert multiset(InsertAll(q.pending, recs))[r] >= 2;
      if DistinctIds(Restart(q).pending) { OnceEach(Restart(q).pending, r); }
    }
  }

  // ------------------------------------------------- what goes wrong, in runs

  /** The steps are legal and lead from q to n. */
  predicate Reaches(q: Queue, ops: seq<Op>, max: nat, n: Queue) { Legal(q, ops, max) && Run(q, ops, max) == n }

  lemma ReachesNext(q: Queue, op: Op, ops: seq<Op>, max: nat, n: Queue)
    requires Enabled(q, op) && Reaches(Next(q, op, max), ops, max, n)
    ensures Reaches(q, [op] + ops, max, n)
  {
    assert ([op] + ops)[1..] == ops;
  }

  lemma ReachesOne(q: Queue, op: Op, max: nat)
    requires Enabled(q, op)
    ensures Reaches(q, [op], max, Next(q, op, max))
  {
    ReachesNext(q, op, [], max, Next(q, op, max));
    assert [op] + [] == [op];
  }

  lemma {:induction false} ReachesThen(q: Queue, a: seq<Op>, m: Queue, b: seq<Op>, n: Queue, max: nat)
    requires Reaches(q, a, max, m) && Reaches(m, b, max, n)
    ensures Reaches(q, a + b, max, n)
    decreases |a|
  {
    hide Next, Enabled;
    if a == [] {
      assert a + b == b;
    } else {
      assert (a + b)[1..] == a[1..] + b;
      ReachesThen(Next(q, a[0], max), a[1..], m, b, n, max);
    }
  }

  /** One job, submitted to a queue without jobs and begun. */
  function Begun(file: seq<Line>, r: Rec): Queue {
    Queue(map[r.id := Running], {}, [], file + [Row(r)], map[r.id := Executing], {}, false, true, AtWake, [r], {r.id})
  }

  function BeginOps(r: Rec): seq<Op> { [DoSubmit(r), DoDispatch] + [DoBegin(r.id)] }

  lemma BeginsJob(file: seq<Line>, r: Rec, max: nat)
    requires Listed(file) == [] && r.id != "" && max >= 1
    ensures Reaches(Start(file), BeginOps(r), max, Begun(file, r))
  {
    var waiting := Queue(map[r.id := Pending], {}, [r], file + [Row(r)], map[], {}, true, true, Top, [r], {r.id});
    var launched := waiting.(pending := [], tasks := map[r.id := Launched], wakeup := false, pc := AtWake);
    StartsEmpty(file);
    assert Next(Start(file), DoSubmit(r), max) == waiting;
    assert Dispatch(waiting, max) == launched;
    ReachesOne(waiting, DoDispatch, max);
    ReachesNext(Start(file), DoSubmit(r), [DoDispatch], max, launched);
    ReachesOne(launched, DoBegin(r.id), max);
    assert Next(launched, DoBegin(r.id), max) == Begun(file, r);
    assert [DoSubmit(r)] + [DoDispatch] == [DoSubmit(r), DoDispatch];
    ReachesThen(Start(file), [DoSubmit(r), DoDispatch], launched, [DoBegin(r.id)], Begun(file, r), max);
  }

  lemma StartsEmpty(file: seq<Line>)
    requires Listed(file) == []
    ensures Start(file) == Queue(map[], {}, [], file, map[], {}, false, true, Top, [], {})
  {
    hide Listed;
    StartLists(file);
    StartControl(file);
  }

  /** A job still with the orchestrator, nothing waiting: a stop and a second start queue it again,
      and with a free slot it is launched again. */
  lemma RunningIsQueuedAgain(r: Rec, max: nat) returns (q: Queue)
    requires r.id != "" && max >= 1
    ensures Reaches(Start([]), BeginOps(r) + ([DoStop] + [DoDispatch]), max, q)
    ensures q.pc.Exited? && q.pending == [] && InRunning(q, r.id) && QueuedAgain(q, r.id)
    ensures max >= 2 ==> Dispatch(Restart(q), max).tasks == map[r.id := Launched]
  {
    var begun := Begun([], r);
    BeginsJob([], r, max);
    q := begun.(running := false, wakeup := true, pc := Exited);
    StopsBegun(begun, max);
    ReachesThen(Start([]), BeginOps(r), begun, [DoStop] + [DoDispatch], q, max);
    hide Reaches;
    RestartsWith(q, r);
    assert [r][1..] == [];
  }

  lemma StopsBegun(q: Queue, max: nat)
    requires q.pc.AtWake? && q.pending == []
    ensures Reaches(q, [DoStop] + [DoDispatch], max, q.(running := false, wakeup := true, pc := Exited))
  {
    ReachesOne(Stop(q), DoDispatch, max);
    ReachesNext(q, DoStop, [DoDispatch], max, q.(running := false, wakeup := true, pc := Exited));
  }

  lemma RestartsWith(q: Queue, r: Rec)
    requires q.file == [Row(r)] && q.pending == [] && r.id != ""
    ensures Restart(q).pending == [r]
  {
    OneRow(r);
    DedupeLast([], r);
    assert [] + [r] == [r];
    InsertAllIsSort([r]);
    SortSnoc([], r);
  }

  /** One garbled line and one finished job: the file still lists it. */
  lemma GarbledLineKeepsFinishedJob(r: Rec, max: nat) returns (q: Queue)
    requires r.id != "" && max >= 1
    ensures Reaches(Start([Garbled]), BeginOps(r) + [DoFinish(r.id, Completed, false)], max, q)
    ensures IsTerminal(q, r.id) && Listed(q.file) == [r] && Filter(Alive(q.status), q.all) == []
  {
    var begun := Begun([Garbled], r);
    BeginsJob([Garbled], r, max);
    q := Next(begun, DoFinish(r.id, Completed, false), max);
    ReachesOne(begun, DoFinish(r.id, Completed, false), max);
    ReachesThen(Start([Garbled]), BeginOps(r), begun, [DoFinish(r.id, Completed, false)], q, max);
    assert q.file[0] == Garbled && q.file == [Garbled] + [Row(r)];
    RowsAppend([Garbled], [Row(r)]);
    OneRow(r);
    DedupeLast([], r);
    assert [] + [r] == [r];
  }

  /** A job whose callback ends in a CancelledError is Completed, then Cancelled. */
  lemma CallbackCancelsCompletedJob(r: Rec, max: nat) returns (before: Queue, after: Queue)
    requires r.id != "" && max >= 1
    ensures Reaches(Start([]), BeginOps(r) + [DoFinish(r.id, Completed, true)], max, before)
    ensures Reaches(before, [DoCallbackEnds(r.id, true)], max, after)
    ensures before.status == map[r.id := Completed] && after.status == map[r.id := Cancelled]
  {
    var begun := Begun([], r);
    BeginsJob([], r, max);
    before := Next(begun, DoFinish(r.id, Completed, true), max);
    ReachesOne(begun, DoFinish(r.id, Completed, true), max);
    ReachesThen(Start([]), BeginOps(r), begun, [DoFinish(r.id, Completed, true)], before, max);
    after := Next(before, DoCallbackEnds(r.id, true), max);
    ReachesOne(before, DoCallbackEnds(r.id, true), max);
  }

  // ------------------------------------------------- the dispatcher is never stuck

  /** It never sleeps on an unset event with work waiting or after a stop, and a free slot always lets it on. */
  lemma DispatcherIsNeverStuck(q: Queue, max: nat)
    requires Inv(q, max) && !CanDispatch(q) && !q.pc.Exited?
    ensures (q.pc.AtWake? && q.pending == [] && q.running) || (q.pc.AtSlot? && |q.tasks| == max)
  {
    hide Shape, Lists;
    if q.pc.AtSlot? {
      assert forall id :: id in q.pc.snap ==> id in q.tasks.Keys;
      assert q.tasks.Keys == q.pc.snap;
      assert |q.tasks| == |q.tasks.Keys|;
    }
  }

  // ------------------------------------------------- draining

  function Weight(q: Queue, id: JobId): nat {
    if id in q.tasks then
      match q.tasks[id]
      case Launched => 4
      case Executing => 3
      case InCallback => 2
      case Finished => 1
    else if id in q.status && q.status[id] == Pending then 5
    else 0
  }

  function Work(q: Queue, s: seq<Rec>): nat {
    if s == [] then 0 else Weight(q, s[0].id) + Work(q, s[1..])
  }

  function Rank(q: Queue): nat {
    match q.pc
    case Top => 4
    case AtWake => if q.wakeup then 3 else 1
    case AtSlot(_) => 2
    case Exited => 0
  }

  /** Bounds the number of steps that the queue can still take by itself. */
  function Measure(q: Queue): nat { Work(q, q.all) + Rank(q) }

  /** Steps other than those of the queue's users. */
  predicate OwnStep(op: Op) { !op.DoSubmit? && !op.DoCancel? && !op.DoStop? }

  lemma {:induction false} WorkDrops(q: Queue, n: Queue, s: seq<Rec>, id: JobId)
    requires forall r :: r in s && r.id != id ==> Weight(n, r.id) == Weight(q, r.id)
    requires Weight(n, id) < Weight(q, id)
    ensures Work(n, s) <= Work(q, s)
    ensures id in Ids(s) ==> Work(n, s) < Work(q, s)
  {
    if s != [] {
      assert s[0] in s;
      forall r | r in s[1..] && r.id != id
        ensures Weight(n, r.id) == Weight(q, r.id)
      {
        assert r in s;
      }
      WorkDrops(q, n, s[1..], id);
      if id in Ids(s) && s[0].id != id {
        var r :| r in s && r.id == id;
        assert r in s[1..];
      }
    }
  }

  lemma LaunchWorks(q: Queue, max: nat)
    requires Inv(q, max) && q.pending != []
    ensures Work(Launch(q), q.all) < Work(q, q.all)
  {
    hide Lists, Control, DistinctIds;
    var id := q.pending[0].id;
    PendingIsDistinct(q);
    assert q.pending[0] in q.pending;
    WorkDrops(q, Launch(q), q.all, id);
  }

  lemma {:induction false} SameWork(q: Queue, n: Queue, s: seq<Rec>)
    requires n.tasks == q.tasks && n.status == q.status
    ensures Work(n, s) == Work(q, s)
  {
    if s != [] { SameWork(q, n, s[1..]); }
  }

  lemma {:induction false} DispatchWorks(q: Queue, max: nat)
    requires Inv(q, max) && max >= 1 && !q.pc.Exited?
    ensures
      var n := Dispatch(q, max);
      && Work(n, q.all) <= Work(q, q.all) && Rank(n) <= 2
      && (q.pending == [] ==> Rank(n) <= 1)
      && (q.pending != [] && |q.tasks| < max ==> Work(n, q.all) < Work(q, q.all))
    decreases |q.pending|
  {
    hide Inv, Work;
    if !q.running && q.pending == [] {
      SameWork(q, q.(pc := Exited), q.all);
    } else if q.pending == [] {
      SameWork(q, q.(wakeup := false, pc := AtWake), q.all);
    } else if q.tasks != map[] && |q.tasks| >= max {
      SameWork(q, q.(pc := AtSlot(q.tasks.Keys)), q.all);
    } else {
      LaunchWorks(q, max);
      LaunchFits(q, max);
      LaunchKeeps(q, max);
      DispatchWorks(Launch(q), max);
    }
  }

  lemma LaunchFits(q: Queue, max: nat)
    requires max >= 1 && !(q.tasks != map[] && |q.tasks| >= max)
    ensures |q.tasks| < max
  {
  }

  lemma DispatchDecreases(q: Queue, max: nat)
    requires Inv(q, max) && max >= 1 && CanDispatch(q)
    ensures Measure(Dispatch(q, max)) < Measure(q)
  {
    hide Lists, Shape, Work, Dispatch;
    DispatchWorks(q, max);
    DispatchFrame(q, max);
    if q.pc.AtSlot? { FreedSlot(q, max); }
  }

  lemma TaskStepDecreases(q: Queue, op: Op, max: nat)
    requires Inv(q, max) && Enabled(q, op) && OwnStep(op) && !op.DoDispatch?
    ensures Measure(Next(q, op, max)) < Measure(q)
  {
    hide Lists, Control, DistinctIds, Work, Weight, Next, CanDispatch;
    assert op.id in Ids(q.all);
    OwnWeightDrops(q, op, max);
    OtherWeightsStay(q, op, max);
    WorkDrops(q, Next(q, op, max), q.all, op.id);
  }

  lemma OwnWeightDrops(q: Queue, op: Op, max: nat)
    requires Shape(q) && Enabled(q, op) && OwnStep(op) && !op.DoDispatch?
    ensures Weight(Next(q, op, max), op.id) < Weight(q, op.id)
  {
    CoherentAt(q, op.id);
    hide Shape, Unpersist;
  }

  lemma OtherWeightsStay(q: Queue, op: Op, max: nat)
    requires Enabled(q, op) && OwnStep(op) && !op.DoDispatch?
    ensures forall x :: x != op.id ==> Weight(Next(q, op, max), x) == Weight(q, x)
    ensures Rank(Next(q, op, max)) == Rank(q) && Next(q, op, max).all == q.all
  {
    hide Unpersist;
  }

  /** Every step that the queue takes by itself uses up some of the measure. */
  lemma OwnStepsDecrease(q: Queue, op: Op, max: nat)
    requires Inv(q, max) && max >= 1 && Enabled(q, op) && OwnStep(op)
    ensures Measure(Next(q, op, max)) < Measure(q)
  {
    hide Inv, Measure;
    if op.DoDispatch? {
      DispatchDecreases(q, max);
    } else {
      TaskStepDecreases(q, op, max);
    }
  }

  lemma FreedSlot(q: Queue, max: nat)
    requires Control(q, max) && q.pc.AtSlot? && CanDispatch(q)
    ensures |q.tasks| < max
  {
    var id :| id in q.pc.snap && id !in q.tasks;
    assert q.tasks.Keys <= q.pc.snap - {id};
    assert q.pc.snap - {id} == q.tasks.Keys + (q.pc.snap - {id} - q.tasks.Keys);
    assert |q.tasks| == |q.tasks.Keys|;
  }

  /** Left alone, the queue comes to rest within that many steps. */
  lemma {:induction false} DrainIsBounded(q: Queue, ops: seq<Op>, max: nat)
    requires Inv(q, max) && max >= 1 && Legal(q, ops, max) && forall i :: 0 <= i < |ops| ==> OwnStep(ops[i])
    ensures |ops| <= Measure(q)
    decreases |ops|
  {
    hide Inv, Next, Enabled, Measure;
    if ops != [] {
      OwnStepsDecrease(q, ops[0], max);
      NextKeeps(q, ops[0], max);
      DrainIsBounded(Next(q, ops[0], max), ops[1..], max);
    }
  }

  /** At rest no own step is possible; every orchestrator call and callback has ended. */
  ghost predicate AtRest(q: Queue) { forall op: Op :: OwnStep(op) ==> !Enabled(q, op) }

  /** `stop()` returns when the dispatcher has returned and the tasks have ended: every job that
      arrived before the dispatcher did is then finished. */
  lemma StoppedMeansDone(q: Queue, max: nat)
    requires Inv(q, max) && q.pc.Exited? && forall id :: id in q.tasks ==> q.tasks[id] == Finished
    ensures forall id :: id in q.early ==> id in q.status && Terminal(q.status[id])
  {
    hide Lists, DistinctIds;
    forall id | id in q.early
      ensures id in q.status && Terminal(q.status[id])
    {
      CoherentAt(q, id);
      ExactlyOnePlace(q, max, id);
    }
  }

  /** At rest every job that arrived before the dispatcher returned is finished, and after a
      stop the dispatcher has returned. */
  lemma RestMeansDone(q: Queue, max: nat)
    requires Inv(q, max) && max >= 1 && AtRest(q)
    ensures q.tasks == map[]
    ensures !q.running ==> q.pc == Exited
    ensures forall id :: id in q.early ==> id in q.status && Terminal(q.status[id])
  {
    hide Lists, DistinctIds;
    NoTaskAtRest(q, max);
    assert !Enabled(q, DoDispatch) by { assert OwnStep(DoDispatch); }
    if !q.pc.Exited? { DispatcherIsNeverStuck(q, max); }
    forall id | id in q.early
      ensures id in q.status && Terminal(q.status[id])
    {
      CoherentAt(q, id);
      ExactlyOnePlace(q, max, id);
    }
  }

  lemma NoTaskAtRest(q: Queue, max: nat)
    requires Inv(q, max) && AtRest(q)
    ensures q.tasks == map[]
  {
    hide Lists, Control, DistinctIds;
    if id :| id in q.tasks {
      assert id in q.status;
      var op := match q.tasks[id]
        case Launched => DoBegin(id)
        case Executing => DoFinish(id, Completed, false)
        case InCallback => DoCallbackEnds(id, false)
        case Finished => DoCleanup(id);
      assert OwnStep(op) && Enabled(q, op);
    }
  }
}
