/** What every step of the job queue keeps. */
module JobInvariants {
  import opened Sequences
  import opened StableSort
  import opened JobSteps

  ghost predicate DistinctIds(s: seq<Rec>) {
    forall i, j :: 0 <= i < j < |s| ==> s[i].id != s[j].id
  }

  /** One job's status, task and event fit together. */
  predicate Coherent(status: Status, phase: Option<Phase>, done: bool) {
    match phase
    case None => (status == Pending && !done) || (Terminal(status) && done)
    case Some(Launched) => (status == Pending && !done) || (status == Cancelled && done)
    case Some(Executing) => status == Running && !done
    case Some(InCallback) => status == Completed && !done
    case Some(Finished) => Terminal(status) && done
  }

  function PhaseOf(q: Queue, id: JobId): Option<Phase> {
    if id in q.tasks then Some(q.tasks[id]) else None
  }

  ghost predicate Shape(q: Queue) {
    && DistinctIds(q.all)
    && q.status.Keys == Ids(q.all)
    && q.tasks.Keys <= q.status.Keys && q.events <= q.status.Keys && q.early <= q.status.Keys && "" !in q.status
    && forall id :: id in q.status ==> Coherent(q.status[id], PhaseOf(q, id), id in q.events)
  }

  /** The pending list is the stable sort of the queued jobs, and the file lists the unfinished
      ones in order of arrival, as long as it can be read. */
  ghost predicate Lists(q: Queue) {
    && q.pending == Sort(ByPriority(), Filter(Queued(q.status, q.tasks), q.all))
    && FileLists(q.file, Alive(q.status), q.all)
  }

  /** A legible file lists the unfinished jobs; from an illegible one nothing was ever removed. */
  ghost predicate FileLists(file: seq<Line>, alive: Rec -> bool, all: seq<Rec>) {
    Listed(file) == if Legible(file) then Filter(alive, all) else all
  }

  ghost predicate Control(q: Queue, max: nat) {
    && |q.tasks| <= max
    && (q.pc.AtWake? && !q.wakeup ==> q.pending == [] && q.running)
    && (q.pc.AtSlot? ==> |q.pc.snap| == max && q.tasks.Keys <= q.pc.snap)
    && (q.pc.Exited? ==> !q.running && forall r :: r in q.pending ==> r.id !in q.early)
  }

  ghost predicate Inv(q: Queue, max: nat) { Shape(q) && Lists(q) && Control(q, max) }

  // ------------------------------------------------- the two lists

  lemma ByPriorityIsTotal()
    ensures TotalPreorder(ByPriority())
  {
  }

  lemma {:induction false} InsertKeepsDistinct(x: Rec, s: seq<Rec>)
    requires DistinctIds(s) && forall i :: 0 <= i < |s| ==> s[i].id != x.id
    ensures DistinctIds(Insert(ByPriority(), x, s))
  {
    if s != [] && ByPriority()(s[0], x) {
      InsertKeepsDistinct(x, s[1..]);
      InsertMembers(ByPriority(), x, s[1..]);
      var rest := Insert(ByPriority(), x, s[1..]);
      forall j | 0 <= j < |rest|
        ensures rest[j].id != s[0].id
      {
        assert rest[j] in rest;
        if rest[j] != x { var k :| 0 <= k < |s| - 1 && s[1..][k] == rest[j]; assert s[k + 1] == rest[j]; }
      }
    }
  }

  lemma {:induction false} SortKeepsDistinct(s: seq<Rec>)
    requires DistinctIds(s)
    ensures DistinctIds(Sort(ByPriority(), s))
  {
    if s != [] {
      var init, last := s[..|s| - 1], s[|s| - 1];
      SortKeepsDistinct(init);
      SortMembers(ByPriority(), init);
      var sorted := Sort(ByPriority(), init);
      forall i | 0 <= i < |sorted|
        ensures sorted[i].id != last.id
      {
        assert sorted[i] in init;
      }
      InsertKeepsDistinct(last, sorted);
    }
  }

  lemma {:induction false} FilterKeepsDistinctIds(p: Rec -> bool, s: seq<Rec>)
    requires DistinctIds(s)
    ensures DistinctIds(Filter(p, s))
  {
    if s != [] {
      FilterKeepsDistinctIds(p, s[1..]);
      FilterMembers(p, s[1..]);
      var rest := Filter(p, s[1..]);
      forall j | 0 <= j < |rest|
        ensures rest[j].id != s[0].id
      {
        assert rest[j] in s[1..];
      }
    }
  }

  lemma {:induction false} DedupeFilter(file: seq<Rec>, id: JobId)
    ensures Dedupe(Filter(Other(id), file)) == Filter(Other(id), Dedupe(file))
    decreases |file|
  {
    if file != [] {
      var init, last := file[..|file| - 1], file[|file| - 1];
      assert file == init + [last];
      DedupeFilter(init, id);
      DedupeFilterLast(init, last, id);
    }
  }

  lemma DedupeFilterLast(init: seq<Rec>, last: Rec, id: JobId)
    requires Dedupe(Filter(Other(id), init)) == Filter(Other(id), Dedupe(init))
    ensures Dedupe(Filter(Other(id), init + [last])) == Filter(Other(id), Dedupe(init + [last]))
  {
    hide Filter, Ids, Dedupe;
    var kept, before := Filter(Other(id), init), Dedupe(init);
    FilterAppend(Other(id), init, [last]);
    FilterAppend(Other(id), before, [last]);
    FilterOne(Other(id), last);
    IdsOfFilter(before, id);
    DedupeLast(init, last);
    if last.id != id {
      DedupeLast(kept, last);
    } else {
      assert kept + [] == kept && Filter(Other(id), before) + [] == Filter(Other(id), before);
    }
  }

  lemma DedupeLast(file: seq<Rec>, r: Rec)
    ensures Dedupe(file + [r])
         == if r.id == "" || r.id in Ids(Dedupe(file)) then Dedupe(file) else Dedupe(file) + [r]
  {
    assert (file + [r])[..|file|] == file;
  }

  lemma FilterOne(p: Rec -> bool, r: Rec)
    ensures Filter(p, [r]) == if p(r) then [r] else []
  {
  }

  lemma IdsOfFilter(s: seq<Rec>, id: JobId)
    ensures Ids(Filter(Other(id), s)) == Ids(s) - {id}
  {
    FilterMembers(Other(id), s);
    forall x | x in Ids(s) - {id}
      ensures x in Ids(Filter(Other(id), s))
    {
      var r :| r in s && r.id == x;
      assert r in Filter(Other(id), s);
    }
  }

  /** A job leaves the queue: the pending list loses just that job. */
  lemma LeavesPending(all: seq<Rec>, before: Rec -> bool, after: Rec -> bool, id: JobId)
    requires forall r :: r in all ==> (after(r) <==> before(r) && r.id != id)
    ensures Sort(ByPriority(), Filter(after, all)) == Filter(Other(id), Sort(ByPriority(), Filter(before, all)))
  {
    ByPriorityIsTotal();
    FilterSort(ByPriority(), Other(id), Filter(before, all));
    FilterFilter(Other(id), before, all);
    FilterAgree(after, Both(Other(id), before), all);
  }

  function RowOf(l: Line): seq<Rec> { if l.Row? then [l.rec] else [] }

  lemma RowsCons(l: Line, s: seq<Line>)
    ensures Rows([l] + s) == RowOf(l) + Rows(s)
  {
    assert ([l] + s)[1..] == s;
  }

  lemma {:induction false} RowsAppend(a: seq<Line>, b: seq<Line>)
    ensures Rows(a + b) == Rows(a) + Rows(b)
  {
    hide Rows, RowOf;
    if a == [] {
      assert a + b == b && Rows([]) == [] by { NoRows(); }
    } else {
      RowsAppend(a[1..], b);
      RowsCons(a[0], a[1..]);
      RowsCons(a[0], a[1..] + b);
      assert a == [a[0]] + a[1..];
      assert [a[0]] + (a[1..] + b) == a + b;
    }
  }

  lemma NoRows()
    ensures Rows([]) == []
  {
  }

  lemma {:induction false} RowsOfRemaining(file: seq<Line>, id: JobId)
    requires Legible(file)
    ensures Rows(Filter(NotOf(id), file)) == Filter(Other(id), Rows(file))
    ensures Legible(Filter(NotOf(id), file))
  {
    if file != [] {
      RowsOfRemaining(file[1..], id);
      var kept := Filter(NotOf(id), file[1..]);
      assert Rows(file) == [file[0].rec] + Rows(file[1..]);
      FilterAppend(Other(id), [file[0].rec], Rows(file[1..]));
      FilterOne(Other(id), file[0].rec);
      if file[0].rec.id != id {
        assert ([file[0]] + kept)[1..] == kept;
      } else {
        assert [] + Filter(Other(id), Rows(file[1..])) == Filter(Other(id), Rows(file[1..]));
        assert [] + kept == kept;
      }
    }
  }

  /** A job ends: its lines leave the file, if the file can be read. */
  lemma LeavesFile(all: seq<Rec>, before: Rec -> bool, after: Rec -> bool, id: JobId, file: seq<Line>)
    requires FileLists(file, before, all)
    requires forall r :: r in all ==> (after(r) <==> before(r) && r.id != id)
    ensures FileLists(Unpersist(file, id), after, all)
  {
    hide Filter, Dedupe, Rows;
    if Legible(file) {
      RowsOfRemaining(file, id);
      DedupeFilter(Rows(file), id);
      FilterFilter(Other(id), before, all);
      FilterAgree(after, Both(Other(id), before), all);
    }
  }

  lemma PendingIsDistinct(q: Queue)
    requires Shape(q) && Lists(q)
    ensures DistinctIds(q.pending)
    ensures forall r :: r in q.pending <==> r in q.all && Queued(q.status, q.tasks)(r)
  {
    var queued := Filter(Queued(q.status, q.tasks), q.all);
    FilterKeepsDistinctIds(Queued(q.status, q.tasks), q.all);
    SortKeepsDistinct(queued);
    SortMembers(ByPriority(), queued);
    FilterMembers(Queued(q.status, q.tasks), q.all);
  }

  lemma FilterOutHead(s: seq<Rec>)
    requires DistinctIds(s) && s != []
    ensures Filter(Other(s[0].id), s) == s[1..]
  {
    FilterAll(Other(s[0].id), s[1..]);
  }

  // ------------------------------------------------- one lemma a step

  lemma {:induction false} DedupeIsDistinct(file: seq<Rec>)
    ensures DistinctIds(Dedupe(file)) && "" !in Ids(Dedupe(file))
  {
    if file != [] {
      var before, last := Dedupe(file[..|file| - 1]), file[|file| - 1];
      DedupeIsDistinct(file[..|file| - 1]);
      if last.id != "" && last.id !in Ids(before) {
        forall i | 0 <= i < |before|
          ensures before[i].id != last.id
        {
          assert before[i].id in Ids(before);
        }
      }
    }
  }

  lemma {:induction false} InsertAllIsSort(recs: seq<Rec>)
    ensures InsertAll([], recs) == Sort(ByPriority(), recs)
  {
    if recs != [] { InsertAllIsSort(recs[..|recs| - 1]); }
  }

  lemma StartLists(file: seq<Line>)
    ensures
      var q := Start(file);
      && q.all == Listed(file) && q.pending == Sort(ByPriority(), Listed(file)) && q.file == file && q.tasks == map[] && q.events == {}
      && q.status == AllPending(Ids(Listed(file)))
  {
    hide Listed;
    var recs := Listed(file);
    InsertAllIsSort(recs);
    assert [] + recs == recs;
    assert map[] + AllPending(Ids(recs)) == AllPending(Ids(recs));
  }

  lemma StartKeeps(file: seq<Line>, max: nat)
    ensures Inv(Start(file), max)
  {
    hide Listed, Legible, Start, Sort, Filter;
    var q := Start(file);
    StartLists(file);
    assert q.wakeup == (q.all != []) && q.running && q.pc == Top && q.early == Ids(q.all) by { StartControl(file); }
    assert DistinctIds(q.all) && "" !in Ids(q.all) by { ListedIsDistinct(file); }
    assert forall r :: r in q.all ==> r.id in Ids(q.all);
    FilterAll(Queued(q.status, q.tasks), q.all);
    FilterAll(Alive(q.status), q.all);
  }

  lemma StartControl(file: seq<Line>)
    ensures
      var q, recs := Start(file), Listed(file);
      q.wakeup == (recs != []) && q.running && q.pc == Top && q.early == Ids(recs)
  {
    assert Ids([]) == {};
  }

  lemma ListedIsDistinct(file: seq<Line>)
    ensures DistinctIds(Listed(file)) && "" !in Ids(Listed(file))
  {
    DedupeIsDistinct(Rows(file));
  }

  lemma IdsSnoc(s: seq<Rec>, r: Rec)
    ensures Ids(s + [r]) == Ids(s) + {r.id}
  {
    assert r in s + [r];
    forall x | x in Ids(s)
      ensures x in Ids(s + [r])
    {
      var y :| y in s && y.id == x;
      assert y in s + [r];
    }
  }

  lemma SubmitKeepsShape(q: Queue, r: Rec)
    requires Shape(q) && r.id != "" && r.id !in q.status
    ensures Shape(Submit(q, r))
  {
    IdsSnoc(q.all, r);
    forall i | 0 <= i < |q.all|
      ensures q.all[i].id != r.id
    {
      assert q.all[i] in q.all;
    }
  }

  lemma {:induction false} SortSnoc(s: seq<Rec>, r: Rec)
    ensures Sort(ByPriority(), s + [r]) == Insert(ByPriority(), r, Sort(ByPriority(), s))
  {
    assert (s + [r])[..|s|] == s;
  }

  lemma ArrivalsAreKnown(q: Queue, r: Rec)
    requires Shape(q) && r.id !in q.status
    ensures forall x :: x in q.all ==> x.id in q.status && x.id != r.id
  {
    assert forall x :: x in q.all ==> x.id in Ids(q.all);
  }

  lemma SubmitKeepsPending(q: Queue, r: Rec)
    requires Shape(q) && Lists(q) && r.id !in q.status
    ensures Submit(q, r).pending == Sort(ByPriority(), Filter(Queued(q.status[r.id := Pending], q.tasks), q.all + [r]))
  {
    hide Filter, Dedupe, Insert, Sort, Shape;
    var after := Queued(q.status[r.id := Pending], q.tasks);
    ArrivalsAreKnown(q, r);
    assert r.id !in q.tasks by { TasksAreKnown(q, r.id); }
    FilterAppend(after, q.all, [r]);
    FilterOne(after, r);
    FilterAgree(after, Queued(q.status, q.tasks), q.all);
    SortSnoc(Filter(Queued(q.status, q.tasks), q.all), r);
  }

  lemma TasksAreKnown(q: Queue, id: JobId)
    requires Shape(q) && id !in q.status
    ensures id !in q.tasks
  {
  }

  lemma OneRow(r: Rec)
    ensures Rows([Row(r)]) == [r]
  {
    assert [Row(r)][1..] == [];
  }

  lemma LegibleSnoc(file: seq<Line>, r: Rec)
    ensures Legible(file + [Row(r)]) <==> Legible(file)
  {
    if Legible(file + [Row(r)]) {
      assert forall i :: 0 <= i < |file| ==> (file + [Row(r)])[i] == file[i];
    }
  }

  lemma SubmitKeepsFile(q: Queue, r: Rec)
    requires Shape(q) && Lists(q) && r.id != "" && r.id !in q.status
    ensures FileLists(q.file + [Row(r)], Alive(q.status[r.id := Pending]), q.all + [r])
  {
    hide Filter, Dedupe, Insert, Sort, Shape, Rows;
    var after := Alive(q.status[r.id := Pending]);
    ArrivalsAreKnown(q, r);
    FilterAppend(after, q.all, [r]);
    FilterOne(after, r);
    FilterAgree(after, Alive(q.status), q.all);
    FilterMembers(Alive(q.status), q.all);
    RowsAppend(q.file, [Row(r)]);
    OneRow(r);
    DedupeLast(Rows(q.file), r);
    assert Legible(q.file + [Row(r)]) <==> Legible(q.file) by { LegibleSnoc(q.file, r); }
  }

  lemma SubmitKeepsLists(q: Queue, r: Rec)
    requires Shape(q) && Lists(q) && r.id != "" && r.id !in q.status
    ensures Lists(Submit(q, r))
  {
    hide Filter, Dedupe, Insert, Sort, Shape;
    SubmitKeepsPending(q, r);
    SubmitKeepsFile(q, r);
  }

  lemma SubmitKeepsControl(q: Queue, r: Rec, max: nat)
    requires Shape(q) && Control(q, max) && r.id !in q.status
    ensures Control(Submit(q, r), max)
  {
    InsertMembers(ByPriority(), r, q.pending);
  }

  lemma SubmitKeeps(q: Queue, r: Rec, max: nat)
    requires Inv(q, max) && r.id != "" && r.id !in q.status
    ensures Inv(Submit(q, r), max)
  {
    hide Shape, Lists, Control, Submit;
    SubmitKeepsShape(q, r);
    SubmitKeepsLists(q, r);
    SubmitKeepsControl(q, r, max);
  }

  /** Only job id changed. */
  ghost predicate SameBut(q: Queue, n: Queue, id: JobId) {
    && n.all == q.all && n.early == q.early && n.status.Keys == q.status.Keys
    && forall x :: x in q.status && x != id ==>
         n.status[x] == q.status[x] && PhaseOf(n, x) == PhaseOf(q, x) && (x in n.events <==> x in q.events)
  }

  lemma ShapeBut(q: Queue, n: Queue, id: JobId)
    requires Shape(q) && SameBut(q, n, id) && id in q.status
    requires n.tasks.Keys <= q.status.Keys && n.events <= q.status.Keys
    requires Coherent(n.status[id], PhaseOf(n, id), id in n.events)
    ensures Shape(n)
  {
    forall x | x in n.status
      ensures Coherent(n.status[x], PhaseOf(n, x), x in n.events)
    {
      if x != id { assert Coherent(q.status[x], PhaseOf(q, x), x in q.events); }
    }
  }

  lemma CoherentAt(q: Queue, id: JobId)
    requires Shape(q) && id in q.status
    ensures Coherent(q.status[id], PhaseOf(q, id), id in q.events)
  {
  }

  /** The pending list stays as it was. */
  lemma SamePending(q: Queue, n: Queue)
    requires Lists(q) && n.all == q.all && n.pending == q.pending
    requires forall r :: r in q.all ==> (Queued(n.status, n.tasks)(r) <==> Queued(q.status, q.tasks)(r))
    ensures n.pending == Sort(ByPriority(), Filter(Queued(n.status, n.tasks), n.all))
  {
    FilterAgree(Queued(n.status, n.tasks), Queued(q.status, q.tasks), q.all);
  }

  lemma SameFile(q: Queue, n: Queue)
    requires Lists(q) && n.all == q.all && n.file == q.file
    requires forall r :: r in q.all ==> (Alive(n.status)(r) <==> Alive(q.status)(r))
    ensures FileLists(n.file, Alive(n.status), n.all)
  {
    FilterAgree(Alive(n.status), Alive(q.status), q.all);
  }

  /** Steps that leave the dispatcher alone and take no new task. */
  lemma ControlBut(q: Queue, n: Queue, max: nat)
    requires Control(q, max) && n.pc == q.pc && n.wakeup == q.wakeup && n.running == q.running && n.early == q.early
    requires n.tasks.Keys <= q.tasks.Keys
    requires forall r :: r in n.pending ==> r in q.pending
    ensures Control(n, max)
  {
    assert q.tasks.Keys == n.tasks.Keys + (q.tasks.Keys - n.tasks.Keys);
    assert |n.tasks| == |n.tasks.Keys| && |q.tasks| == |q.tasks.Keys|;
    if n.pending != [] { assert n.pending[0] in q.pending; }
  }

  lemma {:induction false} RemoveFirstIsFilter(s: seq<Rec>, id: JobId)
    requires DistinctIds(s)
    ensures RemoveFirst(s, id) == Filter(Other(id), s)
  {
    if s == [] {
    } else if s[0].id == id {
      FilterOutHead(s);
    } else {
      RemoveFirstIsFilter(s[1..], id);
    }
  }

  lemma CancelledPending(q: Queue, id: JobId)
    requires Shape(q) && Lists(q)
    ensures RemoveFirst(q.pending, id) == Filter(Other(id), q.pending)
    ensures forall r :: r in RemoveFirst(q.pending, id) ==> r in q.pending
  {
    hide Shape, Lists;
    PendingIsDistinct(q);
    RemoveFirstIsFilter(q.pending, id);
    FilterMembers(Other(id), q.pending);
  }

  lemma CancelPendingKeepsLists(q: Queue, id: JobId)
    requires Shape(q) && Lists(q) && id in q.status && q.status[id] == Pending
    ensures Lists(Cancel(q, id).0)
  {
    hide Shape, FileLists, Filter, Sort, Unpersist, RemoveFirst;
    var n := Cancel(q, id).0;
    CancelledPending(q, id);
    LeavesPending(q.all, Queued(q.status, q.tasks), Queued(n.status, n.tasks), id);
    LeavesFile(q.all, Alive(q.status), Alive(n.status), id, q.file);
  }

  lemma CancelPendingKeeps(q: Queue, id: JobId, max: nat)
    requires Inv(q, max) && id in q.status && q.status[id] == Pending
    ensures Inv(Cancel(q, id).0, max)
  {
    hide Lists, Control, DistinctIds, RemoveFirst, Unpersist;
    var n := Cancel(q, id).0;
    CancelledPending(q, id);
    CancelPendingKeepsLists(q, id);
    CoherentAt(q, id);
    ShapeBut(q, n, id);
    hide Shape;
    ControlBut(q, n, max);
  }

  lemma CancelKeeps(q: Queue, id: JobId, max: nat)
    requires Inv(q, max)
    ensures Inv(Cancel(q, id).0, max)
  {
    if id in q.status && q.status[id] == Pending {
      CancelPendingKeeps(q, id, max);
    } else if id in q.status && q.status[id] == Running {
      CoherentAt(q, id);
      var n := q.(asked := q.asked + {id});
      assert forall x :: PhaseOf(n, x) == PhaseOf(q, x);
    }
  }

  lemma LaunchKeeps(q: Queue, max: nat)
    requires Inv(q, max) && q.pending != [] && |q.tasks| < max && !q.pc.Exited?
    ensures Inv(Launch(q), max)
  {
    hide Filter, Sort, Dedupe, Alive;
    var n, id := Launch(q), q.pending[0].id;
    PendingIsDistinct(q);
    assert q.pending[0] in q.pending && id in Ids(q.all);
    CoherentAt(q, id);
    ShapeBut(q, n, id);
    FilterOutHead(q.pending);
    LeavesPending(q.all, Queued(q.status, q.tasks), Queued(n.status, n.tasks), id);
  }

  /** Shape and Lists do not look at the dispatcher. */
  lemma PcIsFree(q: Queue, wakeup: bool, pc: Pc)
    requires Shape(q) && Lists(q)
    ensures Shape(q.(wakeup := wakeup, pc := pc)) && Lists(q.(wakeup := wakeup, pc := pc))
  {
    var n := q.(wakeup := wakeup, pc := pc);
    assert forall x :: PhaseOf(n, x) == PhaseOf(q, x);
  }

  lemma {:induction false} DispatchKeeps(q: Queue, max: nat)
    requires Inv(q, max) && !q.pc.Exited? && max >= 1
    ensures Inv(Dispatch(q, max), max)
    decreases |q.pending|
  {
    hide Shape, Lists;
    if !q.running && q.pending == [] {
      PcIsFree(q, q.wakeup, Exited);
    } else if q.pending == [] {
      PcIsFree(q, false, AtWake);
    } else if q.tasks != map[] && |q.tasks| >= max {
      PcIsFree(q, q.wakeup, AtSlot(q.tasks.Keys));
      assert |q.tasks.Keys| == |q.tasks|;
    } else {
      LaunchKeeps(q, max);
      DispatchKeeps(Launch(q), max);
    }
  }

  predicate KeepsLines(q: Queue, n: Queue, id: JobId) {
    n.file == q.file && id in q.status && id in n.status && Terminal(n.status[id]) == Terminal(q.status[id])
  }

  /** A step of one task: the job was not in the pending list and does not get there, and its
      lines leave the file if it ends. */
  ghost predicate TaskStep(q: Queue, n: Queue, id: JobId) {
    && id in q.tasks && SameBut(q, n, id) && n.pending == q.pending
    && n.pc == q.pc && n.wakeup == q.wakeup && n.running == q.running
    && n.tasks.Keys <= q.tasks.Keys && n.events <= q.status.Keys
    && id in n.status && Coherent(n.status[id], PhaseOf(n, id), id in n.events)
    && (n.status[id] == Pending ==> id in n.tasks)
    && (KeepsLines(q, n, id) || (n.file == Unpersist(q.file, id) && Terminal(n.status[id])))
  }

  lemma TaskStepKeepsLists(q: Queue, n: Queue, id: JobId)
    requires Shape(q) && Lists(q) && TaskStep(q, n, id)
    ensures Lists(n)
  {
    hide Shape, Lists, FileLists, Filter, Sort, Legible, Listed, Unpersist, Coherent;
    OthersStay(q, n, id);
    assert n.pending == Sort(ByPriority(), Filter(Queued(n.status, n.tasks), n.all)) by { SamePending(q, n); }
    assert FileLists(n.file, Alive(n.status), n.all) by { TaskStepKeepsFile(q, n, id); }
    ListsOf(n);
  }

  /** The other jobs are where they were. */
  lemma OthersStay(q: Queue, n: Queue, id: JobId)
    requires Shape(q) && SameBut(q, n, id)
    ensures forall r :: r in q.all ==> r.id in q.status && r.id in n.status
    ensures forall r :: r in q.all && r.id != id ==> n.status[r.id] == q.status[r.id] && (r.id in n.tasks <==> r.id in q.tasks)
  {
    hide DistinctIds, Coherent;
    assert forall r :: r in q.all ==> r.id in Ids(q.all);
    assert forall x :: x in q.status && x != id ==> PhaseOf(n, x) == PhaseOf(q, x);
  }

  lemma ListsOf(q: Queue)
    requires q.pending == Sort(ByPriority(), Filter(Queued(q.status, q.tasks), q.all))
    requires FileLists(q.file, Alive(q.status), q.all)
    ensures Lists(q)
  {
  }

  lemma TaskStepKeepsFile(q: Queue, n: Queue, id: JobId)
    requires Shape(q) && Lists(q) && TaskStep(q, n, id)
    ensures FileLists(n.file, Alive(n.status), n.all)
  {
    hide Shape, FileLists, Filter, Sort, Legible, Listed, Unpersist, Coherent;
    OthersStay(q, n, id);
    if KeepsLines(q, n, id) {
      SameFile(q, n);
    } else {
      LeavesFile(q.all, Alive(q.status), Alive(n.status), id, q.file);
    }
  }

  lemma TaskStepKeeps(q: Queue, n: Queue, id: JobId, max: nat)
    requires Inv(q, max) && TaskStep(q, n, id)
    ensures Inv(n, max)
  {
    hide Lists, Control, Coherent;
    ShapeBut(q, n, id);
    TaskStepKeepsLists(q, n, id);
    ControlBut(q, n, max);
  }

  lemma BeginKeeps(q: Queue, id: JobId, max: nat)
    requires Inv(q, max) && Enabled(q, DoBegin(id))
    ensures Inv(Begin(q, id), max)
  {
    hide Lists, Control, DistinctIds, Ids, Filter, Unpersist;
    CoherentAt(q, id);
    var n := Begin(q, id);
    assert KeepsLines(q, n, id) && SameBut(q, n, id);
    TaskStepKeeps(q, n, id, max);
  }

  lemma FinishKeeps(q: Queue, id: JobId, outcome: Status, awaits: bool, max: nat)
    requires Inv(q, max) && Enabled(q, DoFinish(id, outcome, awaits))
    ensures Inv(Finish(q, id, outcome, awaits), max)
  {
    hide Lists, Control, DistinctIds, Ids, Filter;
    CoherentAt(q, id);
    TaskStepKeeps(q, Finish(q, id, outcome, awaits), id, max);
  }

  lemma CallbackEndsKeeps(q: Queue, id: JobId, cancelled: bool, max: nat)
    requires Inv(q, max) && Enabled(q, DoCallbackEnds(id, cancelled))
    ensures Inv(CallbackEnds(q, id, cancelled), max)
  {
    hide Lists, Control;
    CoherentAt(q, id);
    TaskStepKeeps(q, CallbackEnds(q, id, cancelled), id, max);
  }

  lemma CleanupKeeps(q: Queue, id: JobId, max: nat)
    requires Inv(q, max) && Enabled(q, DoCleanup(id))
    ensures Inv(Cleanup(q, id), max)
  {
    hide Lists, Control;
    CoherentAt(q, id);
    TaskStepKeeps(q, Cleanup(q, id), id, max);
  }

  lemma StopKeeps(q: Queue, max: nat)
    requires Inv(q, max)
    ensures Inv(Stop(q), max)
  {
    var n := Stop(q);
    assert forall x :: PhaseOf(n, x) == PhaseOf(q, x);
  }

  lemma NextKeeps(q: Queue, op: Op, max: nat)
    requires Inv(q, max) && Enabled(q, op) && max >= 1
    ensures Inv(Next(q, op, max), max)
  {
    hide Inv, Submit, Cancel, Stop, Dispatch, Begin, Finish, CallbackEnds, Cleanup;
    match op
    case DoSubmit(r) => SubmitKeeps(q, r, max);
    case DoCancel(id) => CancelKeeps(q, id, max);
    case DoStop => StopKeeps(q, max);
    case DoDispatch => DispatchKeeps(q, max);
    case DoBegin(id) => BeginKeeps(q, id, max);
    case DoFinish(id, outcome, awaits) => FinishKeeps(q, id, outcome, awaits, max);
    case DoCallbackEnds(id, cancelled) => CallbackEndsKeeps(q, id, cancelled, max);
    case DoCleanup(id) => CleanupKeeps(q, id, max);
  }

  /** Every reachable state satisfies the invariant. */
  lemma {:induction false} RunKeeps(q: Queue, ops: seq<Op>, max: nat)
    requires Inv(q, max) && Legal(q, ops, max) && max >= 1
    ensures Inv(Run(q, ops, max), max)
    decreases |ops|
  {
    hide Inv, Next, Enabled;
    if ops != [] {
      NextKeeps(q, ops[0], max);
      RunKeeps(Next(q, ops[0], max), ops[1..], max);
    }
  }
}
