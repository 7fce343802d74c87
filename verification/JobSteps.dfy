/** The priority job queue as a state machine: each function is what happens between two awaits. */
module JobSteps {
  import opened Sequences
  import opened StableSort

  type JobId = string

  /** What is persisted of a job; payload stands for the query, route and creation time. */
  datatype Rec = Rec(id: JobId, priority: int, payload: string)

  /** A line of the persistence file. */
  datatype Line = Blank | Garbled | Row(rec: Rec)

  datatype Status = Pending | Running | Completed | Failed | Cancelled

  /** Where an in-flight task stands: created but not yet run, awaiting the orchestrator,
      awaiting the job's callback, or finished with its cleanup still to run. */
  datatype Phase = Launched | Executing | InCallback | Finished

  /** Where the dispatcher stands: about to test its loop condition, awaiting `_wakeup`,
      awaiting one of the tasks in snap, or returned. */
  datatype Pc = Top | AtWake | AtSlot(snap: set<JobId>) | Exited

  /** all and early are history: every job in order of arrival, and those that arrived before
      the dispatcher returned. */
  datatype Queue = Queue(status: map<JobId, Status>, events: set<JobId>, pending: seq<Rec>, file: seq<Line>,
                         tasks: map<JobId, Phase>, asked: set<JobId>, wakeup: bool, running: bool, pc: Pc,
                         all: seq<Rec>, early: set<JobId>)

  predicate Terminal(s: Status) { s.Completed? || s.Failed? || s.Cancelled? }

  /** Higher priority first; equal priorities keep their order. */
  function ByPriority(): (Rec, Rec) -> bool { (a: Rec, b: Rec) => a.priority >= b.priority }

  function Other(id: JobId): Rec -> bool { (r: Rec) => r.id != id }

  function Alive(status: map<JobId, Status>): Rec -> bool {
    (r: Rec) => r.id in status && !Terminal(status[r.id])
  }

  /** Waiting in the pending list: not finished, and no task made for it yet. */
  function Queued(status: map<JobId, Status>, tasks: map<JobId, Phase>): Rec -> bool {
    (r: Rec) => r.id in status && status[r.id] == Pending && r.id !in tasks
  }

  function Ids(s: seq<Rec>): set<JobId> { set r | r in s :: r.id }

  predicate Legible(file: seq<Line>) { forall i :: 0 <= i < |file| ==> file[i].Row? }

  /** The records of a file; recovery skips the other lines. */
  function Rows(file: seq<Line>): seq<Rec> {
    if file == [] then []
    else (if file[0].Row? then [file[0].rec] else []) + Rows(file[1..])
  }

  /** The first record of each non-empty id. */
  function Dedupe(recs: seq<Rec>): (r: seq<Rec>)
    ensures |r| <= |recs|
  {
    if recs == [] then []
    else
      var before, last := Dedupe(recs[..|recs| - 1]), recs[|recs| - 1];
      if last.id == "" || last.id in Ids(before) then before else before + [last]
  }

  /** The jobs that recovery reads out of a file. */
  function Listed(file: seq<Line>): seq<Rec> { Dedupe(Rows(file)) }

  function NotOf(id: JobId): Line -> bool { (l: Line) => l.Row? && l.rec.id != id }

  /** Removing a job's lines. One line that cannot be read makes the removal give up. */
  function Unpersist(file: seq<Line>, id: JobId): seq<Line> {
    if Legible(file) then Filter(NotOf(id), file) else file
  }

  /** The records put into a pending list, one after the other. */
  function InsertAll(pending: seq<Rec>, recs: seq<Rec>): seq<Rec> {
    if recs == [] then pending
    else Insert(ByPriority(), recs[|recs| - 1], InsertAll(pending, recs[..|recs| - 1]))
  }

  /** Constructed over an existing file: nothing submitted, no dispatcher. */
  function Unused(file: seq<Line>): Queue {
    Queue(map[], {}, [], file, map[], {}, false, false, Exited, [], {})
  }

  function AllPending(ids: set<JobId>): map<JobId, Status> { map id | id in ids :: Pending }

  /** `start()` without a dispatcher: the file's jobs are queued, whatever is queued already. */
  function Restart(q: Queue): Queue {
    var recs := Listed(q.file);
    q.(status := q.status + AllPending(Ids(recs)),
       events := q.events - Ids(recs),
       pending := InsertAll(q.pending, recs),
       wakeup := q.wakeup || recs != [],
       running := true,
       pc := Top,
       all := q.all + recs,
       early := Ids(q.all) + Ids(recs))
  }

  /** `start()` on a new queue. */
  function Start(file: seq<Line>): Queue { Restart(Unused(file)) }

  function Submit(q: Queue, r: Rec): Queue {
    q.(status := q.status[r.id := Pending],
       pending := Insert(ByPriority(), r, q.pending),
       file := q.file + [Row(r)],
       wakeup := true,
       all := q.all + [r],
       early := if q.pc.Exited? then q.early else q.early + {r.id})
  }

  /** Drops one record of the job. */
  function RemoveFirst(s: seq<Rec>, id: JobId): (r: seq<Rec>)
    ensures |r| <= |s|
  {
    if s == [] then [] else if s[0].id == id then s[1..] else [s[0]] + RemoveFirst(s[1..], id)
  }

  /** The state after `cancel(id)`, and what it returns. */
  function Cancel(q: Queue, id: JobId): (Queue, bool) {
    if id !in q.status then (q, false)
    else
      match q.status[id]
      case Cancelled => (q, true)
      case Completed => (q, false)
      case Failed => (q, false)
      case Pending =>
        (q.(pending := RemoveFirst(q.pending, id),
            status := q.status[id := Cancelled],
            events := q.events + {id},
            file := Unpersist(q.file, id)), true)
      case Running =>
        if id in q.tasks && q.tasks[id] != Finished then (q.(asked := q.asked + {id}), true) else (q, false)
  }

  function Stop(q: Queue): Queue { q.(running := false, wakeup := true) }

  function Launch(q: Queue): Queue
    requires q.pending != []
  {
    q.(pending := q.pending[1..], tasks := q.tasks[q.pending[0].id := Launched], pc := Top)
  }

  /** The dispatcher from its loop test to its next await, or to its return. */
  function Dispatch(q: Queue, max: nat): Queue
    decreases |q.pending|
  {
    if !q.running && q.pending == [] then q.(pc := Exited)
    else if q.pending == [] then q.(wakeup := false, pc := AtWake)
    else if q.tasks != map[] && |q.tasks| >= max then q.(pc := AtSlot(q.tasks.Keys))
    else Dispatch(Launch(q), max)
  }

  /** The task's first step. A job cancelled in the meantime is not run. */
  function Begin(q: Queue, id: JobId): Queue
    requires id in q.status
  {
    if q.status[id] == Cancelled then q.(tasks := q.tasks[id := Finished])
    else q.(status := q.status[id := Running], tasks := q.tasks[id := Executing])
  }

  /** The orchestrator call ends, in any of the three ways; awaits says that the job completed
      and has a callback whose coroutine is awaited next. */
  function Finish(q: Queue, id: JobId, outcome: Status, awaits: bool): Queue {
    var waits := outcome.Completed? && awaits;
    q.(status := q.status[id := outcome],
       file := Unpersist(q.file, id),
       events := if waits then q.events else q.events + {id},
       tasks := q.tasks[id := if waits then InCallback else Finished])
  }

  /** The awaited callback ends. An ordinary exception is swallowed, but a CancelledError out of
      the callback reaches the handler meant for user cancellation. */
  function CallbackEnds(q: Queue, id: JobId, cancelled: bool): Queue {
    q.(status := if cancelled then q.status[id := Cancelled] else q.status,
       file := if cancelled then Unpersist(q.file, id) else q.file,
       events := q.events + {id},
       tasks := q.tasks[id := Finished])
  }

  function Cleanup(q: Queue, id: JobId): Queue { q.(tasks := q.tasks - {id}) }

  datatype Op =
    | DoSubmit(rec: Rec)
    | DoCancel(id: JobId)
    | DoStop
    | DoDispatch
    | DoBegin(id: JobId)
    | DoFinish(id: JobId, outcome: Status, awaits: bool)
    | DoCallbackEnds(id: JobId, cancelled: bool)
    | DoCleanup(id: JobId)

  /** The dispatcher can go on: it has not run yet, its event is set, or a task that it waits for
      has ended (whose cleanup, registered first, has then run). */
  predicate CanDispatch(q: Queue) {
    match q.pc
    case Top => true
    case AtWake => q.wakeup
    case AtSlot(snap) => exists id :: id in snap && id !in q.tasks
    case Exited => false
  }

  /** Job ids are fresh; the scheduler runs a task only from where it stands. */
  predicate Enabled(q: Queue, op: Op) {
    match op
    case DoSubmit(r) => r.id != "" && r.id !in q.status
    case DoCancel(_) => true
    case DoStop => true
    case DoDispatch => CanDispatch(q)
    case DoBegin(id) => id in q.tasks && q.tasks[id] == Launched && id in q.status
    case DoFinish(id, outcome, _) => id in q.tasks && q.tasks[id] == Executing && Terminal(outcome)
    case DoCallbackEnds(id, _) => id in q.tasks && q.tasks[id] == InCallback
    case DoCleanup(id) => id in q.tasks && q.tasks[id] == Finished
  }

  function Next(q: Queue, op: Op, max: nat): Queue
    requires Enabled(q, op)
  {
    match op
    case DoSubmit(r) => Submit(q, r)
    case DoCancel(id) => Cancel(q, id).0
    case DoStop => Stop(q)
    case DoDispatch => Dispatch(q, max)
    case DoBegin(id) => Begin(q, id)
    case DoFinish(id, outcome, awaits) => Finish(q, id, outcome, awaits)
    case DoCallbackEnds(id, cancelled) => CallbackEnds(q, id, cancelled)
    case DoCleanup(id) => Cleanup(q, id)
  }

  predicate Legal(q: Queue, ops: seq<Op>, max: nat)
    decreases |ops|
  {
    ops == [] || (Enabled(q, ops[0]) && Legal(Next(q, ops[0], max), ops[1..], max))
  }

  function Run(q: Queue, ops: seq<Op>, max: nat): Queue
    requires Legal(q, ops, max)
    decreases |ops|
  {
    if ops == [] then q else Run(Next(q, ops[0], max), ops[1..], max)
  }
}
