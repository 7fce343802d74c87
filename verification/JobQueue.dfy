/** The job queue object. Each method is the code between two awaits, and does to the fields what
    the step function of the same purpose says. */
module JobQueueObject {
  import opened Sequences
  import opened StableSort
  import JobSteps
  import opened JobTypes = JobSteps
  import opened JobInvariants

  class JobQueue {
    const maxConcurrent: nat
    var status: map<JobId, Status>
    var events: set<JobId>
    var pending: seq<Rec>
    var file: seq<Line>
    var tasks: map<JobId, Phase>
    var asked: set<JobId>
    var wakeup: bool
    var running: bool
    var pc: Pc
    ghost var all: seq<Rec>
    ghost var early: set<JobId>

    ghost function State(): Queue
      reads this
    {
      Queue(status, events, pending, file, tasks, asked, wakeup, running, pc, all, early)
    }

    constructor (maxConcurrent: nat, persisted: seq<Line>)
      ensures State() == JobSteps.Unused(persisted) && this.maxConcurrent == maxConcurrent
      ensures !running && pc == Exited && status == map[] && pending == [] && tasks == map[] && file == persisted
    {
      this.maxConcurrent := maxConcurrent;
      status, events, pending, file, tasks, asked := map[], {}, [], persisted, map[], {};
      wakeup, running, pc := false, false, Exited;
      all, early := [], {};
    }

    /** Keeps the list sorted: in front of the first job of lower priority. */
    method Enqueue(r: Rec)
      modifies this`pending
      ensures pending == Insert(ByPriority(), r, old(pending))
    {
      var i := 0;
      while i < |pending| && !(r.priority > pending[i].priority)
        invariant i <= |pending|
        invariant pending[..i] + Insert(ByPriority(), r, pending[i..]) == Insert(ByPriority(), r, pending)
      {
        var rest := pending[i..];
        assert Insert(ByPriority(), r, rest) == [rest[0]] + Insert(ByPriority(), r, rest[1..]);
        assert rest[1..] == pending[i + 1..];
        assert pending[..i + 1] == pending[..i] + [rest[0]];
        i := i + 1;
      }
      assert Insert(ByPriority(), r, pending[i..]) == [r] + pending[i..];
      pending := pending[..i] + [r] + pending[i..];
    }

    /** Rewrites the file without the job's lines, unless some line cannot be read. */
    method RemoveFromFile(id: JobId)
      modifies this`file
      ensures file == Unpersist(old(file), id)
    {
      var lines, remaining: seq<Line> := file, [];
      for i := 0 to |lines|
        invariant lines == file == old(file)
        invariant Legible(lines[..i]) && remaining == Filter(NotOf(id), lines[..i])
      {
        if !lines[i].Row? {
          assert !Legible(lines);
          return;
        }
        FilterNext(NotOf(id), lines, i);
        if lines[i].rec.id != id { remaining := remaining + [lines[i]]; } else { assert remaining + [] == remaining; }
      }
      assert lines[..|lines|] == lines;
      file := remaining;
    }

    method LoadPersisted() returns (jobs: seq<Rec>)
      ensures jobs == Listed(file)
    {
      hide Rows, Dedupe;
      jobs := [];
      NothingListed();
      var seen: set<JobId> := {};
      for i := 0 to |file|
        invariant jobs == Listed(file[..i]) && seen == Ids(jobs)
      {
        assert file[..i + 1] == file[..i] + [file[i]];
        RowsAppend(file[..i], [file[i]]);
        if !file[i].Row? {
          NoRow(file[i]);
          assert Rows(file[..i]) + [] == Rows(file[..i]);
          continue;
        }
        var rec := file[i].rec;
        OneRow(rec);
        DedupeLast(Rows(file[..i]), rec);
        if rec.id != "" && rec.id !in seen {
          seen := seen + {rec.id};
          IdsSnoc(jobs, rec);
          jobs := jobs + [rec];
        }
      }
      assert file[..|file|] == file;
    }

    /** Puts recovered jobs back, one after the other. */
    method Requeue(recovered: seq<Rec>)
      modifies this`status, this`pending, this`events
      ensures status == old(status) + AllPending(Ids(recovered))
      ensures events == old(events) - Ids(recovered)
      ensures pending == InsertAll(old(pending), recovered)
    {
      hide Insert, AllPending, Ids;
      NobodyPending();
      assert status + map[] == status && events - {} == events;
      for i := 0 to |recovered|
        invariant pending == InsertAll(old(pending), recovered[..i])
        invariant status == old(status) + AllPending(Ids(recovered[..i]))
        invariant events == old(events) - Ids(recovered[..i])
      {
        assert recovered[..i + 1] == recovered[..i] + [recovered[i]];
        assert recovered[..i + 1][..i] == recovered[..i];
        IdsSnoc(recovered[..i], recovered[i]);
        OneMorePending(old(status), Ids(recovered[..i]), recovered[i].id);
        status := status[recovered[i].id := Pending];
        events := events - {recovered[i].id};
        Enqueue(recovered[i]);
      }
      assert recovered[..|recovered|] == recovered;
    }

    /** Does nothing when already running. */
    method Start()
      requires running || pc == Exited
      modifies this
      ensures State() == if old(running) then old(State()) else Restart(old(State()))
    {
      hide Listed, InsertAll;
      if running { return; }
      var recovered := LoadPersisted();
      Requeue(recovered);
      if recovered != [] { wakeup := true; }
      running, pc := true, Top;
      all, early := all + recovered, Ids(all) + Ids(recovered);
    }

    method Stop()
      modifies this`running, this`wakeup
      ensures State() == JobSteps.Stop(old(State()))
    {
      running, wakeup := false, true;
    }

    method Submit(r: Rec)
      requires r.id !in status && r.id !in events
      modifies this
      ensures State() == JobSteps.Submit(old(State()), r)
    {
      status := status[r.id := Pending];
      Enqueue(r);
      file := file + [Row(r)];
      wakeup := true;
      all, early := all + [r], if pc.Exited? then early else early + {r.id};
    }

    method Cancel(id: JobId) returns (ok: bool)
      modifies this
      ensures (State(), ok) == JobSteps.Cancel(old(State()), id)
    {
      if id !in status { return false; }
      if status[id] == Cancelled { return true; }
      if status[id] == Completed || status[id] == Failed { return false; }
      if status[id] == Pending {
        pending := RemoveFirst(pending, id);
        status := status[id := Cancelled];
        events := events + {id};
        RemoveFromFile(id);
        return true;
      }
      if id in tasks && tasks[id] != Finished {
        asked := asked + {id};
        return true;
      }
      return false;
    }

    /** The dispatcher's loop, up to where it next waits or returns. */
    method Dispatch()
      modifies this`pending, this`tasks, this`wakeup, this`pc
      ensures State() == JobSteps.Dispatch(old(State()), maxConcurrent)
    {
      var waits := false;
      while !waits && (running || pending != [])
        invariant running == old(running) && status == old(status) && events == old(events) && file == old(file)
        invariant asked == old(asked) && all == old(all) && early == old(early)
        invariant (if waits then State() else JobSteps.Dispatch(State(), maxConcurrent)) == JobSteps.Dispatch(old(State()), maxConcurrent)
        decreases |pending|, !waits
      {
        if pending == [] {
          wakeup, pc, waits := false, AtWake, true;
        } else if tasks != map[] && |tasks| >= maxConcurrent {
          pc, waits := AtSlot(tasks.Keys), true;
        } else {
          ghost var before := State();
          var job := pending[0];
          pending, tasks, pc := pending[1..], tasks[job.id := Launched], Top;
          assert State() == Launch(before);
        }
      }
      if !waits { pc := Exited; }
    }

    method Begin(id: JobId)
      requires id in status && id in tasks
      modifies this`status, this`tasks
      ensures State() == JobSteps.Begin(old(State()), id)
    {
      if status[id] == Cancelled {
        tasks := tasks[id := Finished];
        return;
      }
      status := status[id := Running];
      tasks := tasks[id := Executing];
    }

    method Finish(id: JobId, outcome: Status, awaits: bool)
      requires id in tasks && Terminal(outcome)
      modifies this`status, this`tasks, this`file, this`events
      ensures State() == JobSteps.Finish(old(State()), id, outcome, awaits)
    {
      status := status[id := outcome];
      RemoveFromFile(id);
      if outcome == Completed && awaits {
        tasks := tasks[id := InCallback];
        return;
      }
      events := events + {id};
      tasks := tasks[id := Finished];
    }

    method CallbackEnds(id: JobId, cancelled: bool)
      requires id in tasks
      modifies this`status, this`tasks, this`file, this`events
      ensures State() == JobSteps.CallbackEnds(old(State()), id, cancelled)
    {
      if cancelled {
        status := status[id := Cancelled];
        RemoveFromFile(id);
      }
      events := events + {id};
      tasks := tasks[id := Finished];
    }

    method Cleanup(id: JobId)
      modifies this`tasks
      ensures State() == JobSteps.Cleanup(old(State()), id)
    {
      tasks := tasks - {id};
    }
  }

  lemma NobodyPending()
    ensures Ids([]) == {} && AllPending({}) == map[]
  {
  }

  lemma OneMorePending(status: map<JobId, Status>, ids: set<JobId>, id: JobId)
    ensures (status + AllPending(ids))[id := Pending] == status + AllPending(ids + {id})
  {
  }

  lemma NothingListed()
    ensures Listed([]) == []
  {
  }

  lemma NoRow(l: Line)
    requires !l.Row?
    ensures Rows([l]) == []
  {
    assert [l][1..] == [];
  }
}
