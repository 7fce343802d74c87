/** The three bi-temporal queries and where they agree. */
module AuditQueries {
  import opened Sequences
  import opened StableSort
  import opened AuditLog

  datatype Axis = Valid | Transaction

  function Key(e: Entry, axis: Axis): int {
    match axis case Valid => e.content.validTime case Transaction => e.content.transactionTime
  }

  function ByKey(axis: Axis): (Entry, Entry) -> bool { (a, b) => Key(a, axis) <= Key(b, axis) }

  /** record_ids named by some entry's correction_of. */
  function Superseded(es: seq<Entry>): set<string> {
    set e | e in es && e.content.correctionOf.Some? :: e.content.correctionOf.value
  }

  function Counts(dead: set<string>, job: string): Entry -> bool {
    (e: Entry) => e.content.jobId == job && e.content.recordId !in dead
  }

  function NotAfter(axis: Axis, t: int): Entry -> bool { (e: Entry) => Key(e, axis) <= t }

  /** The entries that n does not correct. */
  function Uncorrected(n: Entry): Entry -> bool {
    (e: Entry) => n.content.correctionOf != Some(e.content.recordId)
  }

  /** The job's entries that no correction has superseded, in file order. */
  function Rows(es: seq<Entry>, job: string): seq<Entry> { Filter(Counts(Superseded(es), job), es) }

  function History(es: seq<Entry>, job: string, axis: Axis): seq<Entry> { Sort(ByKey(axis), Rows(es, job)) }

  /** Python's `max`: the first of the greatest. */
  function FirstMax(rows: seq<Entry>, axis: Axis): (m: Entry)
    requires rows != []
  {
    if |rows| == 1 then rows[0]
    else
      var m := FirstMax(rows[..|rows| - 1], axis);
      if Key(rows[|rows| - 1], axis) > Key(m, axis) then rows[|rows| - 1] else m
  }

  function StateAsOf(es: seq<Entry>, job: string, t: int, axis: Axis): Option<Entry> {
    var rows := Filter(NotAfter(axis, t), Rows(es, job));
    if rows == [] then None else Some(FirstMax(rows, axis))
  }

  function LastMax(rows: seq<Entry>, axis: Axis): (m: Entry)
    requires rows != []
  {
    if |rows| == 1 then rows[0]
    else
      var m := LastMax(rows[..|rows| - 1], axis);
      if Key(rows[|rows| - 1], axis) >= Key(m, axis) then rows[|rows| - 1] else m
  }

  lemma ByKeyIsTotal(axis: Axis)
    ensures TotalPreorder(ByKey(axis))
  {
  }

  lemma {:induction false} LastMaxIsLastOfSort(rows: seq<Entry>, axis: Axis)
    requires rows != []
    ensures LastMax(rows, axis) == Sort(ByKey(axis), rows)[|rows| - 1]
    decreases |rows|
  {
    var init := rows[..|rows| - 1];
    if init == [] {
      assert Sort(ByKey(axis), init) == [];
    } else {
      LastMaxIsLastOfSort(init, axis);
      ByKeyIsTotal(axis);
      LastStep(ByKey(axis), init, rows[|rows| - 1]);
    }
  }

  /** An entry of the job that no entry of the log corrects. */
  ghost predicate Live(es: seq<Entry>, job: string, e: Entry) {
    e in es && e.content.jobId == job && forall d :: d in es ==> d.content.correctionOf != Some(e.content.recordId)
  }

  lemma RowsAreLive(es: seq<Entry>, job: string)
    ensures forall e :: e in Rows(es, job) <==> Live(es, job, e)
    ensures forall e :: Live(es, job, e) <==> e in es && e.content.jobId == job && e.content.recordId !in Superseded(es)
  {
    FilterMembers(Counts(Superseded(es), job), es);
  }

  /** Scanning the whole log gives, for each job, the last element of its history, tied keys included:
      a live entry with the latest valid time, or the latest transaction time. */
  method CurrentState(es: seq<Entry>, axis: Axis) returns (latest: map<string, Entry>)
    ensures forall job :: job in latest <==> exists e :: Live(es, job, e)
    ensures forall job :: job in latest ==> Live(es, job, latest[job])
    ensures axis == Valid ==> forall job, e :: job in latest && Live(es, job, e) ==>
              e.content.validTime <= latest[job].content.validTime
    ensures axis == Transaction ==> forall job, e :: job in latest && Live(es, job, e) ==>
              e.content.transactionTime <= latest[job].content.transactionTime
    ensures forall job :: job in latest <==> History(es, job, axis) != []
    ensures forall job :: job in latest ==> latest[job] == History(es, job, axis)[|History(es, job, axis)| - 1]
  {
    var dead := Superseded(es);
    latest := map[];
    for i := 0 to |es|
      invariant IsLatest(latest, es[..i], dead, axis)
    {
      var e := es[i];
      LatestNext(latest, es, i, dead, axis);
      if e.content.recordId in dead { continue; }
      var job := e.content.jobId;
      if job !in latest || Key(e, axis) >= Key(latest[job], axis) { latest := latest[job := e]; }
    }
    assert es[..|es|] == es;
    forall job
      ensures job in latest <==> History(es, job, axis) != []
      ensures job in latest <==> exists e :: Live(es, job, e)
      ensures job in latest ==> latest[job] == History(es, job, axis)[|History(es, job, axis)| - 1]
      ensures job in latest ==> Live(es, job, latest[job])
      ensures job in latest ==> forall e :: Live(es, job, e) ==> Key(e, axis) <= Key(latest[job], axis)
    {
      assert LatestOf(latest, Rows(es, job), job, axis);
      LatestIsLive(es, job, axis);
    }
  }

  lemma LatestIsLive(es: seq<Entry>, job: string, axis: Axis)
    ensures Rows(es, job) != [] <==> exists e :: Live(es, job, e)
    ensures History(es, job, axis) == [] <==> Rows(es, job) == []
    ensures Rows(es, job) != [] ==>
      var last := LastMax(Rows(es, job), axis);
      && last == History(es, job, axis)[|Rows(es, job)| - 1]
      && Live(es, job, last) && forall e :: Live(es, job, e) ==> Key(e, axis) <= Key(last, axis)
  {
    hide Rows, Live, LastMax, Key;
    var rows := Rows(es, job);
    RowsAreLive(es, job);
    if rows != [] {
      LastMaxIsLastOfSort(rows, axis);
      var k := LastMaxFacts(rows, axis);
      assert rows[k] in rows;
      forall e | Live(es, job, e)
        ensures Key(e, axis) <= Key(rows[k], axis)
      {
        var i :| 0 <= i < |rows| && rows[i] == e;
      }
    }
  }

  ghost predicate IsLatest(latest: map<string, Entry>, es: seq<Entry>, dead: set<string>, axis: Axis) {
    forall job :: LatestOf(latest, Filter(Counts(dead, job), es), job, axis)
  }

  predicate LatestOf(latest: map<string, Entry>, rows: seq<Entry>, job: string, axis: Axis) {
    (job in latest <==> rows != []) && (job in latest ==> latest[job] == LastMax(rows, axis))
  }

  function Advance(latest: map<string, Entry>, e: Entry, dead: set<string>, axis: Axis): map<string, Entry> {
    var job := e.content.jobId;
    if e.content.recordId in dead || (job in latest && Key(e, axis) < Key(latest[job], axis)) then latest
    else latest[job := e]
  }

  lemma LastMaxSnoc(rows: seq<Entry>, e: Entry, axis: Axis)
    ensures LastMax(rows + [e], axis) == if rows == [] || Key(e, axis) >= Key(LastMax(rows, axis), axis) then e else LastMax(rows, axis)
  {
    assert (rows + [e])[..|rows|] == rows;
  }

  lemma LatestNext(latest: map<string, Entry>, es: seq<Entry>, i: nat, dead: set<string>, axis: Axis)
    requires i < |es| && IsLatest(latest, es[..i], dead, axis)
    ensures IsLatest(Advance(latest, es[i], dead, axis), es[..i + 1], dead, axis)
  {
    forall job
      ensures LatestOf(Advance(latest, es[i], dead, axis), Filter(Counts(dead, job), es[..i + 1]), job, axis)
    {
      var rows := Filter(Counts(dead, job), es[..i]);
      assert LatestOf(latest, rows, job, axis);
      FilterNext(Counts(dead, job), es, i);
      if Counts(dead, job)(es[i]) { LastMaxSnoc(rows, es[i], axis); } else { assert rows + [] == rows; }
    }
  }

  // ------------------------------------------------- as-of answers

  lemma {:induction false} FirstMaxFacts(rows: seq<Entry>, axis: Axis) returns (k: nat)
    requires rows != []
    ensures k < |rows| && rows[k] == FirstMax(rows, axis)
    ensures forall i :: 0 <= i < |rows| ==> Key(rows[i], axis) <= Key(rows[k], axis)
    ensures forall i :: 0 <= i < k ==> Key(rows[i], axis) < Key(rows[k], axis)
    decreases |rows|
  {
    if |rows| == 1 {
      k := 0;
    } else {
      k := FirstMaxFacts(rows[..|rows| - 1], axis);
      if Key(rows[|rows| - 1], axis) > Key(rows[k], axis) { k := |rows| - 1; }
    }
  }

  lemma {:induction false} LastMaxFacts(rows: seq<Entry>, axis: Axis) returns (k: nat)
    requires rows != []
    ensures k < |rows| && rows[k] == LastMax(rows, axis)
    ensures forall i :: 0 <= i < |rows| ==> Key(rows[i], axis) <= Key(rows[k], axis)
    ensures forall i :: k < i < |rows| ==> Key(rows[i], axis) < Key(rows[k], axis)
    decreases |rows|
  {
    if |rows| == 1 {
      k := 0;
    } else {
      k := LastMaxFacts(rows[..|rows| - 1], axis);
      if Key(rows[|rows| - 1], axis) >= Key(rows[k], axis) { k := |rows| - 1; }
    }
  }

  lemma RowMembers(es: seq<Entry>, job: string, t: int, axis: Axis)
    ensures forall e :: e in Filter(NotAfter(axis, t), Rows(es, job)) <==>
      e in es && e.content.jobId == job && e.content.recordId !in Superseded(es) && Key(e, axis) <= t
  {
    FilterMembers(Counts(Superseded(es), job), es);
    FilterMembers(NotAfter(axis, t), Rows(es, job));
  }

  /** `state_as_of` answers with a live entry of the job whose key is the greatest one not after t,
      and with None exactly when there is no such entry. */
  lemma AsOfIsGreatest(es: seq<Entry>, job: string, t: int, axis: Axis)
    ensures
      var answer := StateAsOf(es, job, t, axis);
      && (answer.None? <==> forall e :: e in es && e.content.jobId == job && e.content.recordId !in Superseded(es) ==> Key(e, axis) > t)
      && (answer.Some? ==>
            && answer.value in es && answer.value.content.jobId == job
            && answer.value.content.recordId !in Superseded(es) && Key(answer.value, axis) <= t
            && forall e :: e in es && e.content.jobId == job && e.content.recordId !in Superseded(es) && Key(e, axis) <= t
                 ==> Key(e, axis) <= Key(answer.value, axis))
  {
    RowMembers(es, job, t, axis);
    var rows := Filter(NotAfter(axis, t), Rows(es, job));
    if rows != [] {
      var k := FirstMaxFacts(rows, axis);
      assert rows[k] in rows;
      forall e | e in rows
        ensures Key(e, axis) <= Key(rows[k], axis)
      {
        var i :| 0 <= i < |rows| && rows[i] == e;
      }
    } else {
      forall e | e in es && e.content.jobId == job && e.content.recordId !in Superseded(es)
        ensures Key(e, axis) > t
      {
        assert e !in rows;
      }
    }
  }

  /** On the valid axis the question is about the time of the event. */
  lemma ValidTimeAnswer(es: seq<Entry>, job: string, t: int)
    ensures
      var answer := StateAsOf(es, job, t, Valid);
      && (answer.None? <==> forall e :: Live(es, job, e) ==> e.content.validTime > t)
      && (answer.Some? ==>
            && Live(es, job, answer.value) && answer.value.content.validTime <= t
            && forall e :: Live(es, job, e) && e.content.validTime <= t ==> e.content.validTime <= answer.value.content.validTime)
  {
    hide Rows, StateAsOf;
    AsOfIsGreatest(es, job, t, Valid);
    RowsAreLive(es, job);
  }

  /** On the transaction axis it is about the time of the recording. */
  lemma TransactionTimeAnswer(es: seq<Entry>, job: string, t: int)
    ensures
      var answer := StateAsOf(es, job, t, Transaction);
      && (answer.None? <==> forall e :: Live(es, job, e) ==> e.content.transactionTime > t)
      && (answer.Some? ==>
            && Live(es, job, answer.value) && answer.value.content.transactionTime <= t
            && forall e :: Live(es, job, e) && e.content.transactionTime <= t
                 ==> e.content.transactionTime <= answer.value.content.transactionTime)
  {
    hide Rows, StateAsOf;
    AsOfIsGreatest(es, job, t, Transaction);
    RowsAreLive(es, job);
  }

  function AtKey(axis: Axis, x: int): Entry -> bool { (e: Entry) => Key(e, axis) == x }

  /** Sorting leaves the entries of one key as they were. */
  lemma TiesKeepFileOrder(rows: seq<Entry>, axis: Axis, x: int)
    ensures Filter(AtKey(axis, x), Sort(ByKey(axis), rows)) == Filter(AtKey(axis, x), rows)
  {
    var tied := Filter(AtKey(axis, x), rows);
    ByKeyIsTotal(axis);
    FilterSort(ByKey(axis), AtKey(axis, x), rows);
    FilterMembers(AtKey(axis, x), rows);
    assert forall i :: 0 <= i < |tied| ==> tied[i] in tied;
    SortOfSorted(ByKey(axis), tied);
  }

  /** What a history holds, whatever its order: the live entries of the job, each as often as the log holds it. */
  lemma HistoryHolds(es: seq<Entry>, job: string, axis: Axis)
    ensures forall e :: e in History(es, job, axis) <==> Live(es, job, e)
    ensures forall i, j :: 0 <= i < j < |History(es, job, axis)| ==>
      Key(History(es, job, axis)[i], axis) <= Key(History(es, job, axis)[j], axis)
  {
    hide Live, Rows;
    RowsAreLive(es, job);
    ByKeyIsTotal(axis);
    SortMembers(ByKey(axis), Rows(es, job));
    SortSorted(ByKey(axis), Rows(es, job));
  }

  /** On the valid axis the history is in the order of the events; events of one moment x are in file order. */
  lemma ValidTimeHistory(es: seq<Entry>, job: string, x: int)
    ensures
      var h, at := History(es, job, Valid), (e: Entry) => e.content.validTime == x;
      && (forall e :: e in h <==> Live(es, job, e))
      && (forall i, j :: 0 <= i < j < |h| ==> h[i].content.validTime <= h[j].content.validTime)
      && Filter(at, h) == Filter(at, Rows(es, job))
  {
    var at := (e: Entry) => e.content.validTime == x;
    HistoryHolds(es, job, Valid);
    TiesKeepFileOrder(Rows(es, job), Valid, x);
    FilterAgree(at, AtKey(Valid, x), History(es, job, Valid));
    FilterAgree(at, AtKey(Valid, x), Rows(es, job));
  }

  /** On the transaction axis it is in the order of the recordings. */
  lemma TransactionTimeHistory(es: seq<Entry>, job: string, x: int)
    ensures
      var h, at := History(es, job, Transaction), (e: Entry) => e.content.transactionTime == x;
      && (forall e :: e in h <==> Live(es, job, e))
      && (forall i, j :: 0 <= i < j < |h| ==> h[i].content.transactionTime <= h[j].content.transactionTime)
      && Filter(at, h) == Filter(at, Rows(es, job))
  {
    var at := (e: Entry) => e.content.transactionTime == x;
    HistoryHolds(es, job, Transaction);
    TiesKeepFileOrder(Rows(es, job), Transaction, x);
    FilterAgree(at, AtKey(Transaction, x), History(es, job, Transaction));
    FilterAgree(at, AtKey(Transaction, x), Rows(es, job));
  }

  ghost predicate DistinctIds(es: seq<Entry>) {
    forall i, j :: 0 <= i < j < |es| ==> es[i].content.recordId != es[j].content.recordId
  }

  lemma {:induction false} FilterDistinctIds(p: Entry -> bool, es: seq<Entry>)
    requires DistinctIds(es)
    ensures DistinctIds(Filter(p, es))
  {
    if es != [] {
      FilterDistinctIds(p, es[1..]);
      FilterMembers(p, es[1..]);
      var rest := Filter(p, es[1..]);
      forall j | 0 <= j < |rest|
        ensures rest[j].content.recordId != es[0].content.recordId
      {
        assert rest[j] in rest;
        var i :| 0 <= i < |es| - 1 && es[1..][i] == rest[j];
        assert es[i + 1] == rest[j];
      }
    }
  }

  /** The history cut at t. */
  function HistoryUntil(es: seq<Entry>, job: string, t: int, axis: Axis): seq<Entry> {
    Filter(NotAfter(axis, t), History(es, job, axis))
  }

  /** The greatest key not after t belongs to one live entry of the job only. */
  ghost predicate Untied(es: seq<Entry>, job: string, t: int, axis: Axis) {
    var rows := Filter(NotAfter(axis, t), Rows(es, job));
    forall i, j :: 0 <= i < j < |rows| && Key(rows[i], axis) == Key(rows[j], axis) ==>
      exists k :: 0 <= k < |rows| && Key(rows[k], axis) > Key(rows[i], axis)
  }

  /** `state_as_of` is the last of the history cut at t if and only if its key is not tied:
      on a tie `max` keeps the entry recorded first, the history ends with the one recorded last. */
  lemma AsOfIsLastOfHistoryIff(es: seq<Entry>, job: string, t: int, axis: Axis)
    requires DistinctIds(es) && StateAsOf(es, job, t, axis).Some?
    ensures
      var cut := HistoryUntil(es, job, t, axis);
      cut != [] && (StateAsOf(es, job, t, axis).value == cut[|cut| - 1] <==> Untied(es, job, t, axis))
  {
    hide Filter, Sort, FirstMax, LastMax;
    var rows := Filter(NotAfter(axis, t), Rows(es, job));
    ByKeyIsTotal(axis);
    FilterSort(ByKey(axis), NotAfter(axis, t), Rows(es, job));
    LastMaxIsLastOfSort(rows, axis);
    FilterDistinctIds(Counts(Superseded(es), job), es);
    FilterDistinctIds(NotAfter(axis, t), Rows(es, job));
    var first := FirstMaxFacts(rows, axis);
    var last := LastMaxFacts(rows, axis);
    assert first != last ==> first < last && rows[first] != rows[last];
    if first == last {
      forall i, j | 0 <= i < j < |rows| && Key(rows[i], axis) == Key(rows[j], axis)
        ensures Key(rows[first], axis) > Key(rows[i], axis)
      {
      }
    } else {
      assert Key(rows[first], axis) == Key(rows[last], axis);
    }
  }

  // ------------------------------------------------- appending

  lemma SupersededSnoc(es: seq<Entry>, n: Entry)
    ensures Superseded(es + [n]) == Superseded(es) + if n.content.correctionOf.Some? then {n.content.correctionOf.value} else {}
  {
    forall id
      ensures id in Superseded(es + [n]) <==>
        id in Superseded(es) || n.content.correctionOf == Some(id)
    {
      if id in Superseded(es) {
        var e :| e in es && e.content.correctionOf == Some(id);
        assert e in es + [n];
      }
      if n.content.correctionOf == Some(id) { assert n in es + [n]; }
    }
  }

  /** What a late entry leaves of the rows at t: all but the one it corrects. */
  lemma RowsAfterAppend(es: seq<Entry>, n: Entry, job: string, t: int, axis: Axis)
    requires Key(n, axis) > t
    ensures Filter(NotAfter(axis, t), Rows(es + [n], job))
         == Filter(Uncorrected(n), Filter(NotAfter(axis, t), Rows(es, job)))
  {
    var dead, dead' := Superseded(es), Superseded(es + [n]);
    var keep := Uncorrected(n);
    SupersededSnoc(es, n);
    FilterAppend(Counts(dead', job), es, [n]);
    FilterAppend(NotAfter(axis, t), Filter(Counts(dead', job), es), Filter(Counts(dead', job), [n]));
    FilterFilter(NotAfter(axis, t), Counts(dead', job), es);
    FilterFilter(NotAfter(axis, t), Counts(dead, job), es);
    FilterFilter(keep, Both(NotAfter(axis, t), Counts(dead, job)), es);
    FilterAgree(Both(NotAfter(axis, t), Counts(dead', job)),
                Both(keep, Both(NotAfter(axis, t), Counts(dead, job))), es);
  }

  lemma FirstMaxSnoc(rows: seq<Entry>, e: Entry, axis: Axis)
    ensures FirstMax(rows + [e], axis) == if rows == [] || Key(e, axis) > Key(FirstMax(rows, axis), axis) then e else FirstMax(rows, axis)
  {
    assert (rows + [e])[..|rows|] == rows;
  }

  /** Dropping other rows leaves the first of the greatest alone. */
  lemma {:induction false} FirstMaxSurvives(rows: seq<Entry>, keep: Entry -> bool, axis: Axis)
    requires rows != [] && keep(FirstMax(rows, axis))
    ensures Filter(keep, rows) != [] && FirstMax(Filter(keep, rows), axis) == FirstMax(rows, axis)
    decreases |rows|
  {
    hide FirstMax;
    var init, last := rows[..|rows| - 1], rows[|rows| - 1];
    assert rows == init + [last];
    FirstMaxSnoc(init, last, axis);
    FilterAppend(keep, init, [last]);
    var kept := Filter(keep, init);
    assert Filter(keep, rows) == if keep(last) then kept + [last] else kept by { assert kept + [] == kept; }
    FirstMaxSnoc(kept, last, axis);
    if init != [] && Key(last, axis) <= Key(FirstMax(init, axis), axis) {
      FirstMaxSurvives(init, keep, axis);
    } else if kept != [] {
      FilterMembers(keep, init);
      var k := FirstMaxFacts(init, axis);
      var j := FirstMaxFacts(kept, axis);
      assert kept[j] in kept && kept[j] in init;
      var i :| 0 <= i < |init| && init[i] == kept[j];
    }
  }

  /** Appending an entry whose key is after t leaves the as-of answer at t alone if and only if
      it does not correct that very answer. */
  lemma LateEntryKeepsAnswerIff(es: seq<Entry>, n: Entry, job: string, t: int, axis: Axis)
    requires Key(n, axis) > t
    ensures
      StateAsOf(es + [n], job, t, axis) == StateAsOf(es, job, t, axis) <==>
        !(StateAsOf(es, job, t, axis).Some?
          && n.content.correctionOf == Some(StateAsOf(es, job, t, axis).value.content.recordId))
  {
    var rows := Filter(NotAfter(axis, t), Rows(es, job));
    var keep := Uncorrected(n);
    RowsAfterAppend(es, n, job, t, axis);
    if rows != [] {
      if keep(FirstMax(rows, axis)) {
        FirstMaxSurvives(rows, keep, axis);
      } else if Filter(keep, rows) != [] {
        FilterMembers(keep, rows);
        var k := FirstMaxFacts(Filter(keep, rows), axis);
        assert Filter(keep, rows)[k] in Filter(keep, rows);
      }
    }
  }
}
