/** The worker's half of the federation: which coordinator it talks to, and its heartbeats. */
module WorkerSchedule {
  import opened Sequences

  function Except(url: string): string -> bool { u => u != url }

  function NonEmpty(): string -> bool { u => u != "" }

  /** Sticky URL first, then the others as listed. */
  function UrlOrder(urls: seq<string>, sticky: string): (order: seq<string>) {
    if urls == [] then (if sticky != "" then [sticky] else [])
    else
      Filter(NonEmpty(), (if sticky != "" then [sticky] else []) + Filter(Except(sticky), urls))
  }

  /** For a claimed job the coordinator that handed it out goes first. */
  function ReportOrder(order: seq<string>, origin: string): seq<string> {
    if origin == "" then order
    else [origin] + Filter(Except(origin), order)
  }

  /** Every usable URL is tried, and only those; the sticky one first, none twice. */
  lemma UrlOrderIsComplete(urls: seq<string>, sticky: string)
    ensures forall u :: u in UrlOrder(urls, sticky) <==> u != "" && (u in urls || u == sticky)
    ensures sticky != "" ==> UrlOrder(urls, sticky) != [] && UrlOrder(urls, sticky)[0] == sticky
    ensures NoDuplicates(urls) ==> NoDuplicates(UrlOrder(urls, sticky))
  {
    if urls != [] {
      var first, rest := if sticky != "" then [sticky] else [], Filter(Except(sticky), urls);
      FilterMembers(Except(sticky), urls);
      FilterMembers(NonEmpty(), first + rest);
      if sticky != "" { assert (first + rest)[0] == sticky; }
      if NoDuplicates(urls) {
        FilterKeepsDistinct(Except(sticky), urls);
        forall j | 0 <= j < |rest|
          ensures rest[j] != sticky
        {
          assert rest[j] in rest;
        }
        FilterKeepsDistinct(NonEmpty(), first + rest);
      }
    }
  }

  /** The sticky URL comes from the list. */
  predicate Listed(urls: seq<string>, sticky: string) {
    if urls == [] then sticky == "" else sticky in urls
  }

  /** A failover from one listed URL to another keeps the same URLs in reach. */
  lemma FailoverLosesNothing(urls: seq<string>, sticky: string, next: string)
    requires Listed(urls, sticky) && Listed(urls, next)
    ensures forall u :: u in UrlOrder(urls, sticky) <==> u in UrlOrder(urls, next)
  {
    UrlOrderIsComplete(urls, sticky);
    UrlOrderIsComplete(urls, next);
  }

  /** Both orders hold listed URLs only. */
  lemma OrdersAreListed(urls: seq<string>, sticky: string, origin: string)
    requires Listed(urls, sticky) && (origin == "" || origin in UrlOrder(urls, sticky))
    ensures forall u :: u in UrlOrder(urls, sticky) ==> u in urls
    ensures forall u :: u in ReportOrder(UrlOrder(urls, sticky), origin) ==> u in urls
  {
    UrlOrderIsComplete(urls, sticky);
    if origin != "" { ReportOrderIsComplete(UrlOrder(urls, sticky), origin); }
  }

  /** Reports go to the origin first, and to every other URL of the order. */
  lemma ReportOrderIsComplete(order: seq<string>, origin: string)
    requires origin != ""
    ensures ReportOrder(order, origin)[0] == origin
    ensures forall u :: u in ReportOrder(order, origin) <==> u == origin || u in order
    ensures NoDuplicates(order) ==> NoDuplicates(ReportOrder(order, origin))
  {
    var rest := Filter(Except(origin), order);
    FilterMembers(Except(origin), order);
    if NoDuplicates(order) {
      FilterKeepsDistinct(Except(origin), order);
      forall j | 0 <= j < |rest|
        ensures rest[j] != origin
      {
        assert rest[j] in rest;
      }
    }
  }

  // ------------------------------------------------- heartbeats

  /** A heartbeat: when its post ended and whether it was answered, and each time it was handled. A post may
      be handled at several URLs in turn, and still fail. */
  datatype Beat = Beat(heard: seq<nat>, at: nat, ok: bool)

  /** When the k-th wait began: with the loop, or when the post before it ended. */
  function WaitBegan(beats: seq<Beat>, k: nat, start: nat): nat
    requires k <= |beats|
  {
    if k == 0 then start else beats[k - 1].at
  }

  /** One wait of a whole interval before each post; a post takes at most slowest and is handled while it lasts. */
  ghost predicate OnTime(beat: Beat, began: nat, interval: nat, slowest: nat) {
    && began + interval <= beat.at <= began + interval + slowest
    && (forall a :: 0 <= a < |beat.heard| ==> began + interval <= beat.heard[a] <= beat.at)
    && (beat.ok ==> beat.heard != [])
  }

  ghost predicate Schedule(beats: seq<Beat>, start: nat, interval: nat, slowest: nat) {
    forall k :: 0 <= k < |beats| ==> OnTime(beats[k], WaitBegan(beats, k, start), interval, slowest)
  }

  predicate ThreeFailures(beats: seq<Beat>, k: nat) {
    k + 3 <= |beats| && !beats[k].ok && !beats[k + 1].ok && !beats[k + 2].ok
  }

  /** When the coordinator last heard of the worker before beat k: in a heartbeat, or in the claim. */
  function LastReached(beats: seq<Beat>, k: nat, contact: nat): nat
    requires k <= |beats|
  {
    if k == 0 then contact
    else if beats[k - 1].heard != [] then beats[k - 1].heard[|beats[k - 1].heard| - 1]
    else LastReached(beats, k - 1, contact)
  }

  /** While no three posts in a row have failed, every post ends within three intervals and four posts
      of what the coordinator heard last: three posts of waiting, and the one in which it was heard. */
  lemma SilenceIsBounded(beats: seq<Beat>, contact: nat, start: nat, interval: nat, slowest: nat, k: nat)
    requires Schedule(beats, start, interval, slowest) && contact <= start <= contact + slowest && k < |beats|
    requires k >= 3 ==> !ThreeFailures(beats, k - 3)
    ensures beats[k].at <= LastReached(beats, k, contact) + 3 * interval + 4 * slowest
  {
    assert OnTime(beats[k], WaitBegan(beats, k, start), interval, slowest);
    if k > 0 {
      assert OnTime(beats[k - 1], WaitBegan(beats, k - 1, start), interval, slowest);
      if k > 1 && beats[k - 1].heard == [] {
        assert OnTime(beats[k - 2], WaitBegan(beats, k - 2, start), interval, slowest);
        if k > 2 && beats[k - 2].heard == [] {
          assert beats[k - 3].ok;
          assert OnTime(beats[k - 3], WaitBegan(beats, k - 3, start), interval, slowest);
        }
        assert LastReached(beats, k - 1, contact)
            == if beats[k - 2].heard != [] then beats[k - 2].heard[|beats[k - 2].heard| - 1] else LastReached(beats, k - 2, contact);
      }
    }
  }

  /** No post ends later than timeout after what the coordinator heard last. */
  ghost predicate Covers(beats: seq<Beat>, contact: nat, timeout: nat) {
    forall k :: 0 <= k < |beats| ==> beats[k].at <= LastReached(beats, k, contact) + timeout
  }

  /** The loop had not given up before its last beat. */
  ghost predicate Persistent(beats: seq<Beat>) {
    forall k :: 0 <= k < |beats| - 3 ==> !ThreeFailures(beats, k)
  }
}

module WorkerSurvival {
  import opened Sequences
  import opened FederationJobs
  import opened FederationTiming
  import opened WorkerSchedule

  /** When this worker's heartbeats for the job reached the coordinator. */
  function BeatTimes(ops: seq<Op>, id: string, worker: string): seq<nat> {
    if ops == [] then []
    else
      (if ops[0].HeartbeatOp? && ops[0].id == id && ops[0].worker == worker then [ops[0].now] else [])
      + BeatTimes(ops[1..], id, worker)
  }

  /** Times at most timeout apart, starting from contact. */
  predicate Close(times: seq<nat>, contact: nat, timeout: nat)
    decreases |times|
  {
    times == [] || (times[0] <= contact + timeout && Close(times[1..], times[0], timeout))
  }

  function Last(times: seq<nat>, contact: nat): nat {
    if times == [] then contact else times[|times| - 1]
  }

  /** Nobody else ends or restarts the job, and the reaper uses this timeout. */
  ghost predicate Undisturbed(ops: seq<Op>, id: string, timeout: nat) {
    forall k :: 0 <= k < |ops| ==>
      && (ops[k].ReapOp? ==> ops[k].timeout == timeout)
      && !(ops[k].CompleteOp? && ops[k].id == id) && !(ops[k].SubmitOp? && ops[k].job.id == id)
  }

  lemma {:induction false} BeatsComeLater(ops: seq<Op>, id: string, worker: string, from: nat)
    requires NonDecreasing(ops, from) && BeatTimes(ops, id, worker) != []
    ensures from <= OpTime(ops[0]) <= BeatTimes(ops, id, worker)[0]
    decreases |ops|
  {
    if !(ops[0].HeartbeatOp? && ops[0].id == id && ops[0].worker == worker) {
      BeatsComeLater(ops[1..], id, worker, OpTime(ops[0]));
    }
  }

  /** Heartbeats that are close enough keep the worker's traffic alive in the coordinator's sense. */
  lemma {:induction false} CloseBeatsKeepAlive(ops: seq<Op>, id: string, worker: string, contact: nat, from: nat, timeout: nat)
    requires contact <= from && NonDecreasing(ops, from) && Undisturbed(ops, id, timeout)
    requires Close(BeatTimes(ops, id, worker), contact, timeout)
    requires forall k :: 0 <= k < |ops| ==> OpTime(ops[k]) <= Last(BeatTimes(ops, id, worker), contact) + timeout
    ensures KeepsAlive(ops, id, worker, contact, timeout)
    decreases |ops|
  {
    if ops != [] {
      var times := BeatTimes(ops, id, worker);
      if times != [] { BeatsComeLater(ops, id, worker, from); }
      assert forall k :: 0 <= k < |ops| - 1 ==> ops[1..][k] == ops[k + 1];
      if ops[0].HeartbeatOp? && ops[0].id == id && ops[0].worker == worker {
        assert times[1..] == BeatTimes(ops[1..], id, worker);
        CloseBeatsKeepAlive(ops[1..], id, worker, ops[0].now, ops[0].now, timeout);
      } else {
        assert times == BeatTimes(ops[1..], id, worker);
        CloseBeatsKeepAlive(ops[1..], id, worker, contact, OpTime(ops[0]), timeout);
      }
    }
  }

  /** Each time the coordinator handled a heartbeat. */
  function HeardTimes(beats: seq<Beat>): seq<nat> {
    if beats == [] then []
    else HeardTimes(beats[..|beats| - 1]) + beats[|beats| - 1].heard
  }

  lemma {:induction false} LastOfReached(beats: seq<Beat>, contact: nat)
    ensures Last(HeardTimes(beats), contact) == LastReached(beats, |beats|, contact)
  {
    if beats != [] {
      LastOfReached(beats[..|beats| - 1], contact);
      LastReachedPrefix(beats, |beats| - 1, |beats| - 1, contact);
    }
  }

  lemma {:induction false} LastReachedPrefix(beats: seq<Beat>, n: nat, k: nat, contact: nat)
    requires k <= n <= |beats|
    ensures LastReached(beats[..n], k, contact) == LastReached(beats, k, contact)
    decreases k
  {
    if k > 0 { LastReachedPrefix(beats, n, k - 1, contact); }
  }

  lemma {:induction false} CloseSnoc(times: seq<nat>, t: nat, contact: nat, timeout: nat)
    requires Close(times, contact, timeout) && t <= Last(times, contact) + timeout
    ensures Close(times + [t], contact, timeout)
    decreases |times|
  {
    if times == [] {
      assert [t][1..] == [];
    } else {
      assert (times + [t])[1..] == times[1..] + [t];
      assert Last(times[1..], times[0]) == Last(times, contact);
      CloseSnoc(times[1..], t, times[0], timeout);
    }
  }

  /** The time before more[a] in times + more. */
  function TimeBefore(times: seq<nat>, more: seq<nat>, a: nat, contact: nat): nat
    requires a < |more|
  {
    if a == 0 then Last(times, contact) else more[a - 1]
  }

  lemma {:induction false} CloseAppend(times: seq<nat>, more: seq<nat>, contact: nat, timeout: nat)
    requires Close(times, contact, timeout)
    requires forall a :: 0 <= a < |more| ==> more[a] <= TimeBefore(times, more, a, contact) + timeout
    ensures Close(times + more, contact, timeout)
    decreases |more|
  {
    hide Close;
    if more == [] {
      assert times + more == times;
    } else {
      var init, t := more[..|more| - 1], more[|more| - 1];
      forall a | 0 <= a < |init|
        ensures init[a] <= TimeBefore(times, init, a, contact) + timeout
      {
        assert more[a] <= TimeBefore(times, more, a, contact) + timeout;
      }
      CloseAppend(times, init, contact, timeout);
      assert times + more == (times + init) + [t];
      assert t <= TimeBefore(times, more, |init|, contact) + timeout;
      assert Last(times + init, contact) == TimeBefore(times, more, |init|, contact) by {
        if init == [] { assert times + init == times; }
      }
      CloseSnoc(times + init, t, contact, timeout);
    }
  }

  /** A post is handled no earlier than slowest before it ends. */
  predicate Within(beat: Beat, slowest: nat) {
    forall a :: 0 <= a < |beat.heard| ==> beat.heard[a] <= beat.at <= beat.heard[a] + slowest
  }

  /** The times of one more post go on from those before. */
  lemma OneMorePost(times: seq<nat>, beat: Beat, contact: nat, slowest: nat, timeout: nat)
    requires Close(times, contact, timeout) && slowest <= timeout && Within(beat, slowest)
    requires beat.at <= Last(times, contact) + timeout
    ensures Close(times + beat.heard, contact, timeout)
  {
    hide Close, Last;
    forall a | 0 <= a < |beat.heard|
      ensures beat.heard[a] <= TimeBefore(times, beat.heard, a, contact) + timeout
    {
    }
    CloseAppend(times, beat.heard, contact, timeout);
  }

  lemma CoversPrefix(beats: seq<Beat>, contact: nat, timeout: nat)
    requires Covers(beats, contact, timeout) && beats != []
    ensures Covers(beats[..|beats| - 1], contact, timeout)
    ensures beats[|beats| - 1].at <= LastReached(beats[..|beats| - 1], |beats| - 1, contact) + timeout
  {
    hide LastReached;
    var init := beats[..|beats| - 1];
    forall k | 0 <= k < |init|
      ensures init[k].at <= LastReached(init, k, contact) + timeout
    {
      LastReachedPrefix(beats, |init|, k, contact);
      assert init[k] == beats[k];
    }
    LastReachedPrefix(beats, |init|, |init|, contact);
  }

  lemma {:induction false} HeardAreClose(beats: seq<Beat>, contact: nat, slowest: nat, timeout: nat)
    requires Covers(beats, contact, timeout) && slowest <= timeout
    requires forall k :: 0 <= k < |beats| ==> Within(beats[k], slowest)
    ensures Close(HeardTimes(beats), contact, timeout)
    decreases |beats|
  {
    hide Close, Covers, LastReached, Last, Within;
    if beats == [] {
      NoTimesAreClose(contact, timeout);
    } else {
      var init, last := beats[..|beats| - 1], beats[|beats| - 1];
      CoversPrefix(beats, contact, timeout);
      assert forall k :: 0 <= k < |init| ==> init[k] == beats[k];
      HeardAreClose(init, contact, slowest, timeout);
      LastOfReached(init, contact);
      OneMorePost(HeardTimes(init), last, contact, slowest, timeout);
    }
  }

  lemma NoTimesAreClose(contact: nat, timeout: nat)
    ensures HeardTimes([]) == [] && Close([], contact, timeout)
  {
  }

  ghost predicate HoldsClaim(s: State, id: string, worker: string) {
    id in s.jobs && s.jobs[id].status == Claimed && s.jobs[id].claimedBy == Some(worker)
  }

  /** A worker's loop and a run of the coordinator up to the end of the last post: the loop starts when
      the claim has been answered, has not given up before its last beat, and the run holds exactly the
      heartbeats that reached the coordinator. */
  ghost predicate Together(beats: seq<Beat>, ops: seq<Op>, id: string, worker: string,
                           contact: nat, start: nat, interval: nat, slowest: nat, timeout: nat)
  {
    && contact <= start <= contact + slowest
    && Schedule(beats, start, interval, slowest) && Persistent(beats)
    && NonDecreasing(ops, contact) && Undisturbed(ops, id, timeout)
    && BeatTimes(ops, id, worker) == HeardTimes(beats)
    && forall k :: 0 <= k < |ops| ==> OpTime(ops[k]) <= WaitBegan(beats, |beats|, start)
  }

  /** Loop and reaper together: the claim is still held, whatever the other workers do. */
  lemma HeartbeatsKeepTheClaim(s: State, beats: seq<Beat>, ops: seq<Op>, id: string, worker: string,
                               contact: nat, start: nat, interval: nat, slowest: nat, timeout: nat)
    requires Valid(s) && HoldsClaim(s, id, worker) && Tracks(s, id, Some(contact), contact)
    requires Together(beats, ops, id, worker, contact, start, interval, slowest, timeout)
    requires 3 * interval + 4 * slowest <= timeout
    ensures HoldsClaim(Run(s, ops).0, id, worker)
  {
    forall k | 0 <= k < |beats|
      ensures beats[k].at <= LastReached(beats, k, contact) + timeout && Within(beats[k], slowest)
    {
      SilenceIsBounded(beats, contact, start, interval, slowest, k);
      assert OnTime(beats[k], WaitBegan(beats, k, start), interval, slowest);
    }
    HeardAreClose(beats, contact, slowest, timeout);
    LastOfReached(beats, contact);
    assert WaitBegan(beats, |beats|, start) <= LastReached(beats, |beats|, contact) + timeout by {
      if beats != [] {
        var k := |beats| - 1;
        assert OnTime(beats[k], WaitBegan(beats, k, start), interval, slowest);
      }
    }
    CloseBeatsKeepAlive(ops, id, worker, contact, contact, timeout);
    LiveWorkerIsNeverReaped(s, ops, id, worker, contact, timeout);
  }

  /** The claim's answer and two failed posts take as long as they may, and so does the third heartbeat
      until it is handled. */
  function SlowBeats(start: nat, step: nat): seq<Beat> {
    [Beat([], start + step, false), Beat([], start + 2 * step, false), Beat([start + 3 * step], start + 3 * step, true)]
  }

  lemma SlowBeatsAreHeardOnce(start: nat, step: nat)
    ensures HeardTimes(SlowBeats(start, step)) == [start + 3 * step]
  {
    var beats := SlowBeats(start, step);
    var two, one := beats[..2], beats[..1];
    assert |two| == 2 && |one| == 1 && one[..0] == [] && two[..1] == one;
    assert HeardTimes(one) == [];
    assert HeardTimes(two) == HeardTimes(one) + [];
    assert HeardTimes(beats) == HeardTimes(two) + [start + 3 * step];
  }

  lemma SlowBeatsAreOnTime(contact: nat, interval: nat, slowest: nat)
    ensures
      var start := contact + slowest;
      Schedule(SlowBeats(start, interval + slowest), start, interval, slowest) && Persistent(SlowBeats(start, interval + slowest))
  {
    var start, step := contact + slowest, interval + slowest;
    var beats := SlowBeats(start, step);
    assert OnTime(beats[0], start, interval, slowest);
    assert OnTime(beats[1], start + step, interval, slowest);
    assert OnTime(beats[2], start + 2 * step, interval, slowest);
  }

  lemma SlowRunIsTogether(id: string, worker: string, contact: nat, interval: nat, slowest: nat, timeout: nat)
    ensures
      var start, step := contact + slowest, interval + slowest;
      var end := start + 3 * step;
      Together(SlowBeats(start, step), [ReapOp(end, timeout), HeartbeatOp(id, worker, end)],
               id, worker, contact, start, interval, slowest, timeout)
  {
    hide HeardTimes, Schedule, Persistent;
    var start, step := contact + slowest, interval + slowest;
    var end := start + 3 * step;
    SlowBeatsAreHeardOnce(start, step);
    SlowBeatsAreOnTime(contact, interval, slowest);
    TickThenBeat(id, worker, contact, end, timeout);
  }

  lemma TickThenBeat(id: string, worker: string, contact: nat, end: nat, timeout: nat)
    requires contact <= end
    ensures
      var ops := [ReapOp(end, timeout), HeartbeatOp(id, worker, end)];
      NonDecreasing(ops, contact) && Undisturbed(ops, id, timeout) && BeatTimes(ops, id, worker) == [end]
  {
    var ops := [ReapOp(end, timeout), HeartbeatOp(id, worker, end)];
    var rest := [HeartbeatOp(id, worker, end)];
    assert ops[1..] == rest && rest[1..] == [];
    assert BeatTimes(rest, id, worker) == [end] + BeatTimes([], id, worker);
    assert NonDecreasing(rest, end);
  }

  /** A tick just before that heartbeat takes the claim, though no three posts in a row have failed. */
  lemma SlowPostsLoseTheClaim(s: State, id: string, worker: string, contact: nat, interval: nat, slowest: nat, timeout: nat)
    returns (beats: seq<Beat>, ops: seq<Op>)
    requires Valid(s) && HoldsClaim(s, id, worker) && Tracks(s, id, Some(contact), contact)
    requires 3 * interval + 4 * slowest > timeout
    ensures Together(beats, ops, id, worker, contact, contact + slowest, interval, slowest, timeout)
    ensures forall k :: 0 <= k < |beats| - 2 ==> !ThreeFailures(beats, k)
    ensures !HoldsClaim(Run(s, ops).0, id, worker)
  {
    hide Together;
    var start, step := contact + slowest, interval + slowest;
    var end := start + 3 * step;
    beats, ops := SlowBeats(start, step), [ReapOp(end, timeout), HeartbeatOp(id, worker, end)];
    SlowRunIsTogether(id, worker, contact, interval, slowest, timeout);
    StepKeepsValid(s, ops[0]);
    StaleIsReported(s, ops[0], id);
    var reaped := Step(s, ops[0]).0;
    assert reaped.jobs[id].status == Pending;
    assert ops[1..] == [ops[1]] && ops[1..][1..] == [];
    assert Run(reaped, ops[1..]).0 == reaped;
  }

  /** The exact margin: for any claim, every run of a worker whose loop has not given up keeps it if and
      only if three intervals and four slowest posts fit in the timeout. */
  lemma TimeoutIsEnoughIff(s: State, id: string, worker: string, contact: nat, interval: nat, slowest: nat, timeout: nat)
    requires Valid(s) && HoldsClaim(s, id, worker) && Tracks(s, id, Some(contact), contact)
    ensures (forall beats, ops, start :: Together(beats, ops, id, worker, contact, start, interval, slowest, timeout)
               ==> HoldsClaim(Run(s, ops).0, id, worker))
       <==> 3 * interval + 4 * slowest <= timeout
  {
    hide Together, HoldsClaim, Valid, Tracks;
    if 3 * interval + 4 * slowest <= timeout {
      forall beats, ops, start | Together(beats, ops, id, worker, contact, start, interval, slowest, timeout)
        ensures HoldsClaim(Run(s, ops).0, id, worker)
      {
        HeartbeatsKeepTheClaim(s, beats, ops, id, worker, contact, start, interval, slowest, timeout);
      }
    } else {
      var beats, ops := SlowPostsLoseTheClaim(s, id, worker, contact, interval, slowest, timeout);
    }
  }
}

module FederationWorker {
  import opened Sequences
  import opened WorkerSchedule

  /** What happens to one request to any of the URLs: which would answer, how long the whole attempt
      took, and when in it the coordinator handled it, whether or not an answer came. */
  datatype Attempt = Attempt(answers: string -> bool, took: nat, handled: seq<nat>)

  predicate Plausible(a: Attempt, order: seq<string>, slowest: nat) {
    && a.took <= slowest && (forall k :: 0 <= k < |a.handled| ==> a.handled[k] <= a.took)
    && (FirstUp(order, a.answers).Some? ==> a.handled != [])
  }

  /** The first URL of the list that answers. */
  function FirstUp(urls: seq<string>, answers: string -> bool): (u: Option<string>)
    ensures u.None? <==> forall k :: 0 <= k < |urls| ==> !answers(urls[k])
    ensures u.Some? ==> u.value in urls
    ensures u.Some? ==> exists i :: 0 <= i < |urls| && urls[i] == u.value && answers(urls[i]) && forall k :: 0 <= k < i ==> !answers(urls[k])
  {
    if urls == [] then None
    else if answers(urls[0]) then Some(urls[0])
    else FirstUp(urls[1..], answers)
  }

  class FederatedQueue {
    const urls: seq<string>
    var sticky: string

    /** Starts with the first configured URL. */
    constructor (urls: seq<string>)
      ensures this.urls == urls && sticky == (if urls == [] then "" else urls[0]) && Listed(urls, sticky)
    {
      this.urls, sticky := urls, if urls == [] then "" else urls[0];
    }

    /** Tries the URLs in turn; the first that answers becomes sticky. */
    method PostToAnyUrl(order: seq<string>, answers: string -> bool) returns (ok: bool)
      modifies this`sticky
      ensures ok <==> FirstUp(order, answers).Some?
      ensures sticky == match FirstUp(order, answers)
                        case Some(u) => if u != "" then u else old(sticky)
                        case None => old(sticky)
      ensures Listed(urls, old(sticky)) && (forall u :: u in order ==> u in urls) ==> Listed(urls, sticky)
    {
      for i := 0 to |order|
        invariant sticky == old(sticky)
        invariant FirstUp(order, answers) == FirstUp(order[i..], answers)
      {
        assert order[i..][1..] == order[i + 1..];
        if answers(order[i]) {
          if order[i] != "" && order[i] != sticky { sticky := order[i]; }
          return true;
        }
      }
      return false;
    }

    /** Beats until the job ends (after `rounds` whole intervals) or three posts in a row have failed. */
    method HeartbeatLoop(order: seq<string>, start: nat, interval: nat, attempt: nat -> Attempt, rounds: nat)
      returns (beats: seq<Beat>, gaveUp: bool)
      modifies this`sticky
      ensures beats == BeatsOf(order, start, interval, attempt, |beats|)
      ensures |beats| <= rounds && (!gaveUp ==> |beats| == rounds)
      ensures Persistent(beats) && (gaveUp <==> |beats| >= 3 && ThreeFailures(beats, |beats| - 3))
      ensures Listed(urls, old(sticky)) && (forall u :: u in order ==> u in urls) ==> Listed(urls, sticky)
    {
      hide Persistent, ThreeFailures, Listed, FirstUp, Failures, BeatsOf;
      NoBeats(order, start, interval, attempt);
      beats, gaveUp := [], false;
      var now, failures := start, 0;
      while |beats| < rounds && !gaveUp
        invariant |beats| <= rounds && now == WaitBegan(beats, |beats|, start)
        invariant beats == BeatsOf(order, start, interval, attempt, |beats|)
        invariant Listed(urls, old(sticky)) && (forall u :: u in order ==> u in urls) ==> Listed(urls, sticky)
        invariant failures == Failures(beats) && (gaveUp <==> failures >= 3) && Persistent(beats)
        decreases rounds - |beats|, !gaveUp
      {
        var a := attempt(|beats|);
        var ok := PostToAnyUrl(order, a.answers);
        var beat := BeatOf(now, interval, a, ok);
        now := beat.at;
        OneMoreBeat(beats, order, start, interval, attempt);
        if !gaveUp { StillPersistent(beats, beat); }
        beats := beats + [beat];
        failures := if ok then 0 else failures + 1;
        gaveUp := failures >= 3;
      }
      FailuresAreLast(beats);
    }
  }

  function BeatOf(began: nat, interval: nat, a: Attempt, ok: bool): Beat {
    Beat(Map((t: nat) => began + interval + t, a.handled), began + interval + a.took, ok)
  }

  /** The first n beats, whatever happens to each post. */
  function BeatsOf(order: seq<string>, start: nat, interval: nat, attempt: nat -> Attempt, n: nat): (beats: seq<Beat>)
    ensures |beats| == n
  {
    if n == 0 then []
    else
      var before, a := BeatsOf(order, start, interval, attempt, n - 1), attempt(n - 1);
      before + [BeatOf(WaitBegan(before, n - 1, start), interval, a, FirstUp(order, a.answers).Some?)]
  }

  /** The run of failed beats at the end. */
  function Failures(beats: seq<Beat>): (n: nat)
    ensures n <= |beats|
  {
    if beats == [] || beats[|beats| - 1].ok then 0 else 1 + Failures(beats[..|beats| - 1])
  }

  lemma NoBeats(order: seq<string>, start: nat, interval: nat, attempt: nat -> Attempt)
    ensures BeatsOf(order, start, interval, attempt, 0) == [] && Failures([]) == 0 && Persistent([])
  {
  }

  lemma OneMoreBeat(beats: seq<Beat>, order: seq<string>, start: nat, interval: nat, attempt: nat -> Attempt)
    requires beats == BeatsOf(order, start, interval, attempt, |beats|)
    ensures
      var n, a := |beats|, attempt(|beats|);
      var beat := BeatOf(WaitBegan(beats, n, start), interval, a, FirstUp(order, a.answers).Some?);
      && beats + [beat] == BeatsOf(order, start, interval, attempt, n + 1)
      && WaitBegan(beats + [beat], n + 1, start) == beat.at
      && Failures(beats + [beat]) == if beat.ok then 0 else Failures(beats) + 1
  {
    var n, a := |beats|, attempt(|beats|);
    var beat := BeatOf(WaitBegan(beats, n, start), interval, a, FirstUp(order, a.answers).Some?);
    assert (beats + [beat])[..n] == beats;
  }

  lemma FailuresAreLast(beats: seq<Beat>)
    ensures Failures(beats) >= 3 <==> |beats| >= 3 && ThreeFailures(beats, |beats| - 3)
  {
    if |beats| >= 3 {
      var one, two := beats[..|beats| - 1], beats[..|beats| - 2];
      assert one[..|one| - 1] == two;
      assert Failures(beats) >= 2 ==> Failures(two) == Failures(beats) - 2;
      assert Failures(two) == 0 <==> two[|two| - 1].ok;
    }
  }

  lemma StillPersistent(beats: seq<Beat>, next: Beat)
    requires Persistent(beats) && Failures(beats) < 3
    ensures Persistent(beats + [next])
  {
    FailuresAreLast(beats);
    forall k | 0 <= k < |beats| + 1 - 3
      ensures !ThreeFailures(beats + [next], k)
    {
      assert !ThreeFailures(beats, k);
    }
  }

  /** Each beat comes one interval after the wait for it began, and its post ends when the attempt has taken its time; it
      counts as answered if some URL of the order answers. */
  lemma {:induction false} BeatsAreTimed(order: seq<string>, start: nat, interval: nat, attempt: nat -> Attempt, n: nat, k: nat)
    requires k < n
    ensures
      var beats := BeatsOf(order, start, interval, attempt, n);
      && beats[k].at == (if k == 0 then start else beats[k - 1].at) + interval + attempt(k).took
      && (beats[k].ok <==> exists i :: 0 <= i < |order| && attempt(k).answers(order[i]))
      && |beats[k].heard| == |attempt(k).handled|
  {
    if k < n - 1 { BeatsAreTimed(order, start, interval, attempt, n - 1, k); }
  }

  /** The loop's beats meet the schedule that the survival theorem asks for. */
  lemma {:induction false} LoopFollowsSchedule(order: seq<string>, start: nat, interval: nat, attempt: nat -> Attempt, n: nat, slowest: nat)
    requires forall k :: 0 <= k < n ==> Plausible(attempt(k), order, slowest)
    ensures Schedule(BeatsOf(order, start, interval, attempt, n), start, interval, slowest)
  {
    if n > 0 {
      LoopFollowsSchedule(order, start, interval, attempt, n - 1, slowest);
      var before, beats := BeatsOf(order, start, interval, attempt, n - 1), BeatsOf(order, start, interval, attempt, n);
      assert Plausible(attempt(n - 1), order, slowest);
      forall k | 0 <= k < n
        ensures OnTime(beats[k], WaitBegan(beats, k, start), interval, slowest)
      {
        assert WaitBegan(beats, k, start) == WaitBegan(before, k, start);
        if k < n - 1 { assert OnTime(before[k], WaitBegan(before, k, start), interval, slowest); }
      }
    }
  }
}
