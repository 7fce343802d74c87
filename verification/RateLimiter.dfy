/** The sliding-window rate limiter, against the naive counter over the full history. */
module RateLimiter {
  import opened Sequences

  /** Times in any fixed unit; requests are (key, time) pairs. */
  datatype Request = Request(key: string, time: int)

  /** A defaultdict(deque): an unseen key has an empty deque. */
  function Get(hits: map<string, seq<int>>, key: string): seq<int> {
    if key in hits then hits[key] else []
  }

  function Evict(deque: seq<int>, cutoff: int): seq<int> {
    if deque != [] && deque[0] < cutoff then Evict(deque[1..], cutoff) else deque
  }

  /** One deque: evict what has expired, then append if there is room. */
  function Admit(deque: seq<int>, now: int, max: int, window: int): (bool, seq<int>) {
    var kept := Evict(deque, now - window);
    if |kept| >= max then (false, kept) else (true, kept + [now])
  }

  function Check(hits: map<string, seq<int>>, r: Request, max: int, window: int): (bool, map<string, seq<int>>) {
    var a := Admit(Get(hits, r.key), r.time, max, window);
    (a.0, hits[r.key := a.1])
  }

  class Limiter {
    const max: int
    const window: int
    var hits: map<string, seq<int>>

    constructor (max: int, window: int)
      ensures this.max == max && this.window == window && hits == map[]
    {
      this.max, this.window, hits := max, window, map[];
    }

    method Allow(key: string, now: int) returns (ok: bool)
      modifies this
      ensures (ok, hits) == Check(old(hits), Request(key, now), max, window)
    {
      var cutoff := now - window;
      var deque := if key in hits then hits[key] else [];
      while deque != [] && deque[0] < cutoff
        invariant Evict(deque, cutoff) == Evict(Get(old(hits), key), cutoff)
        decreases |deque|
      {
        deque := deque[1..];
      }
      hits := hits[key := deque];
      if |deque| >= max { return false; }
      deque := deque + [now];
      hits := hits[key := deque];
      assert hits == old(hits)[key := deque];
      return true;
    }
  }

  // ------------------------------------------------- the naive counter

  /** How many of the recorded times lie in the closed interval [from, to]. */
  function CountIn(history: seq<int>, from: int, to: int): nat {
    |Filter(t => from <= t <= to, history)|
  }

  function NaiveAdmit(accepted: seq<int>, now: int, max: int, window: int): (bool, seq<int>) {
    if CountIn(accepted, now - window, now) < max then (true, accepted + [now]) else (false, accepted)
  }

  function NaiveCheck(history: map<string, seq<int>>, r: Request, max: int, window: int): (bool, map<string, seq<int>>) {
    var a := NaiveAdmit(Get(history, r.key), r.time, max, window);
    (a.0, history[r.key := a.1])
  }

  function Run(hits: map<string, seq<int>>, rs: seq<Request>, max: int, window: int): (v: (seq<bool>, map<string, seq<int>>))
    ensures |v.0| == |rs|
    decreases |rs|
  {
    if rs == [] then ([], hits)
    else
      var first := Check(hits, rs[0], max, window);
      var rest := Run(first.1, rs[1..], max, window);
      ([first.0] + rest.0, rest.1)
  }

  /** Verdicts of the naive counter, and everything it ever accepted. */
  function NaiveRun(history: map<string, seq<int>>, rs: seq<Request>, max: int, window: int)
    : (v: (seq<bool>, map<string, seq<int>>))
    ensures |v.0| == |rs|
    decreases |rs|
  {
    if rs == [] then ([], history)
    else
      var first := NaiveCheck(history, rs[0], max, window);
      var rest := NaiveRun(first.1, rs[1..], max, window);
      ([first.0] + rest.0, rest.1)
  }

  ghost predicate NonDecreasing(rs: seq<Request>, from: int) {
    (forall k :: 0 <= k < |rs| ==> from <= rs[k].time) && forall j, k :: 0 <= j < k < |rs| ==> rs[j].time <= rs[k].time
  }

  ghost predicate Ascending(s: seq<int>) {
    forall i, j :: 0 <= i < j < |s| ==> s[i] <= s[j]
  }

  /** The deque is the end of the history; what is missing had expired at the latest reading. */
  ghost predicate Trails(deque: seq<int>, history: seq<int>, last: int, window: int) {
    && |deque| <= |history| && deque == history[|history| - |deque|..]
    && (forall i :: 0 <= i < |history| ==> history[i] <= last)
    && (forall i :: 0 <= i < |history| - |deque| ==> history[i] < last - window)
  }

  /** What is left of the deque once the expired times at its head are gone ascends. */
  ghost predicate Settled(deque: seq<int>, last: int, window: int) { Ascending(Evict(deque, last - window)) }

  ghost predicate Remembers(deque: seq<int>, history: seq<int>, last: int, window: int) {
    Trails(deque, history, last, window) && Settled(deque, last, window)
  }

  ghost predicate Related(hits: map<string, seq<int>>, history: map<string, seq<int>>, last: int, window: int) {
    forall key :: Remembers(Get(hits, key), Get(history, key), last, window)
  }

  lemma LiveTimesCount(kept: seq<int>, cutoff: int, now: int)
    requires Ascending(kept) && (kept != [] ==> kept[0] >= cutoff) && forall i :: 0 <= i < |kept| ==> kept[i] <= now
    ensures CountIn(kept, cutoff, now) == |kept|
  {
    FilterAll(t => cutoff <= t <= now, kept);
  }

  lemma ExpiredDoNotCount(history: seq<int>, n: nat, from: int, to: int)
    requires n <= |history| && forall i :: 0 <= i < n ==> history[i] < from
    ensures CountIn(history, from, to) == CountIn(history[n..], from, to)
  {
    assert history == history[..n] + history[n..];
    FilterAppend(t => from <= t <= to, history[..n], history[n..]);
    FilterNone(t => from <= t <= to, history[..n]);
  }

  /** Evicting drops a head of expired times. */
  lemma {:induction false} EvictIsSuffix(deque: seq<int>, cutoff: int)
    ensures
      var kept := Evict(deque, cutoff);
      && |kept| <= |deque| && kept == deque[|deque| - |kept|..]
      && (forall i :: 0 <= i < |deque| - |kept| ==> deque[i] < cutoff)
      && (kept != [] ==> kept[0] >= cutoff)
  {
    if deque != [] && deque[0] < cutoff { EvictIsSuffix(deque[1..], cutoff); }
  }

  /** An earlier eviction makes no difference to a later one. */
  lemma {:induction false} EvictTwice(deque: seq<int>, early: int, late: int)
    requires early <= late
    ensures Evict(Evict(deque, early), late) == Evict(deque, late)
  {
    if deque != [] && deque[0] < early { EvictTwice(deque[1..], early, late); }
  }

  lemma NoneLeft(deque: seq<int>, cutoff: int)
    requires deque == [] || deque[0] >= cutoff
    ensures Evict(deque, cutoff) == deque
  {
  }

  /** Evicting with a cutoff not before the one of the latest reading keeps the deque on the history's trail. */
  lemma TrailsAfterEvict(deque: seq<int>, full: seq<int>, now: int, window: int, last: int)
    requires Trails(deque, full, last, window) && last <= now
    ensures Trails(Evict(deque, now - window), full, now, window)
  {
    var cutoff := now - window;
    EvictIsSuffix(deque, cutoff);
    var kept := Evict(deque, cutoff);
    var expired := |full| - |kept|;
    assert kept == full[expired..];
    forall i | 0 <= i < expired
      ensures full[i] < cutoff
    {
      if i >= |full| - |deque| { assert full[i] == deque[i - (|full| - |deque|)]; }
    }
  }

  /** One key: expired times are dropped, nothing else is. */
  lemma DequeRefines(deque: seq<int>, full: seq<int>, now: int, window: int, last: int)
    requires Remembers(deque, full, last, window) && last <= now
    ensures CountIn(full, now - window, now) == |Evict(deque, now - window)|
    ensures Remembers(Evict(deque, now - window), full, now, window)
    ensures Remembers(Evict(deque, now - window) + [now], full + [now], now, window)
  {
    hide Evict, CountIn;
    var cutoff := now - window;
    var kept := Evict(deque, cutoff);
    StaysSettled(deque, last, now, window);
    TrailsAfterEvict(deque, full, now, window, last);
    EvictIsSuffix(deque, cutoff);
    ExpiredDoNotCount(full, |full| - |kept|, cutoff, now);
    NoneLeft(kept, cutoff);
    LiveTimesCount(kept, cutoff, now);
    Append(kept, full, now, window);
  }

  lemma StaysSettled(deque: seq<int>, last: int, now: int, window: int)
    requires Settled(deque, last, window) && last <= now
    ensures Settled(deque, now, window)
  {
    hide Evict;
    EvictTwice(deque, last - window, now - window);
    EvictIsSuffix(Evict(deque, last - window), now - window);
  }

  lemma Append(deque: seq<int>, history: seq<int>, now: int, window: int)
    requires Trails(deque, history, now, window) && Ascending(deque)
    ensures Remembers(deque + [now], history + [now], now, window)
  {
    assert (history + [now])[|history| - |deque|..] == deque + [now];
    SettledSnoc(deque, now, window);
  }

  lemma SettledSnoc(deque: seq<int>, now: int, window: int)
    requires Ascending(deque) && forall i :: 0 <= i < |deque| ==> deque[i] <= now
    ensures Settled(deque + [now], now, window)
  {
    hide Evict;
    var longer := deque + [now];
    EvictIsSuffix(longer, now - window);
    SuffixAscends(longer, Evict(longer, now - window));
  }

  lemma SuffixAscends(s: seq<int>, t: seq<int>)
    requires Ascending(s) && |t| <= |s| && t == s[|s| - |t|..]
    ensures Ascending(t)
  {
  }

  lemma AdmitRefines(deque: seq<int>, full: seq<int>, now: int, max: int, window: int, last: int)
    requires Remembers(deque, full, last, window) && last <= now
    ensures Admit(deque, now, max, window).0 == NaiveAdmit(full, now, max, window).0
    ensures Remembers(Admit(deque, now, max, window).1, NaiveAdmit(full, now, max, window).1, now, window)
  {
    hide Remembers, CountIn, Evict;
    DequeRefines(deque, full, now, window, last);
  }

  lemma OtherKeysKept(hits: map<string, seq<int>>, history: map<string, seq<int>>, r: Request, max: int, window: int, key: string)
    requires key != r.key
    ensures Get(Check(hits, r, max, window).1, key) == Get(hits, key)
    ensures Get(NaiveCheck(history, r, max, window).1, key) == Get(history, key)
  {
  }

  lemma CheckRefines(hits: map<string, seq<int>>, history: map<string, seq<int>>, r: Request, max: int, window: int, last: int)
    requires Related(hits, history, last, window) && last <= r.time
    ensures Check(hits, r, max, window).0 == NaiveCheck(history, r, max, window).0
    ensures Related(Check(hits, r, max, window).1, NaiveCheck(history, r, max, window).1, r.time, window)
  {
    hide Remembers, Admit, NaiveAdmit;
    AdmitRefines(Get(hits, r.key), Get(history, r.key), r.time, max, window, last);
    forall key
      ensures Remembers(Get(Check(hits, r, max, window).1, key), Get(NaiveCheck(history, r, max, window).1, key), r.time, window)
    {
      if key != r.key {
        OtherKeysKept(hits, history, r, max, window, key);
        Later(Get(hits, key), Get(history, key), last, r.time, window);
      }
    }
  }

  lemma Later(deque: seq<int>, history: seq<int>, last: int, now: int, window: int)
    requires Remembers(deque, history, last, window) && last <= now
    ensures Remembers(deque, history, now, window)
  {
    StaysSettled(deque, last, now, window);
  }

  /** Under a non-decreasing clock the limiter gives the naive counter's verdicts on every run:
      a request passes exactly when fewer than max requests of its key were accepted in
      [now - window, now] of the full history. */
  lemma {:induction false} LimiterRefinesCounter(hits: map<string, seq<int>>, history: map<string, seq<int>>,
                                                 rs: seq<Request>, max: int, window: int, last: int)
    requires Related(hits, history, last, window) && NonDecreasing(rs, last)
    ensures Run(hits, rs, max, window).0 == NaiveRun(history, rs, max, window).0
    decreases |rs|
  {
    if rs != [] {
      CheckRefines(hits, history, rs[0], max, window, last);
      LimiterRefinesCounter(Check(hits, rs[0], max, window).1, NaiveCheck(history, rs[0], max, window).1,
                            rs[1..], max, window, rs[0].time);
    }
  }

  lemma FreshLimiterRefinesCounter(rs: seq<Request>, max: int, window: int, from: int)
    requires NonDecreasing(rs, from)
    ensures Run(map[], rs, max, window).0 == NaiveRun(map[], rs, max, window).0
  {
    LimiterRefinesCounter(map[], map[], rs, max, window, from);
  }

  /** The times that the verdicts accepted, key by key, on top of a history. */
  function Record(history: map<string, seq<int>>, rs: seq<Request>, verdicts: seq<bool>): map<string, seq<int>>
    requires |verdicts| == |rs|
    decreases |rs|
  {
    if rs == [] then history
    else
      var accepted := Get(history, rs[0].key);
      Record(history[rs[0].key := if verdicts[0] then accepted + [rs[0].time] else accepted], rs[1..], verdicts[1..])
  }

  lemma {:induction false} NaiveRunRecords(history: map<string, seq<int>>, rs: seq<Request>, max: int, window: int)
    ensures
      var v := NaiveRun(history, rs, max, window);
      v.1 == Record(history, rs, v.0)
    decreases |rs|
  {
    if rs != [] {
      var first := NaiveCheck(history, rs[0], max, window);
      NaiveRunRecords(first.1, rs[1..], max, window);
      assert NaiveRun(history, rs, max, window).0[1..] == NaiveRun(first.1, rs[1..], max, window).0;
    }
  }

  /** No closed interval of length window holds more than max of a key's times. */
  ghost predicate Bounded(history: map<string, seq<int>>, max: int, window: int) {
    forall key, t :: WithinLimit(Get(history, key), t, max, window)
  }

  predicate WithinLimit(accepted: seq<int>, t: int, max: int, window: int) {
    CountIn(accepted, t, t + window) <= max
  }

  lemma {:induction false} NarrowerCountsLess(history: seq<int>, from: int, to: int, from': int, to': int)
    requires forall i :: 0 <= i < |history| ==> (from <= history[i] <= to ==> from' <= history[i] <= to')
    ensures CountIn(history, from, to) <= CountIn(history, from', to')
  {
    if history != [] {
      assert forall i :: 0 <= i < |history| - 1 ==> history[1..][i] == history[i + 1];
      NarrowerCountsLess(history[1..], from, to, from', to');
    }
  }

  lemma NaiveCheckBounded(history: map<string, seq<int>>, r: Request, max: int, window: int)
    requires Bounded(history, max, window) && window >= 0
    requires Ended(Get(history, r.key), r.time)
    ensures Bounded(NaiveCheck(history, r, max, window).1, max, window)
  {
    var accepted := Get(history, r.key);
    var history' := NaiveCheck(history, r, max, window).1;
    forall key, t
      ensures WithinLimit(Get(history', key), t, max, window)
    {
      assert WithinLimit(Get(history, key), t, max, window);
      if key == r.key && Get(history', key) == accepted + [r.time] {
        FilterAppend(x => t <= x <= t + window, accepted, [r.time]);
        if t <= r.time <= t + window {
          NarrowerCountsLess(accepted, t, t + window, r.time - window, r.time);
          assert CountIn([r.time], t, t + window) == 1;
        } else {
          assert CountIn([r.time], t, t + window) == 0;
        }
      }
    }
  }

  ghost predicate NotAfter(history: map<string, seq<int>>, last: int) {
    forall key :: Ended(Get(history, key), last)
  }

  ghost predicate Ended(accepted: seq<int>, last: int) {
    forall i :: 0 <= i < |accepted| ==> accepted[i] <= last
  }

  lemma {:induction false} NaiveRunBounded(history: map<string, seq<int>>, rs: seq<Request>, max: int, window: int, last: int)
    requires window >= 0 && NonDecreasing(rs, last) && NotAfter(history, last) && Bounded(history, max, window)
    ensures Bounded(NaiveRun(history, rs, max, window).1, max, window)
    decreases |rs|
  {
    if rs != [] {
      NaiveCheckBounded(history, rs[0], max, window);
      forall key
        ensures Ended(Get(NaiveCheck(history, rs[0], max, window).1, key), rs[0].time)
      {
        assert Ended(Get(history, key), last);
      }
      NaiveRunBounded(NaiveCheck(history, rs[0], max, window).1, rs[1..], max, window, rs[0].time);
    }
  }

  /** In any run under a non-decreasing clock, every closed interval of length window holds at most
      max requests of a key that the limiter accepted. */
  lemma WindowBound(rs: seq<Request>, max: int, window: int, from: int)
    requires NonDecreasing(rs, from) && max >= 0 && window >= 0
    ensures Bounded(Record(map[], rs, Run(map[], rs, max, window).0), max, window)
  {
    FreshLimiterRefinesCounter(rs, max, window, from);
    NaiveRunRecords(map[], rs, max, window);
    NaiveRunBounded(map[], rs, max, window, from);
  }

  /** The accepted requests before the k-th with its key, no more than window older. */
  function Recent(rs: seq<Request>, verdicts: seq<bool>, k: nat, from: int, to: int): set<nat>
    requires |verdicts| == |rs| && k < |rs|
  {
    RecentBelow(rs, verdicts, rs[k].key, k, from, to)
  }

  function RecentBelow(rs: seq<Request>, verdicts: seq<bool>, key: string, n: nat, from: int, to: int): set<nat>
    requires |verdicts| == |rs| && n <= |rs|
  {
    set j: nat | j < n && verdicts[j] && rs[j].key == key && from <= rs[j].time <= to
  }

  lemma RecordSnoc(history: map<string, seq<int>>, rs: seq<Request>, verdicts: seq<bool>, r: Request, v: bool)
    requires |verdicts| == |rs|
    ensures
      var before := Record(history, rs, verdicts);
      Record(history, rs + [r], verdicts + [v]) ==
        before[r.key := if v then Get(before, r.key) + [r.time] else Get(before, r.key)]
    decreases |rs|
  {
    if rs != [] {
      assert (rs + [r])[1..] == rs[1..] + [r] && (verdicts + [v])[1..] == verdicts[1..] + [v];
      var accepted := Get(history, rs[0].key);
      RecordSnoc(history[rs[0].key := if verdicts[0] then accepted + [rs[0].time] else accepted], rs[1..], verdicts[1..], r, v);
    } else {
      assert ([] + [r])[1..] == [] && ([] + [v])[1..] == [];
    }
  }

  /** What a record counts for a key, counted request by request. */
  lemma {:induction false} RecordCounts(rs: seq<Request>, verdicts: seq<bool>, key: string, n: nat, from: int, to: int)
    requires |verdicts| == |rs| && n <= |rs|
    ensures CountIn(Get(Record(map[], rs[..n], verdicts[..n]), key), from, to) == |RecentBelow(rs, verdicts, key, n, from, to)|
  {
    if n == 0 {
      assert RecentBelow(rs, verdicts, key, 0, from, to) == {};
      assert rs[..0] == [];
    } else {
      var before := Record(map[], rs[..n - 1], verdicts[..n - 1]);
      RecordCounts(rs, verdicts, key, n - 1, from, to);
      RecordSnoc(map[], rs[..n - 1], verdicts[..n - 1], rs[n - 1], verdicts[n - 1]);
      assert rs[..n] == rs[..n - 1] + [rs[n - 1]] && verdicts[..n] == verdicts[..n - 1] + [verdicts[n - 1]];
      RecentNext(rs, verdicts, key, n - 1, from, to);
      if verdicts[n - 1] && rs[n - 1].key == key { CountSnoc(Get(before, key), rs[n - 1].time, from, to); }
    }
  }

  lemma CountSnoc(history: seq<int>, time: int, from: int, to: int)
    ensures CountIn(history + [time], from, to) == CountIn(history, from, to) + if from <= time <= to then 1 else 0
  {
    FilterAppend(t => from <= t <= to, history, [time]);
    assert |Filter(t => from <= t <= to, [time])| == if from <= time <= to then 1 else 0;
  }

  lemma RecentNext(rs: seq<Request>, verdicts: seq<bool>, key: string, n: nat, from: int, to: int)
    requires |verdicts| == |rs| && n < |rs|
    ensures
      var before, after := RecentBelow(rs, verdicts, key, n, from, to), RecentBelow(rs, verdicts, key, n + 1, from, to);
      |after| == |before| + if verdicts[n] && rs[n].key == key && from <= rs[n].time <= to then 1 else 0
  {
    RecentAdds(rs, verdicts, key, n, from, to);
    assert n !in RecentBelow(rs, verdicts, key, n, from, to);
    hide RecentBelow;
  }

  lemma RecentAdds(rs: seq<Request>, verdicts: seq<bool>, key: string, n: nat, from: int, to: int)
    requires |verdicts| == |rs| && n < |rs|
    ensures RecentBelow(rs, verdicts, key, n + 1, from, to)
         == RecentBelow(rs, verdicts, key, n, from, to)
          + if verdicts[n] && rs[n].key == key && from <= rs[n].time <= to then {n} else {}
  {
  }

  lemma {:induction false} NaiveVerdict(history: map<string, seq<int>>, rs: seq<Request>, max: int, window: int, k: nat)
    requires k < |rs|
    ensures
      var v := NaiveRun(history, rs, max, window).0;
      v[k] <==> CountIn(Get(Record(history, rs[..k], v[..k]), rs[k].key), rs[k].time - window, rs[k].time) < max
    decreases |rs|
  {
    hide CountIn;
    var v := NaiveRun(history, rs, max, window).0;
    if k == 0 {
      assert rs[..0] == [] && v[..0] == [];
    } else {
      var next := NaiveCheck(history, rs[0], max, window).1;
      NaiveVerdict(next, rs[1..], max, window, k - 1);
      assert rs[..k][1..] == rs[1..][..k - 1];
      assert v[1..] == NaiveRun(next, rs[1..], max, window).0;
      assert v[..k][1..] == v[1..][..k - 1];
    }
  }

  /** A request passes if and only if fewer than max requests of its key passed before it in the window that ends with it:
      under a non-decreasing clock the verdicts are determined by themselves, without any deque. */
  lemma VerdictIff(rs: seq<Request>, max: int, window: int, from: int, k: nat)
    requires NonDecreasing(rs, from) && k < |rs|
    ensures
      var v := Run(map[], rs, max, window).0;
      v[k] <==> |Recent(rs, v, k, rs[k].time - window, rs[k].time)| < max
  {
    hide Run, NaiveRun, Record, CountIn, RecentBelow;
    FreshLimiterRefinesCounter(rs, max, window, from);
    NaiveVerdict(map[], rs, max, window, k);
    RecordCounts(rs, Run(map[], rs, max, window).0, rs[k].key, k, rs[k].time - window, rs[k].time);
  }

  // ------------------------------------------------- a clock that steps back

  /** Any readings up to last, in any order, leave each deque at the end of its history. */
  ghost predicate Follows(hits: map<string, seq<int>>, history: map<string, seq<int>>, last: int, max: int, window: int) {
    forall key :: Trails(Get(hits, key), Get(history, key), last, window) && Fits(Get(hits, key), max)
  }

  predicate Fits(deque: seq<int>, max: int) { deque == [] || |deque| <= max }

  lemma EarlierEvict(deque: seq<int>, full: seq<int>, time: int, last: int, window: int)
    requires Trails(deque, full, last, window) && time <= last
    ensures Trails(Evict(deque, time - window), full, last, window)
  {
    var kept := Evict(deque, time - window);
    EvictIsSuffix(deque, time - window);
    assert kept == full[|full| - |kept|..];
    forall i | 0 <= i < |full| - |kept|
      ensures full[i] < last - window
    {
      if i >= |full| - |deque| { assert full[i] == deque[i - (|full| - |deque|)]; }
    }
  }

  lemma AdmitFollows(deque: seq<int>, full: seq<int>, time: int, last: int, max: int, window: int)
    requires Trails(deque, full, last, window) && Fits(deque, max) && time <= last
    ensures
      var a := Admit(deque, time, max, window);
      Trails(a.1, if a.0 then full + [time] else full, last, window) && Fits(a.1, max)
  {
    hide Evict, Trails;
    EarlierEvict(deque, full, time, last, window);
    EvictIsSuffix(deque, time - window);
    TrailsSnoc(Evict(deque, time - window), full, time, last, window);
  }

  lemma TrailsSnoc(deque: seq<int>, full: seq<int>, time: int, last: int, window: int)
    requires Trails(deque, full, last, window) && time <= last
    ensures Trails(deque + [time], full + [time], last, window)
  {
    assert (full + [time])[|full| - |deque|..] == deque + [time];
  }

  lemma {:induction false} RunFollows(hits: map<string, seq<int>>, history: map<string, seq<int>>, rs: seq<Request>,
                                      last: int, max: int, window: int)
    requires Follows(hits, history, last, max, window) && forall k :: 0 <= k < |rs| ==> rs[k].time <= last
    ensures
      var v := Run(hits, rs, max, window);
      Follows(v.1, Record(history, rs, v.0), last, max, window)
    decreases |rs|
  {
    hide Trails, Fits, Admit;
    if rs != [] {
      var r, first := rs[0], Check(hits, rs[0], max, window);
      var accepted := Get(history, r.key);
      var next := history[r.key := if first.0 then accepted + [r.time] else accepted];
      assert Trails(Get(hits, r.key), accepted, last, window) && Fits(Get(hits, r.key), max);
      AdmitFollows(Get(hits, r.key), accepted, r.time, last, max, window);
      forall key
        ensures Trails(Get(first.1, key), Get(next, key), last, window) && Fits(Get(first.1, key), max)
      {
        if key != r.key { assert Get(first.1, key) == Get(hits, key) && Get(next, key) == Get(history, key); }
      }
      RunFollows(first.1, next, rs[1..], last, max, window);
      assert Run(hits, rs, max, window).0[1..] == Run(first.1, rs[1..], max, window).0;
    }
  }

  /** A deque that is out of order counts some expired time at a later reading. */
  lemma UnsettledMiscounts(deque: seq<int>, full: seq<int>, last: int, window: int) returns (now: int)
    requires Trails(deque, full, last, window) && !Settled(deque, last, window) && window >= 0
    ensures now >= last && CountIn(full, now - window, now) < |Evict(deque, now - window)|
  {
    var live := Evict(deque, last - window);
    EvictIsSuffix(deque, last - window);
    var i, j :| 0 <= i < j < |live| && live[i] > live[j];
    if live[j] < last - window {
      now := last;
      Miscount(deque, full, last, now, window, j, live[j]);
    } else {
      now := live[i] + window;
      EvictTwice(deque, last - window, now - window);
      StopsAt(live, now - window, i);
      var kept := Evict(live, now - window);
      EvictIsSuffix(live, now - window);
      Miscount(deque, full, last, now, window, j - (|live| - |kept|), live[j]);
    }
  }

  /** Eviction does not pass a time that has not expired. */
  lemma {:induction false} StopsAt(deque: seq<int>, cutoff: int, i: nat)
    requires i < |deque| && deque[i] >= cutoff
    ensures |deque| - |Evict(deque, cutoff)| <= i
  {
    if deque[0] < cutoff { StopsAt(deque[1..], cutoff, i - 1); }
  }

  lemma Miscount(deque: seq<int>, full: seq<int>, last: int, now: int, window: int, j: nat, t: int)
    requires Trails(deque, full, last, window) && last <= now
    requires
      var kept := Evict(deque, now - window);
      j < |kept| && kept[j] == t && t < now - window
    ensures CountIn(full, now - window, now) < |Evict(deque, now - window)|
  {
    hide Evict;
    var cutoff := now - window;
    var kept := Evict(deque, cutoff);
    TrailsAfterEvict(deque, full, now, window, last);
    ExpiredDoNotCount(full, |full| - |kept|, cutoff, now);
    assert kept == full[|full| - |kept|..];
    assert kept == kept[..j] + ([t] + kept[j + 1..]);
    var live := x => cutoff <= x <= now;
    FilterAppend(live, kept[..j], [t] + kept[j + 1..]);
    FilterAppend(live, [t], kept[j + 1..]);
    assert Filter(live, [t]) == [];
  }

  /** Requests at one moment are accepted by both until the limiter is full; then only it refuses. */
  lemma {:induction false} FillUp(hits: map<string, seq<int>>, history: map<string, seq<int>>, key: string, now: int, max: int, window: int)
    returns (cs: seq<Request>)
    requires window >= 0 && Evict(Get(hits, key), now - window) != [] && |Evict(Get(hits, key), now - window)| <= max
    requires CountIn(Get(history, key), now - window, now) < |Evict(Get(hits, key), now - window)|
    ensures forall k :: 0 <= k < |cs| ==> cs[k].time == now
    ensures Run(hits, cs, max, window).0 != NaiveRun(history, cs, max, window).0
    decreases max - |Evict(Get(hits, key), now - window)|
  {
    var r, kept := Request(key, now), Evict(Get(hits, key), now - window);
    var first, naive := Check(hits, r, max, window), NaiveCheck(history, r, max, window);
    EvictIsSuffix(Get(hits, key), now - window);
    if |kept| == max {
      cs := [r];
      assert Run(hits, cs, max, window).0[0] != NaiveRun(history, cs, max, window).0[0];
    } else {
      assert Get(first.1, key) == kept + [now] && Get(naive.1, key) == Get(history, key) + [now];
      NoneLeft(kept + [now], now - window);
      FilterAppend(t => now - window <= t <= now, Get(history, key), [now]);
      assert CountIn([now], now - window, now) == 1;
      var rest := FillUp(first.1, naive.1, key, now, max, window);
      cs := [r] + rest;
      assert cs[1..] == rest;
      assert Run(hits, cs, max, window).0 == [true] + Run(first.1, rest, max, window).0;
      assert NaiveRun(history, cs, max, window).0 == [true] + NaiveRun(naive.1, rest, max, window).0;
      TailsDiffer(true, Run(first.1, rest, max, window).0, NaiveRun(naive.1, rest, max, window).0);
    }
  }

  lemma TailsDiffer(b: bool, s: seq<bool>, t: seq<bool>)
    requires s != t
    ensures [b] + s != [b] + t
  {
    assert ([b] + s)[1..] == s && ([b] + t)[1..] == t;
  }

  /** Whatever the window, the condition is that the remembered times ascend. */
  lemma SettledForEveryWindowIff(deque: seq<int>, last: int)
    requires forall i :: 0 <= i < |deque| ==> deque[i] <= last
    ensures (forall window :: window >= 0 ==> Settled(deque, last, window)) <==> Ascending(deque)
  {
    if Ascending(deque) {
      forall window | window >= 0
        ensures Settled(deque, last, window)
      {
        EvictIsSuffix(deque, last - window);
        SuffixAscends(deque, Evict(deque, last - window));
      }
    } else {
      var window := last - deque[0];
      NoneLeft(deque, last - window);
      assert !Settled(deque, last, window);
    }
  }

  /** After any readings up to last, in whatever order the clock gave them: from last on the limiter
      gives the naive verdicts, for every continuation under a clock that no longer steps back, if
      and only if each deque ascends once the expired times at its head are gone. */
  lemma VerdictsAgreeFromNowOnIff(rs: seq<Request>, max: int, window: int, last: int)
    requires window >= 0 && forall k :: 0 <= k < |rs| ==> rs[k].time <= last
    ensures
      var v := Run(map[], rs, max, window);
      var history := Record(map[], rs, v.0);
      (forall cs :: NonDecreasing(cs, last) ==> Run(v.1, cs, max, window).0 == NaiveRun(history, cs, max, window).0)
      <==> (forall key :: Settled(Get(v.1, key), last, window))
  {
    hide Trails, Settled, Evict, CountIn, Fits;
    var v := Run(map[], rs, max, window);
    var history := Record(map[], rs, v.0);
    EmptyFollows(last, max, window);
    RunFollows(map[], map[], rs, last, max, window);
    if key :| !Settled(Get(v.1, key), last, window) {
      var cs := UnsettledParts(v.1, history, key, last, max, window);
      assert NonDecreasing(cs, last);
    } else {
      assert Related(v.1, history, last, window) by {
        forall key
          ensures Remembers(Get(v.1, key), Get(history, key), last, window)
        {
          assert Settled(Get(v.1, key), last, window);
        }
      }
      forall cs | NonDecreasing(cs, last)
        ensures Run(v.1, cs, max, window).0 == NaiveRun(history, cs, max, window).0
      {
        LimiterRefinesCounter(v.1, history, cs, max, window, last);
      }
    }
  }

  lemma EmptyFollows(last: int, max: int, window: int)
    ensures Follows(map[], map[], last, max, window)
  {
  }

  lemma UnsettledParts(hits: map<string, seq<int>>, history: map<string, seq<int>>, key: string, last: int, max: int, window: int)
    returns (cs: seq<Request>)
    requires Follows(hits, history, last, max, window) && !Settled(Get(hits, key), last, window) && window >= 0
    ensures NonDecreasing(cs, last) && Run(hits, cs, max, window).0 != NaiveRun(history, cs, max, window).0
  {
    hide Run, NaiveRun, Settled, Evict;
    var now := UnsettledMiscounts(Get(hits, key), Get(history, key), last, window);
    EvictIsSuffix(Get(hits, key), now - window);
    cs := FillUp(hits, history, key, now, max, window);
  }

  /** A clock that steps back breaks the agreement: with max 2 and window 10, accepted times
      10 and 0 leave 10 at the head of the deque, so the expired 0 still counts at time 15. */
  lemma ClockStepBackMisleads()
    ensures
      var rs := [Request("k", 10), Request("k", 0), Request("k", 15)];
      Run(map[], rs, 2, 10).0 == [true, true, false] && NaiveRun(map[], rs, 2, 10).0 == [true, true, true]
  {
    var a, b, c := Request("k", 10), Request("k", 0), Request("k", 15);
    assert [10] + [0] == [10, 0] && [] + [10] == [10] && [10, 0][1..] == [0];
    assert [a, b, c][1..] == [b, c] && [b, c][1..] == [c];
    assert map[]["k" := [10]] == map["k" := [10]];
    assert map["k" := [10]]["k" := [10, 0]] == map["k" := [10, 0]];
    assert map["k" := [10, 0]]["k" := [10, 0]] == map["k" := [10, 0]];
    assert Run(map["k" := [10, 0]], [c], 2, 10).0 == [false];
    assert Run(map["k" := [10]], [b, c], 2, 10).0 == [true, false];
    assert CountIn([10, 0], 5, 15) == 1 && CountIn([10], -10, 0) == 0 && CountIn([], 0, 10) == 0;
    assert NaiveRun(map["k" := [10, 0]], [c], 2, 10).0 == [true];
    assert NaiveRun(map["k" := [10]], [b, c], 2, 10).0 == [true, true];
  }
}

/** The streamed body-size guard. */
module BodyGuard {
  import opened Sequences

  /** An ASGI message: a body chunk, or anything else. */
  datatype Message = Chunk(size: nat) | Other

  function Bytes(ms: seq<Message>): nat {
    if ms == [] then 0 else Bytes(ms[..|ms| - 1]) + match ms[|ms| - 1] case Chunk(n) => n case Other => 0
  }

  /** What counts is the sizes of the chunks: how a body is cut into messages makes no difference. */
  lemma {:induction false} BytesAdd(a: seq<Message>, b: seq<Message>, size: nat)
    ensures Bytes(a + b) == Bytes(a) + Bytes(b)
    ensures Bytes([Chunk(size)]) == size && Bytes([Other]) == 0
    decreases |b|
  {
    assert [Chunk(size)][..0] == [] && [Other][..0] == [];
    if b == [] {
      assert a + b == a;
    } else {
      assert (a + b)[..|a + b| - 1] == a + b[..|b| - 1];
      BytesAdd(a, b[..|b| - 1], size);
    }
  }

  class Guard {
    const maxBytes: nat
    var received: nat
    ghost var delivered: seq<Message>

    ghost predicate Valid() reads this { received == Bytes(delivered) <= maxBytes }

    constructor (maxBytes: nat)
      ensures this.maxBytes == maxBytes && delivered == [] && Valid()
    {
      this.maxBytes, received, delivered := maxBytes, 0, [];
    }

    /** `guarded_receive`: the application sees the message unless the bytes so far, this one
        included, exceed the limit. Counting never restarts, whatever the chunking. */
    method Receive(message: Message) returns (r: Option<Message>)
      requires Valid()
      modifies this
      ensures r == (if Bytes(old(delivered) + [message]) <= maxBytes then Some(message) else None)
      ensures delivered == (if r.Some? then old(delivered) + [message] else old(delivered))
      ensures r.Some? ==> Valid()
    {
      assert (delivered + [message])[..|delivered|] == delivered;
      if message.Chunk? {
        received := received + message.size;
        if received > maxBytes { return None; }
      }
      delivered := delivered + [message];
      return Some(message);
    }
  }
}
