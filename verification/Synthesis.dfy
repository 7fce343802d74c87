/** Replacing clusters of similar trajectories by one distilled entry each. */
module Distillation {
  import opened Sequences
  import opened StableSort
  import opened Text

  datatype Entry = Entry(query: string, answer: string, score: real, taskType: string, provenance: string,
                         verified: bool, synthesized: bool, sourceQueries: seq<string>, accessCount: int)

  /** What the generalist answers when asked about a cluster. */
  datatype Reply = Failed | Wrote(text: string)

  /** The run's inputs besides the store. Cluster k is put to the generalist at most once, so
      functions of k cover every behaviour of the generalist and of the re-verification. */
  datatype Request = Request(clusters: seq<seq<nat>>, minSize: nat, max: nat, generalist: nat -> Reply, proven: nat -> bool)

  function ByUse(): (Entry, Entry) -> bool {
    (a: Entry, b: Entry) => a.accessCount > b.accessCount || (a.accessCount == b.accessCount && a.score >= b.score)
  }

  lemma ByUseIsTotal()
    ensures TotalPreorder(ByUse())
  {
  }

  /** Append, then keep the max most used. */
  function StoreOne(es: seq<Entry>, e: Entry, max: nat): (r: seq<Entry>)
    ensures |r| == if |es| < max then |es| + 1 else max
  {
    if |es| + 1 > max then Sort(ByUse(), es + [e])[..max] else es + [e]
  }

  /** The entries whose index is not in gone, in their old order. */
  function Outside(es: seq<Entry>, gone: set<nat>): seq<Entry> {
    if es == [] then []
    else
      Outside(es[..|es| - 1], gone)
      + if |es| - 1 in gone then [] else [es[|es| - 1]]
  }

  /** The cluster's entries that are still in the store and not distilled already. */
  function Originals(es: seq<Entry>, cluster: seq<nat>): (r: seq<Entry>)
    ensures |r| <= |cluster|
  {
    if cluster == [] then []
    else
      var init, i := cluster[..|cluster| - 1], cluster[|cluster| - 1];
      Originals(es, init) + if i < |es| && !es[i].synthesized then [es[i]] else []
  }

  /** Python's `max` by score: the first of the best. */
  function Representative(es: seq<Entry>): (e: Entry)
    requires es != []
  {
    if |es| == 1 then es[0]
    else
      var best := Representative(es[..|es| - 1]);
      if es[|es| - 1].score > best.score then es[|es| - 1] else best
  }

  function Queries(es: seq<Entry>): seq<string> { Map((e: Entry) => e.query, es) }

  function Master(originals: seq<Entry>, text: string, proven: bool): (m: Entry)
    requires originals != []
    ensures m.synthesized && m.answer == text && m.verified == proven
  {
    var best := Representative(originals);
    if proven then
      Entry(best.query, text, 0.65, best.taskType, "synthesized_and_proven", true, true, Queries(originals), 0)
    else
      Entry(best.query, text, 0.0, best.taskType, "synthesized", false, true, Queries(originals), 0)
  }

  lemma {:induction false} RepresentativeIsBest(es: seq<Entry>) returns (k: nat)
    requires es != []
    ensures k < |es| && Representative(es) == es[k]
    ensures forall i :: 0 <= i < |es| ==> es[i].score <= es[k].score
    ensures forall i :: 0 <= i < k ==> es[i].score < es[k].score
    decreases |es|
  {
    if |es| == 1 {
      k := 0;
    } else {
      k := RepresentativeIsBest(es[..|es| - 1]);
      if es[|es| - 1].score > es[k].score { k := |es| - 1; }
    }
  }

  /** A master stands under the query and task type of the first of the best originals, names all their queries, and scores
      0.65 only when it was verified again. */
  lemma MasterStandsForBest(originals: seq<Entry>, text: string, proven: bool) returns (k: nat)
    requires originals != []
    ensures k < |originals| && forall i :: 0 <= i < |originals| ==> originals[i].score <= originals[k].score
    ensures forall i :: 0 <= i < k ==> originals[i].score < originals[k].score
    ensures
      var m := Master(originals, text, proven);
      && m.query == originals[k].query && m.taskType == originals[k].taskType && m.answer == text
      && m.score == (if proven then 0.65 else 0.0) && (m.verified <==> proven) && m.synthesized && m.accessCount == 0
      && m.provenance == (if proven then "synthesized_and_proven" else "synthesized")
      && |m.sourceQueries| == |originals| && forall i :: 0 <= i < |originals| ==> m.sourceQueries[i] == originals[i].query
  {
    hide Representative;
    k := RepresentativeIsBest(originals);
  }

  /** Storing one more entry drops, when there is no room, what was used least and scores worst among that. */
  lemma StoreOneDropsTheWorst(es: seq<Entry>, e: Entry, max: nat) returns (dropped: seq<Entry>)
    ensures multiset(StoreOne(es, e, max)) + multiset(dropped) == multiset(es + [e])
    ensures |dropped| == if |es| < max then 0 else |es| + 1 - max
    ensures forall a, b :: a in StoreOne(es, e, max) && b in dropped ==>
      a.accessCount > b.accessCount || (a.accessCount == b.accessCount && a.score >= b.score)
  {
    hide Sort;
    dropped := [];
    if |es| + 1 > max {
      var sorted := Sort(ByUse(), es + [e]);
      ByUseIsTotal();
      SortMultiset(ByUse(), es + [e]);
      SortSorted(ByUse(), es + [e]);
      CutAt(ByUse(), sorted, max);
      dropped := sorted[max..];
    }
  }

  /** The originals of a cluster: its entries that are in the store and not distilled already, in its order. */
  lemma {:induction false} OriginalsIff(es: seq<Entry>, cluster: seq<nat>, e: Entry)
    ensures e in Originals(es, cluster) <==>
      exists c :: 0 <= c < |cluster| && cluster[c] < |es| && es[cluster[c]] == e && !e.synthesized
  {
    if cluster != [] {
      var init, i := cluster[..|cluster| - 1], cluster[|cluster| - 1];
      OriginalsIff(es, init, e);
      if c :| 0 <= c < |init| && init[c] < |es| && es[init[c]] == e && !e.synthesized { assert cluster[c] == init[c]; }
      if c :| 0 <= c < |cluster| && cluster[c] < |es| && es[cluster[c]] == e && !e.synthesized && c < |init| {
        assert init[c] == cluster[c];
      }
    }
  }

  datatype Progress = Progress(entries: seq<Entry>, masters: seq<Entry>, removed: seq<nat>,
                               reverified: nat, reported: nat, errors: nat)

  predicate Usable(reply: Reply) { reply.Wrote? && Strip(reply.text) != "" }

  /** A reply can be used if it has a character that is not white space. */
  lemma UsableIff(reply: Reply)
    ensures Usable(reply) <==> reply.Wrote? && exists k :: 0 <= k < |reply.text| && !IsSpace(reply.text[k])
  {
    hide Strip;
    if reply.Wrote? { StripsToNothingIff(reply.text); }
  }

  lemma StripsToNothingIff(s: string)
    ensures Strip(s) == "" <==> Blank(s)
  {
    hide Strip;
    StripIff(s, "");
    if before, after :| s == before + "" + after && Blank(before) && Blank(after) {
      assert s == before + after;
    }
    if Blank(s) { assert s == s + "" + "" && Blank(""); }
  }

  function Advance(p: Progress, cluster: seq<nat>, reply: Reply, proven: bool, minSize: nat, max: nat): Progress
    requires minSize > 0
  {
    var originals := Originals(p.entries, cluster);
    if |originals| < minSize then p
    else if !Usable(reply) then p.(errors := p.errors + 1)
    else
      var m := Master(originals, Strip(reply.text), proven);
      Progress(StoreOne(p.entries, m, max), p.masters + [m], p.removed + cluster,
               p.reverified + if proven then 1 else 0, p.reported + |originals|, p.errors)
  }

  /** The state after the first k clusters. */
  function Process(es: seq<Entry>, r: Request, k: nat): Progress
    requires k <= |r.clusters| && r.minSize > 0
  {
    if k == 0 then Progress(es, [], [], 0, 0, 0)
    else Advance(Process(es, r, k - 1), r.clusters[k - 1], r.generalist(k - 1), r.proven(k - 1), r.minSize, r.max)
  }

  function Indices(s: seq<nat>): set<nat> { set i | i in s }

  /** The store when the run is over. */
  function Result(p: Progress): seq<Entry> { Outside(p.entries, Indices(p.removed)) }

  // ------------------------------------------------- what stays outside

  lemma {:induction false} OutsideAppend(es: seq<Entry>, ms: seq<Entry>, gone: set<nat>)
    requires forall i :: i in gone ==> i < |es|
    ensures Outside(es + ms, gone) == Outside(es, gone) + ms
  {
    if ms == [] {
      assert es + ms == es && Outside(es, gone) + ms == Outside(es, gone);
    } else {
      var init, m := ms[..|ms| - 1], ms[|ms| - 1];
      OutsideAppend(es, init, gone);
      assert (es + ms)[..|es + ms| - 1] == es + init;
      assert init + [m] == ms;
      assert Outside(es, gone) + init + [m] == Outside(es, gone) + ms;
    }
  }

  /** The indices below n that are in gone. */
  function CountBelow(gone: set<nat>, n: nat): (c: nat)
    ensures c <= n
  {
    if n == 0 then 0 else CountBelow(gone, n - 1) + if n - 1 in gone then 1 else 0
  }

  lemma {:induction false} OutsideLength(es: seq<Entry>, gone: set<nat>)
    ensures |Outside(es, gone)| == |es| - CountBelow(gone, |es|)
  {
    if es != [] { OutsideLength(es[..|es| - 1], gone); }
  }

  lemma {:induction false} CountGrows(gone: set<nat>, n: nat, m: nat)
    requires n <= m
    ensures CountBelow(gone, n) <= CountBelow(gone, m) <= CountBelow(gone, n) + (m - n)
    ensures (forall i :: i in gone ==> i < n) ==> CountBelow(gone, m) == CountBelow(gone, n)
    decreases m
  {
    if n < m { CountGrows(gone, n, m - 1); }
  }

  lemma {:induction false} OutsideKeeps(es: seq<Entry>, gone: set<nat>, i: nat)
    requires i < |es| && i !in gone
    ensures es[i] in Outside(es, gone)
  {
    if i < |es| - 1 { OutsideKeeps(es[..|es| - 1], gone, i); }
  }

  // ------------------------------------------------- conservation

  ghost predicate InRange(r: Request, n: nat) {
    forall c, i :: 0 <= c < |r.clusters| && i in r.clusters[c] ==> i < n
  }

  lemma {:induction false} RemovedInRange(es: seq<Entry>, r: Request, k: nat)
    requires k <= |r.clusters| && r.minSize > 0 && InRange(r, |es|)
    ensures forall i :: i in Process(es, r, k).removed ==> i < |es|
  {
    hide Originals, Master, Strip, Usable, StoreOne;
    if k > 0 { RemovedInRange(es, r, k - 1); }
  }

  /** Without an eviction the masters pile up behind the old entries; with one the store is full. */
  lemma {:induction false} EntriesSoFar(es: seq<Entry>, r: Request, k: nat)
    requires k <= |r.clusters| && r.minSize > 0
    ensures
      var p := Process(es, r, k);
      && (p.masters == [] || |es| + |p.masters| <= r.max ==> p.entries == es + p.masters)
      && (p.masters != [] && |es| + |p.masters| > r.max ==> |p.entries| == r.max)
  {
    hide Originals, Strip;
    if k > 0 {
      EntriesSoFar(es, r, k - 1);
      var q, p := Process(es, r, k - 1), Process(es, r, k);
      if p.masters != q.masters {
        assert p.masters == q.masters + [p.masters[|q.masters|]];
      }
    } else {
      assert es + [] == es;
    }
  }

  // ------------------------------------------------- who is distilled

  /** Decided on the store as it was: enough originals, and a usable reply. */
  predicate Distilled(es: seq<Entry>, r: Request, k: nat)
    requires k < |r.clusters|
  {
    |Originals(es, r.clusters[k])| >= r.minSize && Usable(r.generalist(k))
  }

  function MasterFor(es: seq<Entry>, r: Request, k: nat): Entry
    requires k < |r.clusters| && r.minSize > 0 && Distilled(es, r, k)
  {
    Master(Originals(es, r.clusters[k]), Strip(r.generalist(k).text), r.proven(k))
  }

  /** The masters of the distilled clusters below k, in order. */
  function Masters(es: seq<Entry>, r: Request, k: nat): seq<Entry>
    requires k <= |r.clusters| && r.minSize > 0
  {
    if k == 0 then []
    else
      Masters(es, r, k - 1)
      + if Distilled(es, r, k - 1) then [MasterFor(es, r, k - 1)] else []
  }

  lemma {:induction false} OriginalsIgnoreMasters(es: seq<Entry>, ms: seq<Entry>, cluster: seq<nat>)
    requires forall i :: i in cluster ==> i < |es|
    ensures Originals(es + ms, cluster) == Originals(es, cluster)
  {
    if cluster != [] {
      var init := cluster[..|cluster| - 1];
      assert cluster[|cluster| - 1] in cluster;
      assert forall i :: i in init ==> i in cluster;
      OriginalsIgnoreMasters(es, ms, init);
    }
  }

  /** The indices of the distilled clusters below k, and how many originals those clusters hold. */
  function Removals(es: seq<Entry>, r: Request, k: nat): seq<nat>
    requires k <= |r.clusters|
  {
    if k == 0 then []
    else
      Removals(es, r, k - 1)
      + if Distilled(es, r, k - 1) then r.clusters[k - 1] else []
  }

  function OriginalCount(es: seq<Entry>, r: Request, k: nat): nat
    requires k <= |r.clusters|
  {
    if k == 0 then 0
    else
      OriginalCount(es, r, k - 1)
      + if Distilled(es, r, k - 1) then |Originals(es, r.clusters[k - 1])| else 0
  }

  /** Nothing is to be stored, or the old entries and the masters of the first k clusters fit in the
      store: decided on the old store and the generalist's replies. */
  predicate Fits(es: seq<Entry>, r: Request, k: nat)
    requires k <= |r.clusters| && r.minSize > 0
  {
    Masters(es, r, k) == [] || |es| + |Masters(es, r, k)| <= r.max
  }

  /** When everything fits, earlier masters do not disturb later clusters: the run distils exactly
      the clusters decided on the old store, and takes away exactly their indices. */
  lemma {:induction false} RunDistils(es: seq<Entry>, r: Request, k: nat)
    requires k <= |r.clusters| && r.minSize > 0 && InRange(r, |es|)
    ensures
      var p := Process(es, r, k);
      && (Fits(es, r, k) <==> p.masters == [] || |es| + |p.masters| <= r.max)
      && (Fits(es, r, k) ==>
            p.masters == Masters(es, r, k) && p.removed == Removals(es, r, k) && p.reported == OriginalCount(es, r, k))
  {
    hide Originals, StoreOne, Strip;
    if k > 0 {
      RunDistils(es, r, k - 1);
      var q, cluster := Process(es, r, k - 1), r.clusters[k - 1];
      if Fits(es, r, k - 1) {
        EntriesSoFar(es, r, k - 1);
        OriginalsIgnoreMasters(es, q.masters, cluster);
        assert Originals(q.entries, cluster) == Originals(es, cluster);
        if !Distilled(es, r, k - 1) {
          assert q.masters + [] == q.masters && q.removed + [] == q.removed;
        }
      }
    }
  }

  /** The clusters below k whose call failed or came back blank: those with enough originals and no usable reply. */
  function FailedCalls(es: seq<Entry>, r: Request, k: nat): set<nat>
    requires k <= |r.clusters|
  {
    set c: nat | c < k && |Originals(es, r.clusters[c])| >= r.minSize && !Usable(r.generalist(c))
  }

  lemma FailedCallsNext(es: seq<Entry>, r: Request, k: nat)
    requires k < |r.clusters|
    ensures
      var failed := |Originals(es, r.clusters[k])| >= r.minSize && !Usable(r.generalist(k));
      |FailedCalls(es, r, k + 1)| == |FailedCalls(es, r, k)| + if failed then 1 else 0
  {
    hide Originals, Usable;
    if |Originals(es, r.clusters[k])| >= r.minSize && !Usable(r.generalist(k)) {
      assert FailedCalls(es, r, k + 1) == FailedCalls(es, r, k) + {k};
    } else {
      assert FailedCalls(es, r, k + 1) == FailedCalls(es, r, k);
    }
  }

  function Proven(masters: seq<Entry>): seq<Entry> { Filter((m: Entry) => m.verified, masters) }

  /** The other two counts of the report: how many masters were verified again and, as long as everything fits,
      how many calls failed. */
  lemma ReportCounts(es: seq<Entry>, r: Request, k: nat)
    requires k <= |r.clusters| && r.minSize > 0 && InRange(r, |es|)
    ensures Process(es, r, k).reverified == |Proven(Process(es, r, k).masters)|
    ensures Fits(es, r, k) ==> Process(es, r, k).errors == |FailedCalls(es, r, k)|
  {
    ReverifiedCount(es, r, k);
    if Fits(es, r, k) { ErrorCount(es, r, k); }
  }

  lemma {:induction false} ReverifiedCount(es: seq<Entry>, r: Request, k: nat)
    requires k <= |r.clusters| && r.minSize > 0
    ensures Process(es, r, k).reverified == |Proven(Process(es, r, k).masters)|
  {
    hide Originals, StoreOne, Strip, Usable, Proven;
    if k == 0 {
      NoneProven();
    } else {
      ReverifiedCount(es, r, k - 1);
      var q, p := Process(es, r, k - 1), Process(es, r, k);
      if p.masters != q.masters { ProvenNext(q.masters, p.masters[|q.masters|]); }
    }
  }

  lemma NoneProven()
    ensures Proven([]) == []
  {
  }

  lemma ProvenNext(masters: seq<Entry>, m: Entry)
    ensures |Proven(masters + [m])| == |Proven(masters)| + if m.verified then 1 else 0
  {
    FilterAppend((e: Entry) => e.verified, masters, [m]);
    assert [m][1..] == [];
  }

  lemma {:induction false} ErrorCount(es: seq<Entry>, r: Request, k: nat)
    requires k <= |r.clusters| && r.minSize > 0 && InRange(r, |es|) && Fits(es, r, k)
    ensures Process(es, r, k).errors == |FailedCalls(es, r, k)|
  {
    hide Originals, StoreOne, Strip, Usable, FailedCalls;
    if k == 0 {
      NoFailedCalls(es, r);
    } else {
      ErrorCount(es, r, k - 1);
      FailedCallsNext(es, r, k - 1);
      RunDistils(es, r, k - 1);
      EntriesSoFar(es, r, k - 1);
      OriginalsIgnoreMasters(es, Process(es, r, k - 1).masters, r.clusters[k - 1]);
    }
  }

  lemma NoFailedCalls(es: seq<Entry>, r: Request)
    ensures FailedCalls(es, r, 0) == {}
  {
  }

  /** The run only swaps clusters for their masters (old entries outside the distilled clusters in
      their old order, then one master a cluster) if and only if nothing is to be stored or
      everything fits; otherwise entries are lost. */
  lemma SynthesisConservesIff(es: seq<Entry>, r: Request)
    requires r.minSize > 0 && InRange(r, |es|)
    ensures
      var p := Process(es, r, |r.clusters|);
      && (Result(p) == Outside(es, Indices(p.removed)) + p.masters <==> Fits(es, r, |r.clusters|))
      && (Fits(es, r, |r.clusters|) ==>
            Result(p) == Outside(es, Indices(Removals(es, r, |r.clusters|))) + Masters(es, r, |r.clusters|))
      && |Result(p)| <= |Outside(es, Indices(p.removed))| + |p.masters|
  {
    hide Process, Fits;
    var p := Process(es, r, |r.clusters|);
    var gone := Indices(p.removed);
    RunDistils(es, r, |r.clusters|);
    RemovedInRange(es, r, |r.clusters|);
    EntriesSoFar(es, r, |r.clusters|);
    OutsideAppend(es, p.masters, gone);
    OutsideLength(es, gone);
    OutsideLength(p.entries, gone);
    if p.masters != [] && |es| + |p.masters| > r.max {
      if r.max <= |es| {
        CountGrows(gone, r.max, |es|);
      } else {
        CountGrows(gone, |es|, r.max);
      }
    }
  }

  lemma {:induction false} OneMasterACluster(es: seq<Entry>, r: Request, k: nat)
    requires k <= |r.clusters| && r.minSize > 0
    ensures |Masters(es, r, k)| <= k
  {
    if k > 0 { OneMasterACluster(es, r, k - 1); }
  }

  /** Room for the entries and one master a cluster is enough. */
  lemma RoomForEveryCluster(es: seq<Entry>, r: Request)
    requires r.minSize > 0 && InRange(r, |es|) && |es| + |r.clusters| <= r.max
    ensures Result(Process(es, r, |r.clusters|))
         == Outside(es, Indices(Removals(es, r, |r.clusters|))) + Masters(es, r, |r.clusters|)
  {
    OneMasterACluster(es, r, |r.clusters|);
    SynthesisConservesIff(es, r);
  }

  lemma {:induction false} RemovalMembers(es: seq<Entry>, r: Request, k: nat)
    requires k <= |r.clusters|
    ensures forall i :: i in Removals(es, r, k) <==> exists c :: 0 <= c < k && Distilled(es, r, c) && i in r.clusters[c]
  {
    hide Distilled;
    if k > 0 {
      RemovalMembers(es, r, k - 1);
      var before, after := Removals(es, r, k - 1), Removals(es, r, k);
      forall i
        ensures i in after <==> exists c :: 0 <= c < k && Distilled(es, r, c) && i in r.clusters[c]
      {
        if i in before {
          var c :| 0 <= c < k - 1 && Distilled(es, r, c) && i in r.clusters[c];
        } else if c :| 0 <= c < k && Distilled(es, r, c) && i in r.clusters[c] {
          assert !(c < k - 1);
        }
      }
    }
  }

  /** No entry is in two clusters. */
  ghost predicate Apart(r: Request) {
    forall a, b, i :: 0 <= a < b < |r.clusters| && i in r.clusters[a] ==> i !in r.clusters[b]
  }

  /** A cluster whose generalist call failed or came back blank loses nothing. */
  lemma FailedClusterLosesNothing(es: seq<Entry>, r: Request, k: nat, i: nat)
    requires r.minSize > 0 && InRange(r, |es|) && Apart(r)
    requires Fits(es, r, |r.clusters|)
    requires k < |r.clusters| && !Usable(r.generalist(k)) && i in r.clusters[k]
    ensures i < |es| && es[i] in Result(Process(es, r, |r.clusters|))
  {
    var p := Process(es, r, |r.clusters|);
    RunDistils(es, r, |r.clusters|);
    RemovalMembers(es, r, |r.clusters|);
    SynthesisConservesIff(es, r);
    forall c | 0 <= c < |r.clusters| && Distilled(es, r, c)
      ensures i !in r.clusters[c]
    {
      assert c != k;
    }
    OutsideKeeps(es, Indices(p.removed), i);
  }

  // ------------------------------------------------- the reported count

  lemma {:induction false} CountOneMore(gone: set<nat>, x: nat, n: nat)
    requires x !in gone
    ensures CountBelow(gone + {x}, n) == CountBelow(gone, n) + if x < n then 1 else 0
  {
    if n > 0 { CountOneMore(gone, x, n - 1); }
  }

  lemma {:induction false} CountOfNone(n: nat)
    ensures CountBelow({}, n) == 0
  {
    if n > 0 { CountOfNone(n - 1); }
  }

  lemma {:induction false} CountDistinct(s: seq<nat>, n: nat)
    requires NoDuplicates(s) && forall i :: i in s ==> i < n
    ensures CountBelow(Indices(s), n) == |s|
  {
    if s == [] {
      assert Indices(s) == {};
      CountOfNone(n);
    } else {
      var init, last := s[..|s| - 1], s[|s| - 1];
      assert s == init + [last];
      assert forall i :: i in init ==> i in s;
      CountDistinct(init, n);
      assert Indices(s) == Indices(init) + {last};
      assert last in s && last !in init;
      CountOneMore(Indices(init), last, n);
    }
  }

  predicate AllOriginal(es: seq<Entry>, cluster: seq<nat>) {
    forall i :: 0 <= i < |cluster| ==> cluster[i] < |es| && !es[cluster[i]].synthesized
  }

  lemma {:induction false} OriginalsAreAllIff(es: seq<Entry>, cluster: seq<nat>)
    ensures |Originals(es, cluster)| == |cluster| <==> AllOriginal(es, cluster)
  {
    if cluster != [] { OriginalsAreAllIff(es, cluster[..|cluster| - 1]); }
  }

  lemma {:induction false} RemovalsAreDistinct(es: seq<Entry>, r: Request, k: nat)
    requires k <= |r.clusters| && Apart(r)
    requires forall c :: 0 <= c < |r.clusters| ==> NoDuplicates(r.clusters[c])
    ensures NoDuplicates(Removals(es, r, k))
  {
    hide Distilled;
    if k > 0 {
      RemovalsAreDistinct(es, r, k - 1);
      RemovalMembers(es, r, k - 1);
      var before, cluster := Removals(es, r, k - 1), r.clusters[k - 1];
      forall a, b | 0 <= a < |before| && 0 <= b < |cluster|
        ensures before[a] != cluster[b]
      {
        assert before[a] in before && cluster[b] in cluster;
      }
    }
  }

  lemma {:induction false} OriginalCountIff(es: seq<Entry>, r: Request, k: nat)
    requires k <= |r.clusters|
    ensures OriginalCount(es, r, k) <= |Removals(es, r, k)|
    ensures OriginalCount(es, r, k) == |Removals(es, r, k)|
         <==> forall c :: 0 <= c < k && Distilled(es, r, c) ==> AllOriginal(es, r.clusters[c])
  {
    hide Distilled, AllOriginal, Originals;
    if k > 0 {
      OriginalCountIff(es, r, k - 1);
      OriginalsAreAllIff(es, r.clusters[k - 1]);
    }
  }

  /** The report's count of removed entries is right if and only if no distilled cluster held an
      older master: such a master is removed with its cluster, unread and uncounted. */
  lemma RemovedCountIsRightIff(es: seq<Entry>, r: Request)
    requires r.minSize > 0 && InRange(r, |es|) && Apart(r)
    requires forall c :: 0 <= c < |r.clusters| ==> NoDuplicates(r.clusters[c])
    requires Fits(es, r, |r.clusters|)
    ensures
      var p := Process(es, r, |r.clusters|);
      |Result(p)| == |es| + |p.masters| - p.reported
      <==> forall c :: 0 <= c < |r.clusters| && Distilled(es, r, c) ==> AllOriginal(es, r.clusters[c])
  {
    var p := Process(es, r, |r.clusters|);
    RunDistils(es, r, |r.clusters|);
    RemovalsAreDistinct(es, r, |r.clusters|);
    OriginalCountIff(es, r, |r.clusters|);
    RemovedInRange(es, r, |r.clusters|);
    SynthesisConservesIff(es, r);
    OutsideLength(es, Indices(p.removed));
    CountDistinct(p.removed, |es|);
  }
}

module Synthesis {
  import opened Sequences
  import opened StableSort
  import opened Text
  import opened Distillation
  import ClusterSpec
  import ClusterLoops

  class TrajectoryStore {
    const maxEntries: nat
    var entries: seq<Entry>

    constructor (loaded: seq<Entry>, maxEntries: nat)
      ensures entries == loaded && this.maxEntries == maxEntries
    {
      entries, this.maxEntries := loaded, maxEntries;
    }

    method Append(e: Entry)
      modifies this
      ensures entries == StoreOne(old(entries), e, maxEntries)
    {
      entries := entries + [e];
      if |entries| > maxEntries {
        entries := Sort(ByUse(), entries)[..maxEntries];
      }
    }

    method StoreSynthesized(query: string, answer: string, taskType: string, sources: seq<string>)
      modifies this
      ensures
        var master := Entry(query, answer, 0.0, taskType, "synthesized", false, true, sources, 0);
        entries == if Strip(answer) == "" then old(entries) else StoreOne(old(entries), master, maxEntries)
    {
      if Strip(answer) == "" { return; }
      Append(Entry(query, answer, 0.0, taskType, "synthesized", false, true, sources, 0));
    }

    method StoreSynthesizedVerified(query: string, answer: string, taskType: string, sources: seq<string>)
      modifies this
      ensures
        var master := Entry(query, answer, 0.65, taskType, "synthesized_and_proven", true, true, sources, 0);
        entries == if Strip(answer) == "" then old(entries) else StoreOne(old(entries), master, maxEntries)
    {
      if Strip(answer) == "" { return; }
      Append(Entry(query, answer, 0.65, taskType, "synthesized_and_proven", true, true, sources, 0));
    }

    method RemoveEntries(indices: seq<nat>)
      modifies this
      ensures entries == Outside(old(entries), Indices(indices))
    {
      if indices == [] {
        NothingGone(entries);
        return;
      }
      var kept: seq<Entry> := [];
      for i := 0 to |entries|
        invariant entries == old(entries)
        invariant kept == Outside(entries[..i], Indices(indices))
      {
        assert entries[..i + 1][..i] == entries[..i];
        if i !in indices { kept := kept + [entries[i]]; }
      }
      assert entries[..|entries|] == entries;
      entries := kept;
    }
  }

  lemma {:induction false} NothingGone(es: seq<Entry>)
    ensures Outside(es, Indices([])) == es
  {
    if es != [] {
      NothingGone(es[..|es| - 1]);
      assert es == es[..|es| - 1] + [es[|es| - 1]];
    }
  }

  lemma {:induction false} StripTwice(s: string)
    ensures Strip(Strip(s)) == Strip(s)
  {
    TrimLeftEnds(s);
    TrimRightEnds(TrimLeft(s));
    TrimRightKeepsFirst(TrimLeft(s));
  }

  lemma {:induction false} TrimLeftEnds(s: string)
    ensures TrimLeft(s) != [] ==> !IsSpace(TrimLeft(s)[0])
  {
    if s != [] && IsSpace(s[0]) { TrimLeftEnds(s[1..]); }
  }

  lemma {:induction false} TrimRightEnds(s: string)
    ensures TrimRight(s) != [] ==> !IsSpace(TrimRight(s)[|TrimRight(s)| - 1])
  {
    if s != [] && IsSpace(s[|s| - 1]) { TrimRightEnds(s[..|s| - 1]); }
  }

  lemma {:induction false} TrimRightKeepsFirst(s: string)
    ensures TrimRight(s) != [] ==> s != [] && TrimRight(s)[0] == s[0]
  {
    if s != [] && IsSpace(s[|s| - 1]) { TrimRightKeepsFirst(s[..|s| - 1]); }
  }

  datatype Report = Report(clustersFound: nat, mastersStored: nat, mastersReverified: nat, entriesRemoved: nat, errors: nat)

  /** At most maxClusters clusters are looked at. */
  function Capped(r: Request, maxClusters: nat): Request {
    if |r.clusters| > maxClusters then r.(clusters := r.clusters[..maxClusters]) else r
  }

  /** What `find_clusters` reports meets the conditions of the theorems about the run. */
  lemma ReportedClustersQualify(r: Request, maxClusters: nat, n: nat)
    requires ClusterLoops.Separate(r.clusters, n)
    ensures
      var capped := Capped(r, maxClusters);
      && InRange(capped, n) && Apart(capped)
      && forall c :: 0 <= c < |capped.clusters| ==> NoDuplicates(capped.clusters[c])
  {
    var capped := Capped(r, maxClusters);
    assert forall c :: 0 <= c < |capped.clusters| ==> capped.clusters[c] == r.clusters[c];
    forall c | 0 <= c < |capped.clusters|
      ensures NoDuplicates(capped.clusters[c])
    {
      assert ClusterSpec.Increasing(r.clusters[c]);
    }
    forall a, b, i | 0 <= a < b < |capped.clusters| && i in capped.clusters[a]
      ensures i !in capped.clusters[b]
    {
      var k :| 0 <= k < |r.clusters[a]| && r.clusters[a][k] == i;
    }
  }

  method Gather(es: seq<Entry>, cluster: seq<nat>) returns (originals: seq<Entry>)
    ensures originals == Originals(es, cluster)
  {
    originals := [];
    for j := 0 to |cluster|
      invariant originals == Originals(es, cluster[..j])
    {
      var i := cluster[j];
      assert cluster[..j + 1][..j] == cluster[..j];
      if i < |es| && !es[i].synthesized { originals := originals + [es[i]]; }
    }
    assert cluster[..|cluster|] == cluster;
  }

  /** The loop of `synthesize_trajectories` over the clusters that `find_clusters` reported. */
  method SynthesizeTrajectories(store: TrajectoryStore, asked: Request, maxClusters: nat) returns (report: Report)
    requires asked.minSize > 0 && asked.max == store.maxEntries
    modifies store
    ensures
      var r := Capped(asked, maxClusters);
      var p := Process(old(store.entries), r, |r.clusters|);
      && store.entries == Result(p)
      && report == Report(|r.clusters|, |p.masters|, p.reverified, p.reported, p.errors)
  {
    hide Originals, StoreOne, Strip, Representative, Outside;
    var r := Capped(asked, maxClusters);
    var stored, reverified, removedCount, errors := 0, 0, 0, 0;
    var removed: seq<nat> := [];
    for k := 0 to |r.clusters|
      invariant
        var p := Process(old(store.entries), r, k);
        && store.entries == p.entries && stored == |p.masters| && removed == p.removed
        && reverified == p.reverified && removedCount == p.reported && errors == p.errors
    {
      var originals := Gather(store.entries, r.clusters[k]);
      if |originals| < r.minSize { continue; }
      var reply := r.generalist(k);
      if reply.Failed? { errors := errors + 1; continue; }
      if Strip(reply.text) == "" { errors := errors + 1; continue; }
      var best, text := Representative(originals), Strip(reply.text);
      StripTwice(reply.text);
      if r.proven(k) {
        store.StoreSynthesizedVerified(best.query, text, best.taskType, Queries(originals));
        reverified := reverified + 1;
      } else {
        store.StoreSynthesized(best.query, text, best.taskType, Queries(originals));
      }
      stored, removed, removedCount := stored + 1, removed + r.clusters[k], removedCount + |originals|;
    }
    if removed != [] {
      store.RemoveEntries(removed);
    } else {
      NothingGone(store.entries);
    }
    report := Report(|r.clusters|, stored, reverified, removedCount, errors);
  }
}
