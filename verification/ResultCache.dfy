/** The cache of verified results: what it may serve, how it finds the nearest entry, and what
    an eviction keeps. */
module ResultEntries {
  import opened Sequences
  import opened StableSort
  import opened Text

  type Embedding = seq<real>

  /** A key that is missing from a stored entry holds the default that the code reads for it. */
  datatype Entry = Entry(problem: string, embedding: Embedding, bestAnswer: string, answer: string,
                         bestScore: real, verified: bool, verifiedBy: string, claimCount: int,
                         failure: string, transportFailures: int, schemaVersion: int, accessCount: int)

  const SCHEMA_VERSION := 3
  const SELF_CLAIMS := "self_claims_only"

  predicate BadAnswer(answer: string) {
    answer == "no clear answer found" || answer == "all trajectories failed"
    || answer == "generalist call failed" || answer == "specialist call failed"
    || answer == "" || answer == "none" || answer == "null" || answer == "n/a"
  }

  predicate Trustworthy(e: Entry, allowWeak: bool) {
    var answer := Strip(if e.bestAnswer != "" then e.bestAnswer else e.answer);
    if answer == "" then false
    else if BadAnswer(Lower(answer)) then false
    else if e.failure != "" then false
    else if e.transportFailures > 0 && !e.verified then false
    else if e.claimCount < 5 then false
    else if e.verifiedBy == SELF_CLAIMS && !allowWeak then false
    else if e.verifiedBy == SELF_CLAIMS && e.bestScore > 0.65 then false
    else if e.verifiedBy != SELF_CLAIMS && !e.verified then false
    else e.schemaVersion >= SCHEMA_VERSION
  }

  /** The gate in front of insertion. */
  predicate ShouldCache(e: Entry, answerPresent: bool, allowWeak: bool) {
    if !answerPresent then false
    else if e.failure != "" then false
    else if BadAnswer(Lower(Strip(e.bestAnswer))) then false
    else if e.claimCount < 5 then false
    else if e.bestScore < 0.75 then false
    else if e.verifiedBy == SELF_CLAIMS && !allowWeak then false
    else if e.verifiedBy != SELF_CLAIMS && !e.verified then false
    else e.transportFailures <= 0
  }

  /** What an entry must be to be served: presentable, without a failure, on five claims or more, of the current
      schema, and verified; or, where weak entries are allowed, unverified self-claims that score at most 0.65
      and had no transport failure. */
  lemma TrustworthyIff(e: Entry, allowWeak: bool)
    ensures
      var shown := Strip(if e.bestAnswer != "" then e.bestAnswer else e.answer);
      Trustworthy(e, allowWeak) <==>
        && shown != ""
        && Lower(shown) !in {"no clear answer found", "all trajectories failed", "generalist call failed",
                             "specialist call failed", "none", "null", "n/a", ""}
        && e.failure == "" && e.claimCount >= 5 && e.schemaVersion >= 3
        && (if e.verifiedBy == "self_claims_only"
            then allowWeak && e.bestScore <= 0.65 && (e.verified || e.transportFailures <= 0)
            else e.verified)
  {
  }

  /** What a result must be to be stored: verified, or weak where that is allowed; and in either case no
      transport failure and a score of 0.75 at least. */
  lemma ShouldCacheIff(e: Entry, answerPresent: bool, allowWeak: bool)
    ensures
      ShouldCache(e, answerPresent, allowWeak) <==>
        && answerPresent
        && Lower(Strip(e.bestAnswer)) !in {"no clear answer found", "all trajectories failed", "generalist call failed",
                                           "specialist call failed", "none", "null", "n/a", ""}
        && e.failure == "" && e.transportFailures <= 0 && e.claimCount >= 5 && e.bestScore >= 0.75
        && (if e.verifiedBy == "self_claims_only" then allowWeak else e.verified)
  {
  }

  /** The two gates agree except on weak entries: what the first lets in with `allow_weak_cache`
      scores at least 0.75, and the second turns away every weak entry above 0.65. */
  lemma AdmittedIsServedIff(e: Entry, answerPresent: bool, allowWeak: bool)
    requires ShouldCache(e, answerPresent, allowWeak) && e.schemaVersion == SCHEMA_VERSION
    ensures Trustworthy(e, allowWeak) <==> e.verifiedBy != SELF_CLAIMS
  {
    assert Strip("") == "" && Lower("") == "";
  }

  /** What an insertion mirrors to a vector store: the claim count is not among it. */
  function Mirrored(e: Entry): Entry {
    e.(embedding := [], answer := "", claimCount := 0, failure := "", transportFailures := 0, accessCount := 0)
  }

  /** So a lookup that trusts the vector store alone never serves what insertions put there, however
      well it was verified. */
  lemma MirroredIsNeverServed(e: Entry, allowWeak: bool)
    ensures
      var m := Mirrored(e);
      && m.problem == e.problem && m.bestAnswer == e.bestAnswer && m.bestScore == e.bestScore
      && m.verified == e.verified && m.verifiedBy == e.verifiedBy && m.schemaVersion == e.schemaVersion
      && m.embedding == [] && m.answer == "" && m.failure == "" && m.claimCount == m.transportFailures == m.accessCount == 0
    ensures !Trustworthy(Mirrored(e), allowWeak)
  {
  }

  /** The embedding index: one row an entry, or absent when some entry has no embedding. */
  function Index(es: seq<Entry>): Option<seq<Embedding>> {
    if es == [] || (exists e :: e in es && e.embedding == []) then None
    else Some(Map((e: Entry) => e.embedding, es))
  }

  /** There is an index unless the cache is empty or some entry has no embedding. */
  lemma IndexIff(es: seq<Entry>)
    ensures Index(es).None? <==> es == [] || exists i :: 0 <= i < |es| && es[i].embedding == []
    ensures Index(es).Some? ==> |Index(es).value| == |es| && forall i :: 0 <= i < |es| ==> Index(es).value[i] == es[i].embedding
  {
    if i :| 0 <= i < |es| && es[i].embedding == [] { assert es[i] in es; }
  }

  function Bump(e: Entry): Entry { e.(accessCount := e.accessCount + 1) }

  lemma BumpKeepsIndex(es: seq<Entry>, i: nat)
    requires i < |es|
    ensures Index(es[i := Bump(es[i])]) == Index(es)
  {
    var after := es[i := Bump(es[i])];
    forall e | e in after && e.embedding == []
      ensures exists d :: d in es && d.embedding == []
    {
      var k :| 0 <= k < |after| && after[k] == e;
      assert es[k] in es && es[k].embedding == [];
    }
    forall e | e in es && e.embedding == []
      ensures exists d :: d in after && d.embedding == []
    {
      var k :| 0 <= k < |es| && es[k] == e;
      assert after[k] in after && after[k].embedding == [];
    }
    assert Map((e: Entry) => e.embedding, after) == Map((e: Entry) => e.embedding, es);
  }

  // ------------------------------------------------- searching

  predicate ExactMatch(e: Entry, problem: string, minScore: real, weak: bool) {
    e.problem == problem && e.bestScore >= minScore && Trustworthy(e, weak)
  }

  predicate Near(e: Entry, sim: real, threshold: real, minScore: real, weak: bool) {
    sim >= threshold && e.bestScore >= minScore && Trustworthy(e, weak)
  }

  /** Every index once, by descending similarity; ties in any order. */
  ghost predicate Ranking(ranked: seq<nat>, sims: seq<real>) {
    && NoDuplicates(ranked)
    && (forall a :: 0 <= a < |ranked| ==> ranked[a] < |sims|)
    && (forall k :: 0 <= k < |sims| ==> k in ranked)
    && (forall a, b :: 0 <= a < b < |ranked| ==> sims[ranked[a]] >= sims[ranked[b]])
  }

  lemma {:induction false} OnceEach(s: seq<nat>, x: nat)
    requires NoDuplicates(s)
    ensures multiset(s)[x] <= 1
  {
    if s != [] {
      OnceEach(s[1..], x);
      assert s == [s[0]] + s[1..];
      if s[0] == x { assert x !in multiset(s[1..]); }
    }
  }

  lemma RearrangedIsDistinct(s: seq<nat>, t: seq<nat>)
    requires NoDuplicates(s) && multiset(s) == multiset(t)
    ensures NoDuplicates(t)
  {
    forall i, j | 0 <= i < j < |t|
      ensures t[i] != t[j]
    {
      OnceEach(s, t[j]);
      assert t == t[..j] + ([t[j]] + t[j + 1..]);
      assert t[..j][i] == t[i] && t[i] in multiset(t[..j]);
    }
  }

  /** Such an order exists for any similarities, ties and all. */
  lemma RankingExists(sims: seq<real>) returns (ranked: seq<nat>)
    ensures Ranking(ranked, sims)
  {
    hide Sort;
    var all: seq<nat> := seq(|sims|, i requires 0 <= i < |sims| => i);
    var before := Descending(sims);
    DescendingIsTotal(sims);
    ranked := Sort<nat>(before, all);
    SortMultiset(before, all);
    SortMembers(before, all);
    SortSorted(before, all);
    assert forall k :: 0 <= k < |sims| ==> all[k] in all;
    RearrangedIsDistinct(all, ranked);
    forall a | 0 <= a < |ranked|
      ensures ranked[a] < |sims|
    {
      assert ranked[a] in all;
    }
    forall k | 0 <= k < |sims|
      ensures k in ranked
    {
      assert all[k] == k;
    }
    forall a, b | 0 <= a < b < |ranked|
      ensures sims[ranked[a]] >= sims[ranked[b]]
    {
      assert before(ranked[a], ranked[b]);
    }
  }

  function Descending(sims: seq<real>): (nat, nat) -> bool {
    (a: nat, b: nat) => if a < |sims| && b < |sims| then sims[a] >= sims[b] else b >= |sims|
  }

  lemma DescendingIsTotal(sims: seq<real>)
    ensures TotalPreorder(Descending(sims))
  {
  }

  /** The first entry in file order that answers this very problem. */
  method FirstExact(es: seq<Entry>, problem: string, minScore: real, weak: bool) returns (at: Option<nat>)
    ensures at.None? <==> forall j :: 0 <= j < |es| ==> !ExactMatch(es[j], problem, minScore, weak)
    ensures at.Some? ==> at.value < |es| && ExactMatch(es[at.value], problem, minScore, weak)
    ensures at.Some? ==> forall j :: 0 <= j < at.value ==> !ExactMatch(es[j], problem, minScore, weak)
  {
    for i := 0 to |es|
      invariant forall j :: 0 <= j < i ==> !ExactMatch(es[j], problem, minScore, weak)
    {
      if es[i].problem != problem { continue; }
      if es[i].bestScore < minScore { continue; }
      if !Trustworthy(es[i], weak) { continue; }
      return Some(i);
    }
    return None;
  }

  /** Stopping at the first similarity below the threshold loses nothing. */
  method MostSimilar(es: seq<Entry>, sims: seq<real>, ranked: seq<nat>, threshold: real, minScore: real, weak: bool)
    returns (at: Option<nat>)
    requires |sims| == |es| && Ranking(ranked, sims)
    ensures at.None? <==> forall j :: 0 <= j < |es| ==> !Near(es[j], sims[j], threshold, minScore, weak)
    ensures at.Some? ==> at.value < |es| && Near(es[at.value], sims[at.value], threshold, minScore, weak)
    ensures at.Some? ==>
              forall j :: 0 <= j < |es| && Near(es[j], sims[j], threshold, minScore, weak) ==> sims[j] <= sims[at.value]
  {
    for r := 0 to |ranked|
      invariant forall q :: 0 <= q < r ==> !Near(es[ranked[q]], sims[ranked[q]], threshold, minScore, weak)
    {
      var idx := ranked[r];
      assert idx in ranked;
      forall j | 0 <= j < |es| && Near(es[j], sims[j], threshold, minScore, weak)
        ensures sims[j] <= sims[idx]
      {
        RankBounds(ranked, sims, r, j);
      }
      if sims[idx] < threshold { return None; }
      if es[idx].bestScore < minScore { continue; }
      if !Trustworthy(es[idx], weak) { continue; }
      return Some(idx);
    }
    forall j | 0 <= j < |es|
      ensures !Near(es[j], sims[j], threshold, minScore, weak)
    {
      assert j in ranked;
    }
    return None;
  }

  /** An index that is not among the first r ranks is no more similar than rank r. */
  lemma RankBounds(ranked: seq<nat>, sims: seq<real>, r: nat, j: nat)
    requires Ranking(ranked, sims) && r < |ranked| && j < |sims|
    ensures ranked[r] in ranked
    ensures (exists q :: 0 <= q < r && ranked[q] == j) || sims[j] <= sims[ranked[r]]
  {
    assert j in ranked;
    var q :| 0 <= q < |ranked| && ranked[q] == j;
  }

  // ------------------------------------------------- eviction

  /** Most used first; the better score first among equally used ones. */
  function ByUse(): (Entry, Entry) -> bool {
    (a: Entry, b: Entry) => a.accessCount > b.accessCount || (a.accessCount == b.accessCount && a.bestScore >= b.bestScore)
  }

  lemma ByUseIsTotal()
    ensures TotalPreorder(ByUse())
  {
  }

  function Kept(es: seq<Entry>, max: nat): (r: seq<Entry>) {
    if |es| > max then Sort(ByUse(), es)[..max] else es
  }

  function Evicted(es: seq<Entry>, max: nat): (r: seq<Entry>) {
    if |es| > max then Sort(ByUse(), es)[max..] else []
  }

  /** An eviction splits the entries in two, keeps at most max, and every kept entry is at
      least as used and as good as every evicted one. */
  lemma EvictionKeepsTheBest(es: seq<Entry>, max: nat)
    ensures |Kept(es, max)| == if |es| > max then max else |es|
    ensures multiset(Kept(es, max)) + multiset(Evicted(es, max)) == multiset(es)
    ensures forall a, b :: a in Kept(es, max) && b in Evicted(es, max) ==>
      a.accessCount > b.accessCount || (a.accessCount == b.accessCount && a.bestScore >= b.bestScore)
  {
    if |es| > max {
      hide Sort;
      ByUseIsTotal();
      SortMultiset(ByUse(), es);
      SortSorted(ByUse(), es);
      CutAt(ByUse(), Sort(ByUse(), es), max);
    } else {
      assert es + [] == es;
    }
  }

  /** n was used more often, or as often and scores better. */
  predicate Beats(n: Entry, e: Entry) {
    n.accessCount > e.accessCount || (n.accessCount == e.accessCount && n.bestScore > e.bestScore)
  }

  /** A full cache keeps a new entry if and only if it was used more often than some old one, or as often with a
      better score: otherwise the entry just appended is the one evicted. */
  lemma NewEntryDisplacesIff(es: seq<Entry>, n: Entry)
    requires es != []
    ensures !(exists e :: e in es && Beats(n, e)) ==>
              Evicted(es + [n], |es|) == [n] && Kept(es + [n], |es|) == Sort(ByUse(), es)
    ensures (exists e :: e in es && Beats(n, e)) ==>
              Evicted(es + [n], |es|) == [Sort(ByUse(), es)[|es| - 1]] && n in Kept(es + [n], |es|)
  {
    var le, m := ByUse(), |es|;
    assert forall e :: Beats(n, e) <==> !le(e, n);
    ByUseIsTotal();
    assert (es + [n])[..m] == es;
    var all := Sort(le, es + [n]);
    assert all == Insert(le, n, Sort(le, es)) && all[m..] == [all[m]];
    if forall e :: e in es ==> le(e, n) {
      WeakestGoesLast(es, n);
    } else {
      StrongerGoesBefore(es, n);
      var q :| 0 <= q < m && all[q] == n;
      assert all[..m][q] == n;
    }
  }

  lemma WeakestGoesLast(es: seq<Entry>, n: Entry)
    requires forall e :: e in es ==> ByUse()(e, n)
    ensures Insert(ByUse(), n, Sort(ByUse(), es)) == Sort(ByUse(), es) + [n]
  {
    var sorted := Sort(ByUse(), es);
    SortMembers(ByUse(), es);
    assert forall i :: 0 <= i < |sorted| ==> sorted[i] in sorted;
    InsertLast(ByUse(), n, sorted);
  }

  lemma StrongerGoesBefore(es: seq<Entry>, n: Entry)
    requires es != [] && !(forall e :: e in es ==> ByUse()(e, n))
    ensures
      var all := Insert(ByUse(), n, Sort(ByUse(), es));
      all[|es|] == Sort(ByUse(), es)[|es| - 1] && exists q :: 0 <= q < |es| && all[q] == n
  {
    var sorted := Sort(ByUse(), es);
    ByUseIsTotal();
    SortSorted(ByUse(), es);
    SortMembers(ByUse(), es);
    var e :| e in es && !ByUse()(e, n);
    assert e in sorted;
    InsertBeforeLast(ByUse(), n, sorted);
  }
}

module ResultCache {
  import opened Sequences
  import StableSort
  import opened ResultEntries

  datatype Hit = Hit(bestAnswer: string, bestScore: real, similarity: real, matchedProblem: string)

  class CLRResultCache {
    const model: Option<string -> Embedding>
    const similarity: (Embedding, Embedding) -> real
    const argsort: seq<real> -> seq<nat>
    const semantic: bool
    const vectorOnly: bool
    const search: Embedding -> Option<(Entry, real)>
    const threshold: real
    const minScore: real
    const maxEntries: nat
    var entries: seq<Entry>
    var matrix: Option<seq<Embedding>>

    ghost predicate Valid()
      reads this
    {
      matrix == Index(entries) && forall sims :: Ranking(argsort(sims), sims)
    }

    constructor (loaded: seq<Entry>, model: Option<string -> Embedding>, similarity: (Embedding, Embedding) -> real,
                 argsort: seq<real> -> seq<nat>, semantic: bool, vectorOnly: bool, search: Embedding -> Option<(Entry, real)>,
                 threshold: real, minScore: real, maxEntries: nat)
      requires forall sims :: Ranking(argsort(sims), sims)
      ensures Valid() && entries == loaded
      ensures this.model == model && this.similarity == similarity && this.argsort == argsort && this.semantic == semantic
      ensures this.vectorOnly == vectorOnly && this.search == search
      ensures this.threshold == threshold && this.minScore == minScore && this.maxEntries == maxEntries
    {
      this.model, this.similarity, this.argsort, this.semantic := model, similarity, argsort, semantic;
      this.vectorOnly, this.search := vectorOnly, search;
      this.threshold, this.minScore, this.maxEntries := threshold, minScore, maxEntries;
      entries, matrix := loaded, Index(loaded);
    }

    /** Without an index, lookups compare problem texts. */
    predicate Exact()
      reads this
    {
      !semantic || model.None? || matrix.None?
    }

    ghost function Sim(problem: string, e: Entry): real
      requires model.Some?
    {
      similarity(model.value(problem), e.embedding)
    }

    /** What the vector store finds nearest, and how near it is. */
    ghost function Nearest(problem: string): Option<(Entry, real)> {
      if model.None? then None else search(model.value(problem))
    }

    method Lookup(problem: string, weak: bool) returns (hit: Option<Hit>, ghost at: Option<nat>)
      requires Valid()
      modifies this
      ensures Valid() && matrix == old(matrix)
      ensures at.Some? ==> at.value < |old(entries)|
      ensures at.None? ==> entries == old(entries)
      ensures at.Some? ==>
                var e := old(entries)[at.value];
                entries == old(entries)[at.value := e.(accessCount := e.accessCount + 1)]
      ensures vectorOnly ==>
                && at.None?
                && (hit.Some? <==>
                      && Nearest(problem).Some? && Nearest(problem).value.1 >= threshold
                      && Nearest(problem).value.0.bestScore >= minScore && Trustworthy(Nearest(problem).value.0, weak))
                && (hit.Some? ==>
                      var (e, sim) := Nearest(problem).value;
                      hit.value == Hit(e.bestAnswer, e.bestScore, sim, e.problem))
      ensures !vectorOnly && old(Exact()) ==>
                && (at.None? <==> forall e :: e in old(entries) ==> !ExactMatch(e, problem, minScore, weak))
                && (at.Some? ==>
                      && ExactMatch(old(entries)[at.value], problem, minScore, weak)
                      && forall j :: 0 <= j < at.value ==> !ExactMatch(old(entries)[j], problem, minScore, weak))
      ensures !vectorOnly && !old(Exact()) ==>
                && (at.None? <==> forall e :: e in old(entries) ==> !Near(e, Sim(problem, e), threshold, minScore, weak))
                && (at.Some? ==>
                      && Near(old(entries)[at.value], Sim(problem, old(entries)[at.value]), threshold, minScore, weak)
                      && forall e :: e in old(entries) && Near(e, Sim(problem, e), threshold, minScore, weak)
                           ==> Sim(problem, e) <= Sim(problem, old(entries)[at.value]))
      ensures !vectorOnly && old(Exact()) ==>
                (hit.Some? <==> exists e :: e in old(entries) && e.problem == problem && e.bestScore >= minScore && Trustworthy(e, weak))
      ensures !vectorOnly && !old(Exact()) ==>
                (hit.Some? <==> exists e :: e in old(entries) && Sim(problem, e) >= threshold && e.bestScore >= minScore && Trustworthy(e, weak))
      ensures !vectorOnly ==> (hit.Some? <==> at.Some?)
      ensures !vectorOnly && hit.Some? ==>
                var e := old(entries)[at.value];
                hit.value == Hit(e.bestAnswer, e.bestScore, if old(Exact()) then 1.0 else Sim(problem, e), e.problem)
    {
      hide Trustworthy, Ranking, Index;
      IndexIff(entries);
      hit, at := None, None;
      if vectorOnly {
        if model.None? { return; }
        var nearest := search(model.value(problem));
        if nearest.None? { return; }
        var (e, sim) := nearest.value;
        if sim < threshold { return; }
        if e.bestScore < minScore { return; }
        if !Trustworthy(e, weak) { return; }
        hit := Some(Hit(e.bestAnswer, e.bestScore, sim, e.problem));
        return;
      }
      if entries == [] { return; }
      if Exact() {
        var found := FirstExact(entries, problem, minScore, weak);
        at := found;
        if found.Some? {
          hit := Answer(found.value, 1.0);
        }
        return;
      }
      var q, rows := model.value(problem), matrix.value;
      var sims := seq(|rows|, i requires 0 <= i < |rows| => similarity(q, rows[i]));
      assert forall i :: 0 <= i < |entries| ==> sims[i] == Sim(problem, entries[i]);
      var found := MostSimilar(entries, sims, argsort(sims), threshold, minScore, weak);
      at := found;
      if found.Some? {
        hit := Answer(found.value, sims[found.value]);
      }
    }

    method Answer(i: nat, sim: real) returns (hit: Option<Hit>)
      requires Valid() && i < |entries|
      modifies this
      ensures Valid() && matrix == old(matrix)
      ensures entries == old(entries)[i := Bump(old(entries)[i])]
      ensures hit == Some(Hit(old(entries)[i].bestAnswer, old(entries)[i].bestScore, sim, old(entries)[i].problem))
    {
      BumpKeepsIndex(entries, i);
      entries := entries[i := Bump(entries[i])];
      hit := Some(Hit(entries[i].bestAnswer, entries[i].bestScore, sim, entries[i].problem));
    }

    /** `given` carries the caller's arguments; its embedding, schema version and count are set here. */
    method InsertEntry(given: Entry)
      requires Valid()
      modifies this
      ensures Valid()
      ensures
        var added := given.(embedding := if model.Some? then model.value(given.problem) else [],
                            answer := "", schemaVersion := SCHEMA_VERSION, accessCount := 0);
        entries == Kept(old(entries) + [added], maxEntries)
      ensures |entries| <= maxEntries
    {
      hide StableSort.Sort, Index;
      var embedding := if model.Some? then model.value(given.problem) else [];
      entries := entries + [given.(embedding := embedding, answer := "", schemaVersion := SCHEMA_VERSION, accessCount := 0)];
      if |entries| > maxEntries {
        entries := StableSort.Sort(ByUse(), entries)[..maxEntries];
      }
      matrix := Index(entries);
    }
  }
  /** Texts are compared when semantic search is off or has no model, and as long as some entry was stored
      without an embedding. */
  lemma ExactIff(c: CLRResultCache)
    requires c.Valid()
    ensures c.Exact() <==>
      !c.semantic || c.model.None? || c.entries == [] || exists i :: 0 <= i < |c.entries| && c.entries[i].embedding == []
  {
    IndexIff(c.entries);
  }
}
