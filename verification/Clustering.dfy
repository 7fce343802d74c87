/** Greedy clustering of the trajectory store: what it computes, stated without the loop, and
    the direct and the chunked loop that both compute it. */
module ClusterSpec {
  import opened Sequences

  /** The similarity of two rows, by position; which pairs are close enough. */
  type Similarity = (nat, nat) -> real

  predicate Close(sim: Similarity, threshold: real, i: nat, j: nat) { sim(i, j) >= threshold }

  /** j starts a cluster of its own when no earlier leader is close to it. */
  predicate IsLeader(sim: Similarity, threshold: real, j: nat)
    decreases j
  {
    forall i :: 0 <= i < j ==> !(IsLeader(sim, threshold, i) && Close(sim, threshold, i, j))
  }

  predicate Claims(sim: Similarity, threshold: real, i: nat, j: nat) {
    IsLeader(sim, threshold, i) && Close(sim, threshold, i, j)
  }

  /** The first leader at or after position i that is close to j, or j itself. */
  function FirstLeader(sim: Similarity, threshold: real, i: nat, j: nat): (l: nat)
    requires i <= j
    ensures i <= l <= j
    decreases j - i
  {
    if i == j || Claims(sim, threshold, i, j) then i else FirstLeader(sim, threshold, i + 1, j)
  }

  function Leader(sim: Similarity, threshold: real, j: nat): (l: nat)
    ensures l <= j
  {
    FirstLeader(sim, threshold, 0, j)
  }

  lemma {:induction false} FirstLeaderFacts(sim: Similarity, threshold: real, i: nat, j: nat)
    requires i <= j
    ensures
      var l := FirstLeader(sim, threshold, i, j);
      && (l < j ==> Claims(sim, threshold, l, j))
      && (forall k :: i <= k < l ==> !Claims(sim, threshold, k, j))
    decreases j - i
  {
    if i < j && !Claims(sim, threshold, i, j) { FirstLeaderFacts(sim, threshold, i + 1, j); }
  }

  /** Everyone's leader is a leader, close to it and the first such; leaders lead themselves. */
  lemma LeaderFacts(sim: Similarity, threshold: real, j: nat)
    ensures
      var l := Leader(sim, threshold, j);
      && IsLeader(sim, threshold, l)
      && (l == j <==> IsLeader(sim, threshold, j))
      && (l != j ==> Close(sim, threshold, l, j))
      && (forall k :: 0 <= k < l ==> !Claims(sim, threshold, k, j))
  {
    FirstLeaderFacts(sim, threshold, 0, j);
    var l := Leader(sim, threshold, j);
    if l == j {
      forall i | 0 <= i < j
        ensures !(IsLeader(sim, threshold, i) && Close(sim, threshold, i, j))
      {
        assert !Claims(sim, threshold, i, j);
      }
    } else {
      assert Claims(sim, threshold, l, j);
    }
  }

  /** No leader is close to a later leader, whether or not their groups were large enough to report. */
  lemma LeadersAreFarApart(sim: Similarity, threshold: real, i: nat, j: nat)
    requires i < j && IsLeader(sim, threshold, i) && IsLeader(sim, threshold, j)
    ensures sim(i, j) < threshold
  {
    assert !Close(sim, threshold, i, j);
  }

  function Range(a: nat, b: nat): (r: seq<nat>)
    requires a <= b
    ensures |r| == b - a
    ensures forall k :: 0 <= k < |r| ==> r[k] == a + k
  {
    seq(b - a, k requires 0 <= k < b - a => a + k)
  }

  function LedBy(sim: Similarity, threshold: real, i: nat): nat -> bool {
    (j: nat) => Leader(sim, threshold, j) == i
  }

  /** Leader i followed by the positions below n that it leads. */
  function Cluster(sim: Similarity, threshold: real, n: nat, i: nat): seq<nat>
    requires i <= n
  {
    Filter(LedBy(sim, threshold, i), Range(i, n))
  }

  /** The groups of the leaders below k that have at least min members. */
  function Clusters(sim: Similarity, threshold: real, n: nat, min: nat, k: nat): seq<seq<nat>>
    requires k <= n
  {
    if k == 0 then []
    else
      var group := Cluster(sim, threshold, n, k - 1);
      Clusters(sim, threshold, n, min, k - 1)
      + if IsLeader(sim, threshold, k - 1) && |group| >= min then [group] else []
  }

  predicate Increasing(s: seq<nat>) { forall a, b :: 0 <= a < b < |s| ==> s[a] < s[b] }

  lemma {:induction false} FilterIncreasing(p: nat -> bool, s: seq<nat>)
    requires Increasing(s)
    ensures Increasing(Filter(p, s))
  {
    if s != [] {
      FilterIncreasing(p, s[1..]);
      FilterMembers(p, s[1..]);
      var rest := Filter(p, s[1..]);
      forall b | 0 <= b < |rest|
        ensures s[0] < rest[b]
      {
        assert rest[b] in rest;
        var k :| 0 <= k < |s| - 1 && s[1..][k] == rest[b];
        assert s[k + 1] == rest[b];
      }
    }
  }

  lemma ClusterMembers(sim: Similarity, threshold: real, n: nat, i: nat)
    requires i <= n
    ensures forall j: nat :: j in Cluster(sim, threshold, n, i) <==> j < n && Leader(sim, threshold, j) == i
  {
    FilterMembers(LedBy(sim, threshold, i), Range(i, n));
    forall j: nat | j < n && Leader(sim, threshold, j) == i
      ensures j in Range(i, n)
    {
      assert Range(i, n)[j - i] == j;
    }
  }

  /** A group is an increasing list that starts with its leader, and everyone in it is close to the leader. */
  lemma ClusterFacts(sim: Similarity, threshold: real, n: nat, i: nat)
    requires i < n && IsLeader(sim, threshold, i)
    ensures
      var group := Cluster(sim, threshold, n, i);
      && group != [] && group[0] == i && Increasing(group)
      && forall j :: j in group && j != i ==> j < n && Close(sim, threshold, i, j)
  {
    var group := Cluster(sim, threshold, n, i);
    FilterIncreasing(LedBy(sim, threshold, i), Range(i, n));
    ClusterMembers(sim, threshold, n, i);
    LeaderFacts(sim, threshold, i);
    assert i in group;
    var k :| 0 <= k < |group| && group[k] == i;
    assert group[0] in group;
    forall j | j in group && j != i
      ensures Close(sim, threshold, i, j)
    {
      LeaderFacts(sim, threshold, j);
    }
  }

  /** Group i is large enough to be reported. */
  predicate Reported(sim: Similarity, threshold: real, n: nat, min: nat, i: nat)
    requires i <= n
  {
    IsLeader(sim, threshold, i) && |Cluster(sim, threshold, n, i)| >= min
  }

  /** all holds exactly the groups of at least min members led from below k, in the order of their leaders. */
  ghost predicate ListsGroups(all: seq<seq<nat>>, sim: Similarity, threshold: real, n: nat, min: nat, k: nat)
    requires k <= n
  {
    && (forall i :: 0 <= i < k && Reported(sim, threshold, n, min, i) ==> Cluster(sim, threshold, n, i) in all)
    && (forall a :: 0 <= a < |all| ==>
          && all[a] != [] && all[a][0] < k && Reported(sim, threshold, n, min, all[a][0])
          && all[a] == Cluster(sim, threshold, n, all[a][0]))
    && (forall a, b :: 0 <= a < b < |all| ==> all[a][0] < all[b][0])
  }

  lemma {:induction false} ClustersAreTheLargeGroups(sim: Similarity, threshold: real, n: nat, min: nat, k: nat)
    requires k <= n
    ensures ListsGroups(Clusters(sim, threshold, n, min, k), sim, threshold, n, min, k)
  {
    hide Cluster, IsLeader;
    if k > 0 {
      ClustersAreTheLargeGroups(sim, threshold, n, min, k - 1);
      if Reported(sim, threshold, n, min, k - 1) {
        hide ListsGroups;
        ClusterFacts(sim, threshold, n, k - 1);
        OneMoreGroup(Clusters(sim, threshold, n, min, k - 1), sim, threshold, n, min, k);
      }
    }
  }

  lemma OneMoreGroup(before: seq<seq<nat>>, sim: Similarity, threshold: real, n: nat, min: nat, k: nat)
    requires 1 <= k <= n && ListsGroups(before, sim, threshold, n, min, k - 1) && Reported(sim, threshold, n, min, k - 1)
    requires Cluster(sim, threshold, n, k - 1) != [] && Cluster(sim, threshold, n, k - 1)[0] == k - 1
    ensures ListsGroups(before + [Cluster(sim, threshold, n, k - 1)], sim, threshold, n, min, k)
  {
    hide Cluster, Reported;
    var group := Cluster(sim, threshold, n, k - 1);
    var all := before + [group];
    forall i | 0 <= i < k && Reported(sim, threshold, n, min, i)
      ensures Cluster(sim, threshold, n, i) in all
    {
      if i == k - 1 { assert all[|before|] == group; } else { assert Cluster(sim, threshold, n, i) in before; }
    }
  }

  /** No position is reported twice. */
  lemma ClustersAreDisjoint(sim: Similarity, threshold: real, n: nat, min: nat)
    ensures
      var all := Clusters(sim, threshold, n, min, n);
      forall a, b, j :: 0 <= a < b < |all| && j in all[a] ==> j !in all[b]
  {
    var all := Clusters(sim, threshold, n, min, n);
    ClustersAreTheLargeGroups(sim, threshold, n, min, n);
    forall a, b, j | 0 <= a < b < |all| && j in all[a]
      ensures j !in all[b]
    {
      ClusterMembers(sim, threshold, n, all[a][0]);
      ClusterMembers(sim, threshold, n, all[b][0]);
      assert all[a][0] < all[b][0];
    }
  }
}

module ClusterLoops {
  import opened Sequences
  import opened ClusterSpec

  /** taken covers exactly the positions whose leader comes before i, and those below j that i leads. */
  ghost predicate Covers(taken: map<nat, nat>, sim: Similarity, threshold: real, n: nat, i: nat, j: nat) {
    forall k: nat :: k in taken <==> k < n && (Leader(sim, threshold, k) < i || (k < j && Leader(sim, threshold, k) == i))
  }

  /** An unassigned position leads itself. */
  lemma UnassignedLeads(taken: map<nat, nat>, sim: Similarity, threshold: real, n: nat, i: nat)
    requires i < n && Covers(taken, sim, threshold, n, i, 0)
    ensures i !in taken <==> IsLeader(sim, threshold, i)
  {
    LeaderFacts(sim, threshold, i);
  }

  lemma CoversNone(sim: Similarity, threshold: real, n: nat)
    ensures Covers(map[], sim, threshold, n, 0, 0)
  {
  }

  lemma CoversNext(taken: map<nat, nat>, sim: Similarity, threshold: real, n: nat, i: nat)
    requires i < n && Covers(taken, sim, threshold, n, i, 0) && !IsLeader(sim, threshold, i)
    ensures Covers(taken, sim, threshold, n, i + 1, 0)
  {
    forall k: nat
      ensures Leader(sim, threshold, k) != i
    {
      LeaderFacts(sim, threshold, k);
    }
  }

  lemma FoundFirst(sim: Similarity, threshold: real, i: nat)
    requires IsLeader(sim, threshold, i)
    ensures Cluster(sim, threshold, i + 1, i) == [i]
  {
    LeaderFacts(sim, threshold, i);
    assert Range(i, i + 1) == [i];
  }

  lemma FoundNext(sim: Similarity, threshold: real, i: nat, j: nat)
    requires i <= j
    ensures Cluster(sim, threshold, j + 1, i)
         == if Leader(sim, threshold, j) == i then Cluster(sim, threshold, j, i) + [j] else Cluster(sim, threshold, j, i)
  {
    assert Range(i, j + 1) == Range(i, j) + [j];
    FilterAppend(LedBy(sim, threshold, i), Range(i, j), [j]);
    assert Filter(LedBy(sim, threshold, i), [j]) == if Leader(sim, threshold, j) == i then [j] else [];
  }

  /** The test that the inner loop makes on position j. */
  lemma TestIsLeader(taken: map<nat, nat>, sim: Similarity, threshold: real, n: nat, i: nat, j: nat)
    requires i < j < n && IsLeader(sim, threshold, i) && Covers(taken, sim, threshold, n, i, j)
    ensures j in taken ==> Leader(sim, threshold, j) < i
    ensures j !in taken ==> (Close(sim, threshold, i, j) <==> Leader(sim, threshold, j) == i)
  {
    LeaderFacts(sim, threshold, j);
    assert Close(sim, threshold, i, j) <==> Claims(sim, threshold, i, j);
  }

  /** The inner loop of both variants: i collects the positions after it that are still free and close to it. */
  method Collect(row: seq<real>, i: nat, n: nat, threshold: real, ghost sim: Similarity, number: nat, before: map<nat, nat>)
    returns (cluster: seq<nat>, taken: map<nat, nat>)
    requires i < n && |row| == n && forall j :: 0 <= j < n ==> row[j] == sim(i, j)
    requires Covers(before, sim, threshold, n, i, 0) && IsLeader(sim, threshold, i)
    ensures cluster == Cluster(sim, threshold, n, i)
    ensures Covers(taken, sim, threshold, n, i + 1, 0)
  {
    hide Cluster, IsLeader, Leader;
    LeaderFacts(sim, threshold, i);
    FoundFirst(sim, threshold, i);
    cluster, taken := [i], before[i := number];
    for j := i + 1 to n
      invariant Covers(taken, sim, threshold, n, i, j) && i in taken
      invariant cluster == Cluster(sim, threshold, j, i)
    {
      TestIsLeader(taken, sim, threshold, n, i, j);
      FoundNext(sim, threshold, i, j);
      if j in taken { continue; }
      if row[j] >= threshold {
        cluster := cluster + [j];
        taken := taken[j := taken[i]];
      }
    }
  }

  /** The whole similarity matrix at once. */
  method Direct(sim: Similarity, threshold: real, n: nat, min: nat) returns (clusters: seq<seq<nat>>)
    ensures clusters == Clusters(sim, threshold, n, min, n)
  {
    hide Cluster, Leader, IsLeader, Covers;
    CoversNone(sim, threshold, n);
    var sims := seq(n, i requires 0 <= i < n => seq(n, j requires 0 <= j < n => sim(i, j)));
    var taken: map<nat, nat> := map[];
    clusters := [];
    for i := 0 to n
      invariant Covers(taken, sim, threshold, n, i, 0)
      invariant clusters == Clusters(sim, threshold, n, min, i)
    {
      UnassignedLeads(taken, sim, threshold, n, i);
      if i in taken { CoversNext(taken, sim, threshold, n, i); continue; }
      var cluster;
      cluster, taken := Collect(sims[i], i, n, threshold, sim, |clusters|, taken);
      if |cluster| >= min { clusters := clusters + [cluster]; }
    }
  }

  /** The matrix a block of rows at a time, for any block size. */
  method Chunked(sim: Similarity, threshold: real, n: nat, min: nat, chunkSize: nat) returns (clusters: seq<seq<nat>>)
    requires chunkSize > 0
    ensures clusters == Clusters(sim, threshold, n, min, n)
  {
    hide Cluster, Leader, IsLeader, Covers;
    CoversNone(sim, threshold, n);
    var taken: map<nat, nat> := map[];
    clusters := [];
    var start := 0;
    while start < n
      invariant 0 <= start <= n
      invariant Covers(taken, sim, threshold, n, start, 0)
      invariant clusters == Clusters(sim, threshold, n, min, start)
    {
      var end := if start + chunkSize < n then start + chunkSize else n;
      var chunkSims := seq(end - start, k requires 0 <= k < end - start => seq(n, j requires 0 <= j < n => sim(start + k, j)));
      for li := 0 to end - start
        invariant Covers(taken, sim, threshold, n, start + li, 0)
        invariant clusters == Clusters(sim, threshold, n, min, start + li)
      {
        var i := start + li;
        UnassignedLeads(taken, sim, threshold, n, i);
        if i in taken { CoversNext(taken, sim, threshold, n, i); continue; }
        var cluster;
        cluster, taken := Collect(chunkSims[li], i, n, threshold, sim, |clusters|, taken);
        if |cluster| >= min { clusters := clusters + [cluster]; }
      }
      start := end;
    }
  }

  const CHUNK_THRESHOLD := 512
  const CHUNK_SIZE := 256

  function AtIndices(indices: seq<nat>): nat -> nat { (k: nat) => if k < |indices| then indices[k] else 0 }

  /** The similarity of the selected rows, by their position among them. */
  function Restrict(sim: Similarity, indices: seq<nat>): Similarity {
    (a: nat, b: nat) => sim(AtIndices(indices)(a), AtIndices(indices)(b))
  }

  /** Positions within the rows of the wanted task type, translated back to store indices. */
  function Translate(indices: seq<nat>, clusters: seq<seq<nat>>): seq<seq<nat>> {
    Map((c: seq<nat>) => Map(AtIndices(indices), c), clusters)
  }

  function OfType(types: seq<string>, wanted: Option<string>): nat -> bool {
    (i: nat) => wanted.None? || (i < |types| && types[i] == wanted.value)
  }

  /** The store indices of the wanted task type. */
  function Selected(types: seq<string>, wanted: Option<string>): seq<nat> {
    Filter(OfType(types, wanted), Range(0, |types|))
  }

  /** The last position that carries an id (a dict comprehension keeps the last). */
  function PositionOf(ids: seq<string>, id: string): (i: Option<nat>)
    ensures i.Some? ==> i.value < |ids| && ids[i.value] == id && forall k :: i.value < k < |ids| ==> ids[k] != id
    ensures i.None? ==> id !in ids
  {
    if ids == [] then None
    else if ids[|ids| - 1] == id then Some(|ids| - 1)
    else PositionOf(ids[..|ids| - 1], id)
  }

  /** A cluster of vector ids as store indices; unknown ids are dropped. */
  function Located(ids: seq<string>, cluster: seq<string>): (c: seq<nat>)
    ensures forall k :: 0 <= k < |c| ==> c[k] < |ids| && ids[c[k]] in cluster
  {
    if cluster == [] then []
    else
      var i := PositionOf(ids, cluster[0]);
      (if i.Some? then [i.value] else []) + Located(ids, cluster[1..])
  }

  /** The vector store's clusters that are still large enough once located. */
  function Delegated(ids: seq<string>, remote: seq<seq<string>>, min: nat): (clusters: seq<seq<nat>>)
    ensures forall a :: 0 <= a < |clusters| ==> |clusters[a]| >= min
    ensures forall a, k :: 0 <= a < |clusters| && 0 <= k < |clusters[a]| ==> clusters[a][k] < |ids|
  {
    if remote == [] then []
    else
      var c := Located(ids, remote[0]);
      (if |c| >= min then [c] else []) + Delegated(ids, remote[1..], min)
  }

  /** `find_clusters` over the stored entries: the vector store's answer if it has one (None when there is
      no store, or it raised), else the local one, the same whichever loop runs. */
  method FindClusters(types: seq<string>, ids: seq<string>, indexed: bool, remote: Option<seq<seq<string>>>,
                      sim: Similarity, threshold: real, min: nat, wanted: Option<string>)
    returns (clusters: seq<seq<nat>>)
    requires |ids| == |types|
    ensures
      var indices := Selected(types, wanted);
      clusters == if types == [] || !indexed || |types| < min then []
                  else if remote.Some? && Delegated(ids, remote.value, min) != [] then Delegated(ids, remote.value, min)
                  else if |indices| < min then []
                  else Translate(indices, Clusters(Restrict(sim, indices), threshold, |indices|, min, |indices|))
  {
    if types == [] || !indexed { return []; }
    if |types| < min { return []; }
    if remote.Some? {
      var result := MapRemote(ids, remote.value, min);
      if result != [] { return result; }
    }
    var indices := Selected(types, wanted);
    if |indices| < min { return []; }
    var local := Restrict(sim, indices);
    var found;
    if |indices| <= CHUNK_THRESHOLD {
      found := Direct(local, threshold, |indices|, min);
    } else {
      found := Chunked(local, threshold, |indices|, min, CHUNK_SIZE);
    }
    clusters := Translate(indices, found);
  }

  method MapRemote(ids: seq<string>, remote: seq<seq<string>>, min: nat) returns (result: seq<seq<nat>>)
    ensures result == Delegated(ids, remote, min)
  {
    hide Located, Delegated;
    result := [];
    NothingDelegated(ids, min);
    for i := 0 to |remote|
      invariant result == Delegated(ids, remote[..i], min)
    {
      var c := Located(ids, remote[i]);
      assert remote[..i + 1] == remote[..i] + [remote[i]];
      DelegatedSnoc(ids, remote[..i], remote[i], min);
      if |c| >= min { result := result + [c]; } else { assert result + [] == result; }
    }
    assert remote[..|remote|] == remote;
  }

  lemma NothingDelegated(ids: seq<string>, min: nat)
    ensures Delegated(ids, [], min) == []
  {
  }

  lemma {:induction false} DelegatedSnoc(ids: seq<string>, remote: seq<seq<string>>, c: seq<string>, min: nat)
    ensures Delegated(ids, remote + [c], min)
         == Delegated(ids, remote, min) + if |Located(ids, c)| >= min then [Located(ids, c)] else []
  {
    hide Located;
    if remote == [] {
      assert remote + [c] == [c] && [c][1..] == [];
    } else {
      assert (remote + [c])[1..] == remote[1..] + [c];
      DelegatedSnoc(ids, remote[1..], c, min);
    }
  }

  lemma SelectedIndices(types: seq<string>, wanted: Option<string>)
    ensures Increasing(Selected(types, wanted))
    ensures forall i: nat :: i in Selected(types, wanted) <==> i < |types| && (wanted == None || Some(types[i]) == wanted)
  {
    FilterIncreasing(OfType(types, wanted), Range(0, |types|));
    FilterMembers(OfType(types, wanted), Range(0, |types|));
    forall i: nat | i < |types|
      ensures i in Range(0, |types|)
    {
      assert Range(0, |types|)[i] == i;
    }
  }

  /** Increasing lists below n that share no member. */
  ghost predicate Separate(clusters: seq<seq<nat>>, n: nat) {
    && (forall a :: 0 <= a < |clusters| ==> Increasing(clusters[a]))
    && (forall a, k :: 0 <= a < |clusters| && 0 <= k < |clusters[a]| ==> clusters[a][k] < n)
    && (forall a, b, k, q :: 0 <= a < b < |clusters| && 0 <= k < |clusters[a]| && 0 <= q < |clusters[b]|
          ==> clusters[a][k] != clusters[b][q])
  }

  lemma ClustersAreSeparate(sim: Similarity, threshold: real, n: nat, min: nat)
    ensures Separate(Clusters(sim, threshold, n, min, n), n)
  {
    hide Cluster, IsLeader, Leader;
    var all := Clusters(sim, threshold, n, min, n);
    ClustersAreTheLargeGroups(sim, threshold, n, min, n);
    ClustersAreDisjoint(sim, threshold, n, min);
    forall a | 0 <= a < |all|
      ensures Increasing(all[a]) && forall k :: 0 <= k < |all[a]| ==> all[a][k] < n
    {
      ClusterFacts(sim, threshold, n, all[a][0]);
      ClusterMembers(sim, threshold, n, all[a][0]);
      assert forall k :: 0 <= k < |all[a]| ==> all[a][k] in all[a];
    }
    forall a, b, k, q | 0 <= a < b < |all| && 0 <= k < |all[a]| && 0 <= q < |all[b]|
      ensures all[a][k] != all[b][q]
    {
      assert all[a][k] in all[a] && all[b][q] in all[b];
    }
  }

  lemma TranslateKeepsSeparate(indices: seq<nat>, inner: seq<seq<nat>>, n: nat)
    requires Increasing(indices) && (forall i :: 0 <= i < |indices| ==> indices[i] < n) && Separate(inner, |indices|)
    ensures Separate(Translate(indices, inner), n)
    ensures forall a, k :: 0 <= a < |inner| && 0 <= k < |inner[a]| ==> Translate(indices, inner)[a][k] in indices
  {
    var all := Translate(indices, inner);
    forall a, k | 0 <= a < |inner| && 0 <= k < |inner[a]|
      ensures all[a][k] == indices[inner[a][k]] && all[a][k] in indices
    {
    }
    forall a, b, k, q | 0 <= a < b < |all| && 0 <= k < |all[a]| && 0 <= q < |all[b]|
      ensures all[a][k] != all[b][q]
    {
      assert inner[a][k] != inner[b][q];
    }
  }

  /** Located drops unknown ids, and an id stands for its last position. */
  lemma {:induction false} LocatedIff(ids: seq<string>, cluster: seq<string>, i: nat)
    ensures i in Located(ids, cluster) <==>
      i < |ids| && ids[i] in cluster && forall k :: i < k < |ids| ==> ids[k] != ids[i]
  {
    if cluster != [] {
      LocatedIff(ids, cluster[1..], i);
      assert cluster == [cluster[0]] + cluster[1..];
      var first := PositionOf(ids, cluster[0]);
      assert first.None? ==> forall k :: 0 <= k < |ids| ==> ids[k] in ids;
    }
  }

  /** The vector store's clusters that count: those with at least min ids known to the store. */
  lemma {:induction false} DelegatedIff(ids: seq<string>, remote: seq<seq<string>>, min: nat, c: seq<nat>)
    ensures c in Delegated(ids, remote, min) <==>
      |c| >= min && exists r :: 0 <= r < |remote| && c == Located(ids, remote[r])
  {
    hide Located;
    if remote != [] {
      var rest := remote[1..];
      DelegatedIff(ids, rest, min, c);
      if r :| 0 <= r < |rest| && c == Located(ids, rest[r]) { assert c == Located(ids, remote[r + 1]); }
      if r :| 0 < r < |remote| && c == Located(ids, remote[r]) { assert c == Located(ids, rest[r - 1]); }
    }
  }

  /** The answer in store indices: increasing lists of at least min entries of the wanted type, each as similar
      to the first of its list as the threshold asks, and no entry in two of them. */
  lemma ReportedClusters(types: seq<string>, sim: Similarity, threshold: real, min: nat, wanted: Option<string>)
    ensures
      var indices := Selected(types, wanted);
      var all := Translate(indices, Clusters(Restrict(sim, indices), threshold, |indices|, min, |indices|));
      && Separate(all, |types|)
      && (forall a :: 0 <= a < |all| ==> |all[a]| >= min)
      && (forall a, k :: 0 <= a < |all| && 0 <= k < |all[a]| ==> wanted == None || Some(types[all[a][k]]) == wanted)
      && (forall a, k :: 0 <= a < |all| && 0 < k < |all[a]| ==> sim(all[a][0], all[a][k]) >= threshold)
  {
    hide Cluster, IsLeader, Leader, OfType, Selected, Separate, Increasing;
    var indices := Selected(types, wanted);
    var near := Restrict(sim, indices);
    SelectedIndices(types, wanted);
    assert forall i :: 0 <= i < |indices| ==> indices[i] in indices;
    ClustersAreSeparate(near, threshold, |indices|, min);
    ClustersAreTheLargeGroups(near, threshold, |indices|, min, |indices|);
    TranslateKeepsSeparate(indices, Clusters(near, threshold, |indices|, min, |indices|), |types|);
    MembersAreClose(sim, threshold, indices, min);
  }

  lemma MembersAreClose(sim: Similarity, threshold: real, indices: seq<nat>, min: nat)
    ensures
      var all := Translate(indices, Clusters(Restrict(sim, indices), threshold, |indices|, min, |indices|));
      forall a, k :: 0 <= a < |all| && 0 < k < |all[a]| ==> sim(all[a][0], all[a][k]) >= threshold
  {
    hide Cluster, IsLeader, Leader;
    var near, n := Restrict(sim, indices), |indices|;
    var inner := Clusters(near, threshold, n, min, n);
    ClustersAreTheLargeGroups(near, threshold, n, min, n);
    forall a, k | 0 <= a < |inner| && 0 < k < |inner[a]|
      ensures sim(AtIndices(indices)(inner[a][0]), AtIndices(indices)(inner[a][k])) >= threshold
    {
      ClusterFacts(near, threshold, n, inner[a][0]);
      assert inner[a][k] in inner[a] && inner[a][0] < inner[a][k];
      assert Close(near, threshold, inner[a][0], inner[a][k]);
    }
  }
}
