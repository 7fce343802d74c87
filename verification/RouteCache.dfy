/** The route and embedding caches: two OrderedDicts kept in recency order.
    A dict is its list of (key, value) pairs, oldest first. Keys are already normalised. */
module RouteCache {
  import opened Sequences

  type Entries<V> = seq<(string, V)>

  ghost predicate DistinctKeys<V(!new)>(c: Entries<V>) {
    forall i, j :: 0 <= i < j < |c| ==> c[i].0 != c[j].0
  }

  predicate Has<V>(c: Entries<V>, key: string) {
    exists i :: 0 <= i < |c| && c[i].0 == key
  }

  function Find<V>(c: Entries<V>, key: string): (i: nat)
    requires Has(c, key)
    ensures i < |c| && c[i].0 == key
  {
    if c[0].0 == key then 0 else
      var i :| 0 <= i < |c| && c[i].0 == key;
      assert c[1..][i - 1].0 == key;
      1 + Find(c[1..], key)
  }

  function Without<V(!new)>(c: Entries<V>, key: string): Entries<V> {
    Filter((e: (string, V)) => e.0 != key, c)
  }

  function Touch<V(!new)>(c: Entries<V>, key: string): (Entries<V>, Option<V>) {
    if Has(c, key) then
      var v := c[Find(c, key)].1;
      (Without(c, key) + [(key, v)], Some(v))
    else (c, None)
  }

  function Store<V(!new)>(c: Entries<V>, key: string, v: V, size: nat): Entries<V> {
    if Has(c, key) then Without(c, key) + [(key, v)]
    else (if |c| >= size && c != [] then c[1..] else c) + [(key, v)]
  }

  datatype Op<V> = GetOp(key: string) | PutOp(key: string, value: V)

  function Step<V(!new)>(c: Entries<V>, op: Op<V>, size: nat): Entries<V> {
    match op
    case GetOp(key) => Touch(c, key).0
    case PutOp(key, v) => Store(c, key, v, size)
  }

  function Run<V(!new)>(c: Entries<V>, ops: seq<Op<V>>, size: nat): Entries<V>
    decreases |ops|
  {
    if ops == [] then c else Run(Step(c, ops[0], size), ops[1..], size)
  }

  class Cache<V(==,!new)> {
    const cacheSize: nat
    var entries: Entries<V>
    var file: Entries<V>

    ghost predicate Valid() reads this { DistinctKeys(entries) && |entries| <= cacheSize }

    /** `_load`: every stored entry is appended, the oldest popped while over the bound. */
    constructor (stored: Entries<V>, cacheSize: nat)
      requires DistinctKeys(stored)
      ensures this.cacheSize == cacheSize && file == stored && Valid()
      ensures entries == Newest(stored, cacheSize)
    {
      this.cacheSize, file := cacheSize, stored;
      entries := [];
      new;
      for i := 0 to |stored|
        invariant file == stored && entries == Newest(stored[..i], cacheSize)
      {
        entries := entries + [stored[i]];
        if |entries| > cacheSize { entries := entries[1..]; }
      }
      assert stored[..|stored|] == stored;
    }

    method Get(key: string) returns (r: Option<V>)
      requires Valid()
      modifies this`entries
      ensures (entries, r) == Touch(old(entries), key) && Valid()
    {
      WithoutFacts(entries, key);
      if !Has(entries, key) { return None; }
      var v := entries[Find(entries, key)].1;
      entries := Without(entries, key) + [(key, v)];
      return Some(v);
    }

    /** `put_*` with autosave. A size-0 cache raises here (popitem on an empty dict). */
    method Put(key: string, v: V)
      requires Valid() && cacheSize >= 1
      modifies this
      ensures entries == Store(old(entries), key, v, cacheSize) && file == entries && Valid()
    {
      WithoutFacts(entries, key);
      if Has(entries, key) {
        entries := Without(entries, key);
      } else if |entries| >= cacheSize {
        entries := entries[1..];
      }
      entries := entries + [(key, v)];
      file := entries;
    }
  }

  /** The most recent entries that fit. */
  function Newest<V>(c: Entries<V>, size: nat): Entries<V> {
    if |c| <= size then c else c[|c| - size..]
  }

  lemma WithoutCons<V(!new)>(c: Entries<V>, key: string)
    requires c != []
    ensures Without(c, key) == (if c[0].0 != key then [c[0]] else []) + Without(c[1..], key)
    ensures Has(c, key) <==> c[0].0 == key || Has(c[1..], key)
  {
    if Has(c[1..], key) {
      var i :| 0 <= i < |c[1..]| && c[1..][i].0 == key;
      assert c[i + 1].0 == key;
    }
    if Has(c, key) && c[0].0 != key {
      var i :| 0 <= i < |c| && c[i].0 == key;
      assert c[1..][i - 1].0 == key;
    }
  }

  lemma DistinctTail<V(!new)>(c: Entries<V>)
    requires DistinctKeys(c) && c != []
    ensures DistinctKeys(c[1..]) && !Has(c[1..], c[0].0)
  {
  }

  lemma DistinctCons<V(!new)>(e: (string, V), c: Entries<V>)
    requires DistinctKeys(c) && !Has(c, e.0)
    ensures DistinctKeys([e] + c)
  {
  }

  lemma HasMember<V(!new)>(c: Entries<V>, key: string)
    ensures Has(c, key) <==> exists e :: e in c && e.0 == key
  {
    if Has(c, key) {
      var i :| 0 <= i < |c| && c[i].0 == key;
      assert c[i] in c;
    }
  }

  lemma WithoutMembers<V(!new)>(c: Entries<V>, key: string)
    ensures forall e :: e in Without(c, key) <==> e in c && e.0 != key
    ensures forall k :: Has(Without(c, key), k) <==> Has(c, k) && k != key
  {
    FilterMembers((e: (string, V)) => e.0 != key, c);
    assert forall e :: e in Without(c, key) <==> e in c && e.0 != key;
    hide Without, Has;
    forall k
      ensures Has(Without(c, key), k) <==> Has(c, k) && k != key
    {
      HasMember(c, k);
      HasMember(Without(c, key), k);
    }
  }

  lemma {:induction false} WithoutFacts<V(!new)>(c: Entries<V>, key: string)
    requires DistinctKeys(c)
    ensures DistinctKeys(Without(c, key)) && !Has(Without(c, key), key)
    ensures |Without(c, key)| == if Has(c, key) then |c| - 1 else |c|
    ensures !Has(c, key) ==> Without(c, key) == c
    ensures forall e :: e in Without(c, key) <==> e in c && e.0 != key
  {
    WithoutMembers(c, key);
    if c != [] {
      hide Without, Has;
      var rest := c[1..];
      DistinctTail(c);
      WithoutFacts(rest, key);
      WithoutMembers(rest, key);
      WithoutCons(c, key);
      hide DistinctKeys;
      if c[0].0 != key {
        DistinctCons(c[0], Without(rest, key));
        assert c == [c[0]] + rest;
      }
    }
  }

  /** A get answers with the value stored under the key, and with None just when there is none. */
  lemma HitIsStored<V(!new)>(c: Entries<V>, key: string)
    requires DistinctKeys(c)
    ensures forall v :: Touch(c, key).1 == Some(v) <==> (key, v) in c
    ensures Touch(c, key).1.None? <==> forall e :: e in c ==> e.0 != key
  {
    HasMember(c, key);
    if Has(c, key) {
      var k := Find(c, key);
      forall e | e in c && e.0 == key
        ensures e == c[k]
      {
        var i :| 0 <= i < |c| && c[i] == e;
      }
    }
  }

  /** After a put the key answers with the new value. Every other key answers as before, unless the key was new, the
      cache full and the other one the oldest: that one is gone. */
  lemma PutThenGet<V(!new)>(c: Entries<V>, key: string, v: V, size: nat, other: string)
    requires DistinctKeys(c) && |c| <= size && size >= 1
    ensures
      var evicted := (forall e :: e in c ==> e.0 != key) && |c| == size && c[0].0 == other;
      Touch(Store(c, key, v, size), other).1 ==
        if other == key then Some(v) else if evicted then None else Touch(c, other).1
  {
    hide DistinctKeys;
    var n := Store(c, key, v, size);
    HitIsStored(c, other);
    HasMember(c, key);
    WithoutFacts(c, key);
    StepKeepsBound(c, PutOp(key, v), size);
    HitIsStored(n, other);
    if !Has(c, key) && |c| == size {
      OldestGoes(c);
      assert forall e :: e in n <==> e == (key, v) || e in c[1..];
    }
  }

  lemma OldestGoes<V(!new)>(c: Entries<V>)
    requires DistinctKeys(c) && c != []
    ensures forall e :: e in c <==> e == c[0] || e in c[1..]
    ensures forall e :: e in c[1..] ==> e.0 != c[0].0
  {
    assert c == [c[0]] + c[1..];
  }

  /** Updating a present key evicts nothing, and no operation overfills the cache. */
  lemma StepKeepsBound<V(!new)>(c: Entries<V>, op: Op<V>, size: nat)
    requires DistinctKeys(c) && |c| <= size && size >= 1
    ensures DistinctKeys(Step(c, op, size)) && |Step(c, op, size)| <= size
    ensures Has(c, op.key) ==> |Step(c, op, size)| == |c| && forall e :: e in c && e.0 != op.key ==> e in Step(c, op, size)
    ensures op.PutOp? ==> (op.key, op.value) in Step(c, op, size)
  {
    WithoutFacts(c, op.key);
    var c' := Step(c, op, size);
    if op.PutOp? { assert c'[|c'| - 1] == (op.key, op.value); }
  }

  // ------------------------------------------------- the inclusion property

  /** The smaller cache sits inside the larger one, and is full unless it is all of it. */
  ghost predicate Included<V(!new)>(small: Entries<V>, large: Entries<V>, n: nat, m: nat) {
    && DistinctKeys(small) && DistinctKeys(large) && |small| <= n && |large| <= m
    && Subsequence(small, large) && (small == large || |small| == n)
  }

  lemma SameValue<V(!new)>(small: Entries<V>, large: Entries<V>, n: nat, m: nat, key: string)
    requires Included(small, large, n, m) && Has(small, key)
    ensures Has(large, key) && large[Find(large, key)] == small[Find(small, key)]
  {
    SubsequenceMembers(small, large);
    var e := small[Find(small, key)];
    assert e in large;
    var j :| 0 <= j < |large| && large[j] == e;
    assert large[j].0 == key;
  }

  lemma StepKeepsIncluded<V(!new)>(small: Entries<V>, large: Entries<V>, op: Op<V>, n: nat, m: nat)
    requires Included(small, large, n, m) && 1 <= n <= m
    ensures Included(Step(small, op, n), Step(large, op, m), n, m)
  {
    var key := op.key;
    StepKeepsBound(small, op, n);
    StepKeepsBound(large, op, m);
    WithoutFacts(small, key);
    WithoutFacts(large, key);
    SubsequenceFilter((e: (string, V)) => e.0 != key, small, large);
    if Has(small, key) {
      SameValue(small, large, n, m, key);
      var last := if op.PutOp? then (key, op.value) else small[Find(small, key)];
      SubsequenceAppend(Without(small, key), Without(large, key), last);
    } else if Has(large, key) {
      assert small != large;
      var last := if op.PutOp? then (key, op.value) else large[Find(large, key)];
      if op.PutOp? {
        SubsequenceTail(small, Without(large, key));
        SubsequenceAppend(small[1..], Without(large, key), last);
      } else {
        SubsequenceAppend(small, Without(large, key), last);
      }
    } else if op.PutOp? {
      if |small| >= n { SubsequenceTail(small, large); }
      var s := if |small| >= n then small[1..] else small;
      var l := if |large| >= m then large[1..] else large;
      SubsequenceAppend(s, l, (key, op.value));
    }
  }

  /** On every sequence of gets and puts, the cache of size n is an order-preserving
      subsequence of the cache of any larger size, and never exceeds n. */
  lemma {:induction false} SmallerCacheIsIncluded<V(!new)>(small: Entries<V>, large: Entries<V>, ops: seq<Op<V>>, n: nat, m: nat)
    requires Included(small, large, n, m) && 1 <= n <= m
    ensures Included(Run(small, ops, n), Run(large, ops, m), n, m)
    decreases |ops|
  {
    if ops != [] {
      StepKeepsIncluded(small, large, ops[0], n, m);
      SmallerCacheIsIncluded(Step(small, ops[0], n), Step(large, ops[0], m), ops[1..], n, m);
    }
  }

  /** A hit in the smaller cache is a hit with the same value in the larger one. */
  lemma LargerCacheHitsToo<V(!new)>(ops: seq<Op<V>>, n: nat, m: nat, key: string)
    requires 1 <= n <= m
    ensures
      var small, large: Entries<V> := Run([], ops, n), Run([], ops, m);
      Subsequence(small, large) && |small| <= n
      && (Touch(small, key).1.Some? ==> Touch(large, key).1 == Touch(small, key).1)
  {
    var empty: Entries<V> := [];
    SmallerCacheIsIncluded(empty, empty, ops, n, m);
    if Has(Run(empty, ops, n), key) { SameValue(Run(empty, ops, n), Run(empty, ops, m), n, m, key); }
  }

  /** Recency is what a capacity bound keeps: after distinct new keys only, the cache of size n
      holds exactly the newest n of the unbounded list. */
  lemma {:induction false} BoundKeepsNewest<V(!new)>(c: Entries<V>, added: Entries<V>, size: nat)
    requires size >= 1 && DistinctKeys(c + added)
    ensures Run(Newest(c, size), Map((e: (string, V)) => PutOp(e.0, e.1), added), size) == Newest(c + added, size)
    decreases |added|
  {
    var puts := Map((e: (string, V)) => PutOp(e.0, e.1), added);
    if added == [] {
      assert c + added == c;
    } else {
      var next := c + [added[0]];
      assert next + added[1..] == c + added;
      assert puts[1..] == Map((e: (string, V)) => PutOp(e.0, e.1), added[1..]);
      forall i | 0 <= i < |Newest(c, size)|
        ensures Newest(c, size)[i].0 != added[0].0
      {
        assert (c + added)[i + |c| - |Newest(c, size)|].0 != (c + added)[|c|].0;
      }
      assert Step(Newest(c, size), puts[0], size) == Newest(next, size);
      BoundKeepsNewest(next, added[1..], size);
    }
  }
}
