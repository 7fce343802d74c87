/** Python's stable `sorted`, and the keep-it-sorted insertion that the job queue uses. */
module StableSort {
  import opened Sequences

  /** Names a triple, so that the order laws are used only where a proof asks for it. */
  predicate Chain<T>(x: T, y: T, z: T) { true }

  ghost predicate TotalPreorder<T(!new)>(le: (T, T) -> bool) {
    forall x, y, z {:trigger Chain(x, y, z)} :: Chain(x, y, z) ==>
      (le(x, y) || le(y, x)) && (le(x, y) && le(y, z) ==> le(x, z))
  }

  ghost predicate Sorted<T(!new)>(le: (T, T) -> bool, s: seq<T>) {
    forall i, j :: 0 <= i < j < |s| ==> le(s[i], s[j])
  }

  /** x goes before the first element that must come strictly after it. */
  function Insert<T(!new)>(le: (T, T) -> bool, x: T, s: seq<T>): (r: seq<T>)
    ensures |r| == |s| + 1
  {
    if s == [] then [x]
    else if le(s[0], x) then [s[0]] + Insert(le, x, s[1..])
    else [x] + s
  }

  /** Stable sort: the elements are inserted first to last. */
  function Sort<T(!new)>(le: (T, T) -> bool, s: seq<T>): (r: seq<T>)
    ensures |r| == |s|
    decreases |s|
  {
    if s == [] then [] else Insert(le, s[|s| - 1], Sort(le, s[..|s| - 1]))
  }

  lemma SplitMultiset<T(!new)>(x: T, s: seq<T>)
    ensures multiset([x] + s) == multiset{x} + multiset(s) && multiset(s + [x]) == multiset(s) + multiset{x}
  {
  }

  lemma {:induction false} InsertMultiset<T(!new)>(le: (T, T) -> bool, x: T, s: seq<T>)
    ensures multiset(Insert(le, x, s)) == multiset(s) + multiset{x}
  {
    if s != [] && le(s[0], x) {
      InsertMultiset(le, x, s[1..]);
      assert s == [s[0]] + s[1..];
      SplitMultiset(s[0], s[1..]);
      SplitMultiset(s[0], Insert(le, x, s[1..]));
    } else {
      SplitMultiset(x, s);
    }
  }

  /** Sorting neither loses nor invents elements. */
  lemma {:induction false} SortMultiset<T(!new)>(le: (T, T) -> bool, s: seq<T>)
    ensures multiset(Sort(le, s)) == multiset(s)
  {
    if s != [] {
      SortMultiset(le, s[..|s| - 1]);
      InsertMultiset(le, s[|s| - 1], Sort(le, s[..|s| - 1]));
      assert s == s[..|s| - 1] + [s[|s| - 1]];
      SplitMultiset(s[|s| - 1], s[..|s| - 1]);
    }
  }

  lemma InsertMembers<T(!new)>(le: (T, T) -> bool, x: T, s: seq<T>)
    ensures forall y :: y in Insert(le, x, s) <==> y == x || y in s
  {
    InsertMultiset(le, x, s);
    forall y
      ensures y in Insert(le, x, s) <==> y == x || y in s
    {
      assert y in Insert(le, x, s) <==> y in multiset(Insert(le, x, s));
      assert y in s <==> y in multiset(s);
    }
  }

  lemma SortMembers<T(!new)>(le: (T, T) -> bool, s: seq<T>)
    ensures forall y :: y in Sort(le, s) <==> y in s
  {
    SortMultiset(le, s);
    forall y
      ensures y in Sort(le, s) <==> y in s
    {
      assert y in Sort(le, s) <==> y in multiset(Sort(le, s));
      assert y in s <==> y in multiset(s);
    }
  }

  lemma {:induction false} InsertSorted<T(!new)>(le: (T, T) -> bool, x: T, s: seq<T>)
    requires TotalPreorder(le) && Sorted(le, s)
    ensures Sorted(le, Insert(le, x, s))
  {
    if s != [] && le(s[0], x) {
      InsertSorted(le, x, s[1..]);
      InsertMembers(le, x, s[1..]);
      var rest := Insert(le, x, s[1..]);
      forall j | 0 <= j < |rest|
        ensures le(s[0], rest[j])
      {
        assert rest[j] in rest;
      }
    } else if s != [] {
      forall j | 0 <= j < |s|
        ensures le(x, s[j])
      {
        assert Chain(x, s[0], s[j]);
      }
    }
  }

  lemma {:induction false} SortSorted<T(!new)>(le: (T, T) -> bool, s: seq<T>)
    requires TotalPreorder(le)
    ensures Sorted(le, Sort(le, s))
  {
    if s != [] {
      SortSorted(le, s[..|s| - 1]);
      InsertSorted(le, s[|s| - 1], Sort(le, s[..|s| - 1]));
    }
  }

  lemma FilterOfCons<T(!new)>(p: T -> bool, x: T, s: seq<T>)
    ensures Filter(p, [x] + s) == if p(x) then [x] + Filter(p, s) else Filter(p, s)
  {
    assert ([x] + s)[1..] == s;
    assert [] + Filter(p, s) == Filter(p, s);
  }

  lemma InsertIntoCons<T(!new)>(le: (T, T) -> bool, x: T, y: T, s: seq<T>)
    ensures Insert(le, x, [y] + s) == if le(y, x) then [y] + Insert(le, x, s) else [x] + ([y] + s)
  {
    assert ([y] + s)[1..] == s;
  }

  /** What comes before everything is inserted in front. */
  lemma InsertInFront<T(!new)>(le: (T, T) -> bool, x: T, s: seq<T>)
    requires forall y :: y in s ==> !le(y, x)
    ensures Insert(le, x, s) == [x] + s
  {
  }

  lemma {:induction false} FilterInsert<T(!new)>(le: (T, T) -> bool, p: T -> bool, x: T, s: seq<T>)
    requires TotalPreorder(le) && Sorted(le, s)
    ensures Filter(p, Insert(le, x, s)) == if p(x) then Insert(le, x, Filter(p, s)) else Filter(p, s)
  {
    hide Filter, Insert;
    if s == [] {
      FilterInsertNothing(le, p, x);
    } else {
      var y, rest := s[0], s[1..];
      assert s == [y] + rest;
      InsertIntoCons(le, x, y, rest);
      FilterOfCons(p, y, rest);
      if le(y, x) {
        FilterInsert(le, p, x, rest);
        FilterOfCons(p, y, Insert(le, x, rest));
        InsertIntoCons(le, x, y, Filter(p, rest));
      } else {
        AllAfter(le, x, s);
        FilterMembers(p, s);
        FilterOfCons(p, x, s);
        InsertInFront(le, x, Filter(p, s));
      }
    }
  }

  lemma FilterInsertNothing<T(!new)>(le: (T, T) -> bool, p: T -> bool, x: T)
    ensures Insert(le, x, []) == [x] && Filter(p, []) == []
    ensures Filter(p, [x]) == if p(x) then [x] else []
  {
  }

  lemma AllAfter<T(!new)>(le: (T, T) -> bool, x: T, s: seq<T>)
    requires TotalPreorder(le) && Sorted(le, s) && s != [] && !le(s[0], x)
    ensures forall y :: y in s ==> !le(y, x)
  {
    forall y | y in s
      ensures !le(y, x)
    {
      var i :| 0 <= i < |s| && s[i] == y;
      assert Chain(s[0], y, x);
    }
  }

  /** Sorting and filtering commute, for every predicate: taking a class of equal
      elements as the predicate, this is stability. */
  lemma {:induction false} FilterSort<T(!new)>(le: (T, T) -> bool, p: T -> bool, s: seq<T>)
    requires TotalPreorder(le)
    ensures Filter(p, Sort(le, s)) == Sort(le, Filter(p, s))
  {
    if s != [] {
      var init, last := s[..|s| - 1], s[|s| - 1];
      assert s == init + [last];
      FilterSort(le, p, init);
      SortSorted(le, init);
      FilterInsert(le, p, last, Sort(le, init));
      FilterAppend(p, init, [last]);
      var kept := Filter(p, init);
      if p(last) {
        assert Filter(p, s) == kept + [last];
        assert (kept + [last])[..|kept|] == kept;
      } else {
        assert Filter(p, s) == kept;
      }
    }
  }

  /** Sorting leaves an already sorted sequence alone. */
  lemma {:induction false} SortOfSorted<T(!new)>(le: (T, T) -> bool, s: seq<T>)
    requires TotalPreorder(le) && Sorted(le, s)
    ensures Sort(le, s) == s
  {
    if s != [] {
      var init, last := s[..|s| - 1], s[|s| - 1];
      SortOfSorted(le, init);
      InsertLast(le, last, init);
      assert s == init + [last];
    }
  }

  lemma {:induction false} InsertLast<T(!new)>(le: (T, T) -> bool, x: T, s: seq<T>)
    requires forall i :: 0 <= i < |s| ==> le(s[i], x)
    ensures Insert(le, x, s) == s + [x]
  {
    if s != [] {
      InsertLast(le, x, s[1..]);
      assert s == [s[0]] + s[1..];
    }
  }

  /** `sorted(s)[0]` is the first of the least elements. */
  lemma {:induction false} HeadOfSort<T(!new)>(le: (T, T) -> bool, s: seq<T>) returns (k: nat)
    requires TotalPreorder(le) && s != []
    ensures k < |s| && Sort(le, s)[0] == s[k]
    ensures forall i :: 0 <= i < |s| ==> le(s[k], s[i])
    ensures forall i :: 0 <= i < k ==> !le(s[i], s[k])
  {
    var init, last := s[..|s| - 1], s[|s| - 1];
    assert Chain(last, last, last);
    if init == [] {
      k := 0;
      assert Sort(le, init) == [];
    } else {
      var first := HeadOfSort(le, init);
      assert Chain(init[first], last, last);
      k := if le(init[first], last) then first else |s| - 1;
      if k != first { FirstIsLeast(le, init, first, last); }
    }
  }

  lemma FirstIsLeast<T(!new)>(le: (T, T) -> bool, s: seq<T>, k: nat, x: T)
    requires TotalPreorder(le) && k < |s| && !le(s[k], x)
    requires forall i :: 0 <= i < |s| ==> le(s[k], s[i])
    ensures forall i :: 0 <= i < |s| ==> le(x, s[i]) && !le(s[i], x)
  {
    forall i | 0 <= i < |s|
      ensures le(x, s[i]) && !le(s[i], x)
    {
      assert Chain(s[k], x, x) && Chain(x, s[k], s[i]) && Chain(s[k], s[i], x);
    }
  }

  /** `sorted(s)[-1]` is the last of the greatest elements. */
  lemma {:induction false} LastOfSort<T(!new)>(le: (T, T) -> bool, s: seq<T>) returns (k: nat)
    requires TotalPreorder(le) && s != []
    ensures k < |s| && Sort(le, s)[|s| - 1] == s[k]
    ensures forall i :: 0 <= i < |s| ==> le(s[i], s[k])
    ensures forall i :: k < i < |s| ==> !le(s[k], s[i])
  {
    var init, last := s[..|s| - 1], s[|s| - 1];
    if init == [] {
      k := 0;
      assert Sort(le, init) == [] && Chain(last, last, last);
    } else {
      var greatest := LastOfSort(le, init);
      LastStep(le, init, last);
      k := GreatestOfSnoc(le, init, greatest, last);
      assert s == init + [last];
    }
  }

  lemma GreatestOfSnoc<T(!new)>(le: (T, T) -> bool, s: seq<T>, k: nat, x: T) returns (m: nat)
    requires TotalPreorder(le) && k < |s|
    requires forall i :: 0 <= i < |s| ==> le(s[i], s[k])
    requires forall i :: k < i < |s| ==> !le(s[k], s[i])
    ensures m == if le(s[k], x) then |s| else k
    ensures forall i :: 0 <= i < |s| + 1 ==> le((s + [x])[i], (s + [x])[m])
    ensures forall i :: m < i < |s| + 1 ==> !le((s + [x])[m], (s + [x])[i])
  {
    assert Chain(s[k], x, x);
    m := if le(s[k], x) then |s| else k;
    if m == |s| {
      LastIsGreatest(le, s, k, x);
      assert Chain(x, x, x);
    }
  }

  lemma LastStep<T(!new)>(le: (T, T) -> bool, s: seq<T>, x: T)
    requires TotalPreorder(le) && s != []
    ensures Insert(le, x, Sort(le, s))[|s|] == if le(Sort(le, s)[|s| - 1], x) then x else Sort(le, s)[|s| - 1]
  {
    SortSorted(le, s);
    LastOfInsert(le, x, Sort(le, s));
  }

  lemma LastIsGreatest<T(!new)>(le: (T, T) -> bool, s: seq<T>, k: nat, x: T)
    requires TotalPreorder(le) && k < |s| && le(s[k], x)
    requires forall i :: 0 <= i < |s| ==> le(s[i], s[k])
    ensures forall i :: 0 <= i < |s| ==> le(s[i], x)
  {
    forall i | 0 <= i < |s|
      ensures le(s[i], x)
    {
      assert Chain(s[i], s[k], x);
    }
  }

  lemma {:induction false} LastOfInsert<T(!new)>(le: (T, T) -> bool, x: T, s: seq<T>)
    requires TotalPreorder(le) && Sorted(le, s) && s != []
    ensures Insert(le, x, s)[|s|] == if le(s[|s| - 1], x) then x else s[|s| - 1]
  {
    if |s| > 1 && le(s[0], x) {
      LastOfInsert(le, x, s[1..]);
    } else if |s| > 1 {
      assert Chain(s[0], s[|s| - 1], x);
    }
  }

  /** What comes strictly before the last element is inserted before it. */
  lemma InsertBeforeLast<T(!new)>(le: (T, T) -> bool, x: T, s: seq<T>)
    requires TotalPreorder(le) && Sorted(le, s) && s != [] && !le(s[|s| - 1], x)
    ensures Insert(le, x, s)[|s|] == s[|s| - 1]
    ensures exists q :: 0 <= q < |s| && Insert(le, x, s)[q] == x
  {
    hide Insert, Sorted;
    LastOfInsert(le, x, s);
    InsertMembers(le, x, s);
    var all := Insert(le, x, s);
    assert x in all;
    var q :| 0 <= q < |all| && all[q] == x;
    assert Chain(x, x, x);
    assert q != |s|;
  }

  /** What stands before a cut of a sorted list goes before what stands after it. */
  lemma CutAt<T(!new)>(le: (T, T) -> bool, sorted: seq<T>, n: nat)
    requires Sorted(le, sorted) && n <= |sorted|
    ensures forall a, b :: a in sorted[..n] && b in sorted[n..] ==> le(a, b)
    ensures multiset(sorted[..n]) + multiset(sorted[n..]) == multiset(sorted)
  {
    assert sorted == sorted[..n] + sorted[n..];
    forall a, b | a in sorted[..n] && b in sorted[n..]
      ensures le(a, b)
    {
      var i :| 0 <= i < n && sorted[..n][i] == a;
      var j :| 0 <= j < |sorted| - n && sorted[n..][j] == b;
      assert sorted[i] == a && sorted[n + j] == b;
    }
  }
}
