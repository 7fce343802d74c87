/** Sequence vocabulary shared by every component. */
module Sequences {

  datatype Option<+T> = None | Some(value: T)

  /** The elements of s that satisfy p, in their old order (a Python list comprehension). */
  function Filter<T(!new)>(p: T -> bool, s: seq<T>): (r: seq<T>)
    ensures |r| <= |s|
  {
    if s == [] then []
    else (if p(s[0]) then [s[0]] else []) + Filter(p, s[1..])
  }

  lemma {:induction false} FilterMembers<T(!new)>(p: T -> bool, s: seq<T>)
    ensures forall x :: x in Filter(p, s) <==> x in s && p(x)
  {
    if s != [] {
      FilterMembers(p, s[1..]);
      assert s == [s[0]] + s[1..];
    }
  }

  function Map<T, U>(f: T -> U, s: seq<T>): (r: seq<U>)
    ensures |r| == |s|
    ensures forall i :: 0 <= i < |s| ==> r[i] == f(s[i])
  {
    seq(|s|, i requires 0 <= i < |s| => f(s[i]))
  }

  ghost predicate NoDuplicates<T(!new)>(s: seq<T>) {
    forall i, j :: 0 <= i < j < |s| ==> s[i] != s[j]
  }

  lemma ShrinkTodo<T(!new)>(all: set<T>, todo: set<T>, x: T)
    requires todo <= all && x in todo
    ensures all - (todo - {x}) == all - todo + {x} && x !in all - todo
  {
  }

  lemma FilterNext<T(!new)>(p: T -> bool, s: seq<T>, i: nat)
    requires i < |s|
    ensures Filter(p, s[..i + 1]) == Filter(p, s[..i]) + if p(s[i]) then [s[i]] else []
  {
    assert s[..i + 1] == s[..i] + [s[i]];
    FilterAppend(p, s[..i], [s[i]]);
  }

  lemma {:induction false} FilterAppend<T(!new)>(p: T -> bool, a: seq<T>, b: seq<T>)
    ensures Filter(p, a + b) == Filter(p, a) + Filter(p, b)
  {
    if a == [] {
      assert a + b == b;
    } else {
      assert (a + b)[1..] == a[1..] + b;
      FilterAppend(p, a[1..], b);
      var head := if p(a[0]) then [a[0]] else [];
      assert Filter(p, a + b) == head + (Filter(p, a[1..]) + Filter(p, b));
    }
  }

  lemma {:induction false} FilterAll<T(!new)>(p: T -> bool, s: seq<T>)
    requires forall x :: x in s ==> p(x)
    ensures Filter(p, s) == s
  {
    if s != [] { FilterAll(p, s[1..]); }
  }

  lemma {:induction false} FilterNone<T(!new)>(p: T -> bool, s: seq<T>)
    requires forall x :: x in s ==> !p(x)
    ensures Filter(p, s) == []
  {
    if s != [] { FilterNone(p, s[1..]); }
  }

  lemma {:induction false} FilterAgree<T(!new)>(p: T -> bool, q: T -> bool, s: seq<T>)
    requires forall x :: x in s ==> p(x) == q(x)
    ensures Filter(p, s) == Filter(q, s)
  {
    if s != [] { FilterAgree(p, q, s[1..]); }
  }

  function Both<T>(p: T -> bool, q: T -> bool): T -> bool {
    x => p(x) && q(x)
  }

  lemma {:induction false} FilterFilter<T(!new)>(p: T -> bool, q: T -> bool, s: seq<T>)
    ensures Filter(p, Filter(q, s)) == Filter(Both(p, q), s)
  {
    if s != [] {
      FilterFilter(p, q, s[1..]);
      var head := if q(s[0]) then [s[0]] else [];
      assert Filter(q, s) == head + Filter(q, s[1..]);
      FilterAppend(p, head, Filter(q, s[1..]));
    }
  }

  lemma {:induction false} FilterKeepsDistinct<T(!new)>(p: T -> bool, s: seq<T>)
    requires NoDuplicates(s)
    ensures NoDuplicates(Filter(p, s))
  {
    if s != [] {
      FilterKeepsDistinct(p, s[1..]);
      FilterMembers(p, s[1..]);
      assert s[0] !in s[1..];
    }
  }

  /** a is an order-preserving subsequence of b. */
  predicate Subsequence<T(==)>(a: seq<T>, b: seq<T>)
    decreases |b|
  {
    if a == [] then true
    else if b == [] then false
    else if a[0] == b[0] then Subsequence(a[1..], b[1..])
    else Subsequence(a, b[1..])
  }

  lemma {:induction false} SubsequenceMembers<T(!new)>(a: seq<T>, b: seq<T>)
    requires Subsequence(a, b)
    ensures forall x :: x in a ==> x in b
    decreases |b|
  {
    if a != [] {
      if a[0] == b[0] {
        SubsequenceMembers(a[1..], b[1..]);
        assert a == [a[0]] + a[1..];
      } else {
        SubsequenceMembers(a, b[1..]);
      }
    }
  }

  lemma {:induction false} SubsequenceAppend<T(!new)>(a: seq<T>, b: seq<T>, x: T)
    requires Subsequence(a, b)
    ensures Subsequence(a, b + [x]) && Subsequence(a + [x], b + [x])
    decreases |b|
  {
    if b == [] {
      assert [x][1..] == [] && a + [x] == [x] && b + [x] == [x];
    } else {
      assert (b + [x])[1..] == b[1..] + [x];
      if a == [] {
        SubsequenceAppend([], b[1..], x);
        assert [] + [x] == [x] && [x][1..] == [];
      } else if a[0] == b[0] {
        SubsequenceAppend(a[1..], b[1..], x);
        assert (a + [x])[1..] == a[1..] + [x];
      } else {
        SubsequenceAppend(a, b[1..], x);
      }
    }
  }

  lemma {:induction false} SubsequenceTail<T(!new)>(a: seq<T>, b: seq<T>)
    requires Subsequence(a, b) && a != []
    ensures Subsequence(a[1..], b[1..]) && Subsequence(a[1..], b)
    decreases |b|, 1
  {
    if a[0] == b[0] {
      Widen(a[1..], b);
    } else {
      SubsequenceTail(a, b[1..]);
      Widen(a[1..], b);
    }
  }

  lemma {:induction false} Widen<T(!new)>(a: seq<T>, b: seq<T>)
    requires b != [] && Subsequence(a, b[1..])
    ensures Subsequence(a, b)
    decreases |b|, 0
  {
    if a != [] && a[0] == b[0] { SubsequenceTail(a, b[1..]); }
  }

  lemma {:induction false} SubsequenceFilter<T(!new)>(p: T -> bool, a: seq<T>, b: seq<T>)
    requires Subsequence(a, b)
    ensures Subsequence(Filter(p, a), Filter(p, b))
    decreases |b|
  {
    if a == [] {
    } else if a[0] == b[0] {
      SubsequenceFilter(p, a[1..], b[1..]);
      FilterCons(p, a);
      FilterCons(p, b);
    } else {
      SubsequenceFilter(p, a, b[1..]);
      FilterCons(p, b);
      if p(b[0]) { Widen(Filter(p, a), Filter(p, b)); }
    }
  }

  lemma FilterCons<T(!new)>(p: T -> bool, s: seq<T>)
    requires s != []
    ensures p(s[0]) ==> Filter(p, s) != [] && Filter(p, s)[0] == s[0] && Filter(p, s)[1..] == Filter(p, s[1..])
    ensures !p(s[0]) ==> Filter(p, s) == Filter(p, s[1..])
  {
    if p(s[0]) { assert ([s[0]] + Filter(p, s[1..]))[1..] == Filter(p, s[1..]); }
  }
}
