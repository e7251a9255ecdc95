/** Python's `sorted()` on lists and sets of integers. */
module Sorting {
  predicate Ascending(xs: seq<int>) {
    forall i, j :: 0 <= i < j < |xs| ==> xs[i] <= xs[j]
  }

  predicate StrictlyAscending(xs: seq<int>) {
    forall i, j :: 0 <= i < j < |xs| ==> xs[i] < xs[j]
  }

  /** Every element of `xs` is at least `lo`. */
  predicate AtLeast(lo: int, xs: seq<int>) {
    forall i :: 0 <= i < |xs| ==> lo <= xs[i]
  }

  lemma AtLeastMultiset(lo: int, xs: seq<int>, ys: seq<int>)
    requires AtLeast(lo, xs) && multiset(ys) <= multiset(xs)
    ensures AtLeast(lo, ys)
  {
    forall i | 0 <= i < |ys|
      ensures lo <= ys[i]
    {
      assert ys[i] in multiset(ys);
      assert ys[i] in multiset(xs);
      var k :| 0 <= k < |xs| && xs[k] == ys[i];
    }
  }

  lemma AscendingCons(x: int, xs: seq<int>)
    requires Ascending(xs) && AtLeast(x, xs)
    ensures Ascending([x] + xs)
  {
    var r := [x] + xs;
    forall i, j | 0 <= i < j < |r|
      ensures r[i] <= r[j]
    {
      if i > 0 {
        assert r[i] == xs[i - 1] && r[j] == xs[j - 1];
      } else {
        assert r[j] == xs[j - 1];
      }
    }
  }

  /** Insertion into an ascending list. */
  function Insert(x: int, xs: seq<int>): (r: seq<int>)
    requires Ascending(xs)
    ensures Ascending(r) && multiset(r) == multiset(xs) + multiset{x}
  {
    if |xs| == 0 then [x]
    else if x <= xs[0] then
      assert AtLeast(x, xs);
      AscendingCons(x, xs);
      [x] + xs
    else
      var rest := Insert(x, xs[1..]);
      assert xs == [xs[0]] + xs[1..];
      assert AtLeast(xs[0], xs[1..] + [x]);
      assert multiset(rest) == multiset(xs[1..] + [x]);
      AtLeastMultiset(xs[0], xs[1..] + [x], rest);
      AscendingCons(xs[0], rest);
      [xs[0]] + rest
  }

  /** `sorted(xs)` for a list of integers: ascending, and a permutation of `xs`. */
  function Sort(xs: seq<int>): (r: seq<int>)
    ensures Ascending(r) && multiset(r) == multiset(xs)
  {
    if |xs| == 0 then []
    else
      assert xs == [xs[0]] + xs[1..];
      Insert(xs[0], Sort(xs[1..]))
  }

  lemma Pick<T>(s: set<T>) returns (x: T)
    requires s != {}
    ensures x in s
  {
    x :| x in s;
  }

  lemma {:induction false} MinExists(s: set<int>)
    requires s != {}
    ensures exists m :: m in s && forall y :: y in s ==> m <= y
    decreases |s|
  {
    var x := Pick(s);
    var rest := s - {x};
    if forall y :: y in rest ==> x <= y {
      assert forall y :: y in s ==> y == x || y in rest;
    } else {
      MinExists(rest);
      var m :| m in rest && forall y :: y in rest ==> m <= y;
      assert forall y :: y in s ==> y == x || y in rest;
      assert m in s && forall y :: y in s ==> m <= y;
    }
  }

  /** The least element of a non-empty set. */
  function Min(s: set<int>): (m: int)
    requires s != {}
    ensures m in s && forall y :: y in s ==> m <= y
  {
    MinExists(s);
    var m :| m in s && forall y :: y in s ==> m <= y;
    m
  }

  lemma StrictCons(x: int, xs: seq<int>)
    requires StrictlyAscending(xs) && forall i :: 0 <= i < |xs| ==> x < xs[i]
    ensures StrictlyAscending([x] + xs)
  {
    var r := [x] + xs;
    forall i, j | 0 <= i < j < |r|
      ensures r[i] < r[j]
    {
      assert r[j] == xs[j - 1];
      if i > 0 {
        assert r[i] == xs[i - 1];
      }
    }
  }

  /** `sorted(s)` for a set of integers: its elements, each once, in increasing order. */
  function SortSet(s: set<int>): (r: seq<int>)
    ensures |r| == |s| && StrictlyAscending(r)
    ensures forall x :: x in r <==> x in s
    decreases |s|
  {
    if s == {} then []
    else
      var m := Min(s);
      var rest := SortSet(s - {m});
      assert forall i :: 0 <= i < |rest| ==> m < rest[i] by {
        forall i | 0 <= i < |rest|
          ensures m < rest[i]
        {
          assert rest[i] in s - {m};
        }
      }
      StrictCons(m, rest);
      [m] + rest
  }
}
