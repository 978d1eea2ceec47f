/**
 * Sequence operations that stand for the query engine's WHERE, ORDER BY and
 * LIMIT, and for JavaScript's `Array.prototype.filter`.
 */
module Seqs {

  /** The elements of `s` that satisfy `p`, in their original order. */
  function Filter<T>(s: seq<T>, p: T -> bool): (r: seq<T>)
    ensures |r| <= |s|
    ensures forall i :: 0 <= i < |r| ==> r[i] in s && p(r[i])
    ensures forall i :: 0 <= i < |s| && p(s[i]) ==> s[i] in r
    ensures (forall i :: 0 <= i < |s| ==> !p(s[i])) ==> r == []
  {
    if s == [] then [] else (if p(s[0]) then [s[0]] else []) + Filter(s[1..], p)
  }

  /** Filtering keeps every occurrence of a kept value and none of a dropped one. */
  lemma {:induction false} FilterCount<T>(s: seq<T>, p: T -> bool, x: T)
    ensures multiset(Filter(s, p))[x] == if p(x) then multiset(s)[x] else 0
  {
    if s != [] {
      FilterCount(s[1..], p, x);
      var head := if p(s[0]) then [s[0]] else [];
      assert Filter(s, p) == head + Filter(s[1..], p);
      assert multiset(Filter(s, p)) == multiset(head) + multiset(Filter(s[1..], p));
      assert s == [s[0]] + s[1..];
      assert multiset(s) == multiset{s[0]} + multiset(s[1..]);
    }
  }

  /** Filtering two orderings of the same rows gives two orderings of the same result. */
  lemma {:induction false} FilterOfPermutation<T>(a: seq<T>, b: seq<T>, p: T -> bool)
    requires multiset(a) == multiset(b)
    ensures multiset(Filter(a, p)) == multiset(Filter(b, p))
  {
    forall x
      ensures multiset(Filter(a, p))[x] == multiset(Filter(b, p))[x]
    {
      FilterCount(a, p, x);
      FilterCount(b, p, x);
    }
  }

  /** Filtering a sequence with one more element at the end. */
  lemma {:induction false} FilterSnoc<T>(s: seq<T>, x: T, p: T -> bool)
    ensures Filter(s + [x], p) == Filter(s, p) + (if p(x) then [x] else [])
  {
    if s != [] {
      assert (s + [x])[1..] == s[1..] + [x];
      FilterSnoc(s[1..], x, p);
    }
  }

  /** `Array.prototype.map`: `f` applied to every element, in order. */
  function Map<T, U>(s: seq<T>, f: T -> U): (r: seq<U>)
    ensures |r| == |s| && forall i :: 0 <= i < |s| ==> r[i] == f(s[i])
  {
    seq(|s|, i requires 0 <= i < |s| => f(s[i]))
  }

  /** `s` is in ascending order of `key` (ties in any order). */
  ghost predicate SortedBy<T>(s: seq<T>, key: T -> int) {
    forall i, j :: 0 <= i < j < |s| ==> key(s[i]) <= key(s[j])
  }

  /** Inserts `x` into the sorted `s` in front of the first element whose key is not smaller. */
  function InsertBy<T>(x: T, s: seq<T>, key: T -> int): (r: seq<T>)
    requires SortedBy(s, key)
    ensures |r| == |s| + 1
    ensures r[0] == x || (|s| > 0 && r[0] == s[0])
    ensures multiset(r) == multiset(s) + multiset{x}
    ensures SortedBy(r, key)
  {
    if s == [] || key(x) <= key(s[0]) then
      [x] + s
    else
      assert s == [s[0]] + s[1..];
      var rest := InsertBy(x, s[1..], key);
      InsertBehindHead(x, s, key, rest);
      [s[0]] + rest
  }

  /** The step of `InsertBy` when `x` goes behind the head of `s`. */
  lemma {:induction false} InsertBehindHead<T>(x: T, s: seq<T>, key: T -> int, rest: seq<T>)
    requires s != [] && key(s[0]) < key(x) && SortedBy(s, key)
    requires SortedBy(rest, key) && multiset(rest) == multiset(s[1..]) + multiset{x}
    ensures SortedBy([s[0]] + rest, key)
    ensures multiset([s[0]] + rest) == multiset(s) + multiset{x}
  {
    assert s == [s[0]] + s[1..];
    forall y | y in multiset(rest) ensures key(s[0]) <= key(y) {
      if y != x {
        assert y in multiset(s[1..]);
        var k :| 0 <= k < |s[1..]| && s[1..][k] == y;
        assert s[k + 1] == y;
      }
    }
    ConsSorted(s[0], rest, key);
  }

  /** A sorted sequence stays sorted behind a head whose key is not larger than any of its elements'. */
  lemma {:induction false} ConsSorted<T>(h: T, rest: seq<T>, key: T -> int)
    requires SortedBy(rest, key)
    requires forall y | y in multiset(rest) :: key(h) <= key(y)
    ensures SortedBy([h] + rest, key)
  {
    var r := [h] + rest;
    forall i, j | 0 <= i < j < |r| ensures key(r[i]) <= key(r[j]) {
      assert r[j] == rest[j - 1];
      assert rest[j - 1] in multiset(rest);
      if i > 0 {
        assert r[i] == rest[i - 1];
      }
    }
  }

  /** ORDER BY `key` ascending: a sorted permutation of `s`. */
  function SortBy<T>(s: seq<T>, key: T -> int): (r: seq<T>)
    ensures |r| == |s|
    ensures multiset(r) == multiset(s)
    ensures SortedBy(r, key)
  {
    if s == [] then []
    else
      assert s == [s[0]] + s[1..];
      InsertBy(s[0], SortBy(s[1..], key), key)
  }

  /** The rows a filter keeps from a sorted sequence are still sorted. */
  lemma {:induction false} FilterSorted<T>(s: seq<T>, p: T -> bool, key: T -> int)
    requires SortedBy(s, key)
    ensures SortedBy(Filter(s, p), key)
  {
    if s != [] {
      FilterSorted(s[1..], p, key);
      var rest := Filter(s[1..], p);
      if p(s[0]) {
        forall y | y in multiset(rest) ensures key(s[0]) <= key(y) {
          var k :| 0 <= k < |rest| && rest[k] == y;
          var j :| 0 <= j < |s[1..]| && s[1..][j] == y;
          assert s[j + 1] == y;
        }
        ConsSorted(s[0], rest, key);
      }
    }
  }

  /** LIMIT `n`: the first `n` elements, or all of them when there are fewer. */
  function Take<T>(s: seq<T>, n: nat): (r: seq<T>)
    ensures |r| == if n < |s| then n else |s|
    ensures r <= s
  {
    if n < |s| then s[..n] else s
  }

  /**
   * ORDER BY `key` then LIMIT `n`: the kept elements stay in order, and every
   * element left out has a key no smaller than that of any kept one.
   */
  lemma {:induction false} TakeSortedIsTop<T>(s: seq<T>, key: T -> int, n: nat)
    ensures var r := Take(SortBy(s, key), n);
      && SortedBy(r, key)
      && forall i, j :: 0 <= i < |r| && 0 <= j < |s| && s[j] !in r ==> key(r[i]) <= key(s[j])
  {
    var r := Take(SortBy(s, key), n);
    forall i, j | 0 <= i < |r| && 0 <= j < |s| && s[j] !in r
      ensures key(r[i]) <= key(s[j])
    {
      LeftOutNotSmaller(s, key, n, i, s[j]);
    }
  }

  /** An element the limit cuts off sorts after every element it keeps. */
  lemma {:induction false} LeftOutNotSmaller<T>(s: seq<T>, key: T -> int, n: nat, i: nat, x: T)
    requires i < |Take(SortBy(s, key), n)|
    requires x in s && x !in Take(SortBy(s, key), n)
    ensures key(Take(SortBy(s, key), n)[i]) <= key(x)
  {
    var sorted := SortBy(s, key);
    var r := Take(sorted, n);
    assert r == sorted[..|r|];
    assert x in multiset(sorted);
    var k :| 0 <= k < |sorted| && sorted[k] == x;
    assert k >= |r|;
  }
}
