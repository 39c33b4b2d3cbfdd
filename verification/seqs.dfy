/** Sequence operations that the query views are built from: a filter (the
    ORM's `filter`/`exclude`), a prefix (slicing a queryset, `[:n]`), reversal
    and an insertion sort by a numeric key (`order_by`). */
module Seqs {
  import opened Base

  /** The elements of `s` that satisfy `p`, in their original order. */
  function Filter<T>(s: seq<T>, p: T -> bool): (r: seq<T>)
    ensures |r| <= |s|
    ensures forall i :: 0 <= i < |r| ==> r[i] in s && p(r[i])
    ensures forall i :: 0 <= i < |s| && p(s[i]) ==> s[i] in r
    decreases |s|
  {
    if |s| == 0 then []
    else if p(s[0]) then [s[0]] + Filter(s[1..], p)
    else Filter(s[1..], p)
  }

  lemma FilterMembers<T>(s: seq<T>, p: T -> bool)
    ensures forall x :: x in Filter(s, p) <==> x in s && p(x)
  {
    var r := Filter(s, p);
    forall x | x in s && p(x)
      ensures x in r
    {
      var i :| 0 <= i < |s| && s[i] == x;
    }
  }

  /** Filters by predicates that agree everywhere are equal. */
  lemma {:induction false} FilterCongruence<T>(s: seq<T>, p: T -> bool, q: T -> bool)
    requires forall x :: p(x) == q(x)
    ensures Filter(s, p) == Filter(s, q)
    decreases |s|
  {
    if |s| > 0 {
      FilterCongruence(s[1..], p, q);
    }
  }

  /** Filtering a sequence extended by one element. */
  lemma {:induction false} FilterSnoc<T>(s: seq<T>, x: T, p: T -> bool)
    ensures Filter(s + [x], p) == if p(x) then Filter(s, p) + [x] else Filter(s, p)
    decreases |s|
  {
    var t := s + [x];
    if |s| == 0 {
      assert t == [x];
      assert t[1..] == [];
    } else {
      assert t[0] == s[0];
      assert t[1..] == s[1..] + [x];
      FilterSnoc(s[1..], x, p);
    }
  }

  /** The first `n` elements, or all of them when there are fewer
      (Python slicing `s[:n]`). */
  function Take<T>(s: seq<T>, n: nat): (r: seq<T>)
    ensures |r| == Min(n, |s|)
    ensures forall i :: 0 <= i < |r| ==> r[i] == s[i]
  {
    if |s| <= n then s else s[..n]
  }

  function Reverse<T>(s: seq<T>): (r: seq<T>)
    ensures |r| == |s|
    ensures forall i :: 0 <= i < |s| ==> r[i] == s[|s| - 1 - i]
  {
    seq(|s|, i requires 0 <= i < |s| => s[|s| - 1 - i])
  }

  lemma ReverseMembers<T>(s: seq<T>)
    ensures forall x :: x in Reverse(s) <==> x in s
  {
    forall x | x in s
      ensures x in Reverse(s)
    {
      var i :| 0 <= i < |s| && s[i] == x;
      assert Reverse(s)[|s| - 1 - i] == x;
    }
  }

  function Map<T, U>(s: seq<T>, f: T -> U): (r: seq<U>)
    ensures |r| == |s|
    ensures forall i :: 0 <= i < |s| ==> r[i] == f(s[i])
  {
    seq(|s|, i requires 0 <= i < |s| => f(s[i]))
  }

  /** Strictly increasing in `key` from front to back. */
  ghost predicate Ascending<T>(s: seq<T>, key: T -> int) {
    forall i, j :: 0 <= i < j < |s| ==> key(s[i]) < key(s[j])
  }

  /** Strictly decreasing in `key` from front to back. */
  ghost predicate Descending<T>(s: seq<T>, key: T -> int) {
    forall i, j :: 0 <= i < j < |s| ==> key(s[i]) > key(s[j])
  }

  /** Decreasing in `key`, ties allowed. */
  ghost predicate NonIncreasing<T>(s: seq<T>, key: T -> int) {
    forall i, j :: 0 <= i < j < |s| ==> key(s[i]) >= key(s[j])
  }

  lemma AscendingTail<T>(s: seq<T>, key: T -> int)
    requires |s| > 0 && Ascending(s, key)
    ensures Ascending(s[1..], key)
    ensures forall y :: y in s[1..] ==> key(s[0]) < key(y)
  {
    forall y | y in s[1..]
      ensures key(s[0]) < key(y)
    {
      var k :| 0 <= k < |s[1..]| && s[1..][k] == y;
      assert s[k + 1] == y;
    }
  }

  lemma ConsAscending<T>(x: T, rest: seq<T>, key: T -> int)
    requires Ascending(rest, key)
    requires forall i :: 0 <= i < |rest| ==> key(x) < key(rest[i])
    ensures Ascending([x] + rest, key)
  {
    var r := [x] + rest;
    forall i, j | 0 <= i < j < |r|
      ensures key(r[i]) < key(r[j])
    {
      assert r[j] == rest[j - 1];
      if i > 0 {
        assert r[i] == rest[i - 1];
      }
    }
  }

  lemma {:induction false} FilterAscending<T>(s: seq<T>, p: T -> bool, key: T -> int)
    requires Ascending(s, key)
    ensures Ascending(Filter(s, p), key)
    decreases |s|
  {
    if |s| > 0 {
      AscendingTail(s, key);
      FilterAscending(s[1..], p, key);
      if p(s[0]) {
        var rest := Filter(s[1..], p);
        assert Filter(s, p) == [s[0]] + rest;
        ConsAscending(s[0], rest, key);
      }
    }
  }

  /** Filtering twice is filtering once by the conjunction `pq`. */
  lemma {:induction false} FilterFilter<T>(s: seq<T>, p: T -> bool, q: T -> bool, pq: T -> bool)
    requires forall x :: pq(x) == (p(x) && q(x))
    ensures Filter(Filter(s, p), q) == Filter(s, pq)
    decreases |s|
  {
    if |s| > 0 {
      FilterFilter(s[1..], p, q, pq);
      if p(s[0]) {
        assert Filter(s, p) == [s[0]] + Filter(s[1..], p);
        assert ([s[0]] + Filter(s[1..], p))[1..] == Filter(s[1..], p);
      }
    }
  }

  lemma ReverseAscending<T>(s: seq<T>, key: T -> int)
    requires Ascending(s, key)
    ensures Descending(Reverse(s), key)
  {
  }

  lemma TakeDescending<T>(s: seq<T>, n: nat, key: T -> int)
    requires Descending(s, key)
    ensures Descending(Take(s, n), key)
  {
  }

  lemma ConsNonIncreasing<T>(x: T, rest: seq<T>, key: T -> int)
    requires NonIncreasing(rest, key)
    requires |rest| > 0 ==> key(x) >= key(rest[0])
    ensures NonIncreasing([x] + rest, key)
  {
    var r := [x] + rest;
    forall i, j | 0 <= i < j < |r|
      ensures key(r[i]) >= key(r[j])
    {
      assert r[j] == rest[j - 1];
      if i > 0 {
        assert r[i] == rest[i - 1];
      } else {
        assert key(rest[0]) >= key(rest[j - 1]);
      }
    }
  }

  /** Insert `x` into a sequence kept in decreasing `key` order. */
  function Insert<T>(x: T, s: seq<T>, key: T -> int): (r: seq<T>)
    requires NonIncreasing(s, key)
    ensures NonIncreasing(r, key)
    ensures multiset(r) == multiset(s) + multiset{x}
    ensures |r| == |s| + 1
    ensures r[0] == x || (|s| > 0 && r[0] == s[0])
    decreases |s|
  {
    if |s| == 0 || key(x) >= key(s[0]) then
      ConsNonIncreasing(x, s, key);
      [x] + s
    else
      var rest := Insert(x, s[1..], key);
      assert s == [s[0]] + s[1..];
      assert |s| > 1 ==> key(s[0]) >= key(s[1]);
      ConsNonIncreasing(s[0], rest, key);
      [s[0]] + rest
  }

  /** Insertion sort into decreasing `key` order (`order_by('-key')`). */
  function SortDesc<T>(s: seq<T>, key: T -> int): (r: seq<T>)
    ensures NonIncreasing(r, key)
    ensures multiset(r) == multiset(s)
    decreases |s|
  {
    if |s| == 0 then []
    else
      assert s == [s[0]] + s[1..];
      Insert(s[0], SortDesc(s[1..], key), key)
  }

  lemma SortDescMembers<T>(s: seq<T>, key: T -> int)
    ensures forall i :: 0 <= i < |s| ==> s[i] in SortDesc(s, key)
    ensures forall i :: 0 <= i < |SortDesc(s, key)| ==> SortDesc(s, key)[i] in s
  {
    var r := SortDesc(s, key);
    forall i | 0 <= i < |s|
      ensures s[i] in r
    {
      assert s[i] in multiset(s);
    }
    forall i | 0 <= i < |r|
      ensures r[i] in s
    {
      assert r[i] in multiset(r);
    }
  }
}
