/**
 * `Array.prototype.sort` with a comparator, on a copy: a stable insertion
 * sort. An element goes after every element the comparator does not put
 * after it, so equal elements keep their order.
 */
module Sorting {

  /** `a` may stay before `b`: the comparator's result is not positive. */
  predicate NotAfter<T>(cmp: (T, T) -> int, a: T, b: T) {
    cmp(a, b) <= 0
  }

  /**
   * The comparator orders the values of `xs` consistently: any two are
   * comparable one way round, and "not after" is transitive.
   */
  predicate ConsistentOn<T>(cmp: (T, T) -> int, xs: seq<T>) {
    (forall i, j :: 0 <= i < |xs| && 0 <= j < |xs| ==> NotAfter(cmp, xs[i], xs[j]) || NotAfter(cmp, xs[j], xs[i])) &&
    (forall i, j, k ::
       0 <= i < |xs| && 0 <= j < |xs| && 0 <= k < |xs| && NotAfter(cmp, xs[i], xs[j]) && NotAfter(cmp, xs[j], xs[k]) ==>
         NotAfter(cmp, xs[i], xs[k]))
  }

  predicate SortedBy<T>(cmp: (T, T) -> int, xs: seq<T>) {
    forall i, j :: 0 <= i < j < |xs| ==> NotAfter(cmp, xs[i], xs[j])
  }

  /** `x` placed after the leading elements of `ys` that are not after it. */
  function Insert<T>(x: T, ys: seq<T>, cmp: (T, T) -> int): (r: seq<T>)
    ensures multiset(r) == multiset(ys) + multiset{x}
    decreases |ys|
  {
    if |ys| == 0 then [x]
    else if NotAfter(cmp, ys[0], x) then
      assert ys == [ys[0]] + ys[1..];
      [ys[0]] + Insert(x, ys[1..], cmp)
    else [x] + ys
  }

  /** The sorted copy. */
  function Sort<T>(xs: seq<T>, cmp: (T, T) -> int): (r: seq<T>)
    ensures multiset(r) == multiset(xs)
    decreases |xs|
  {
    if |xs| == 0 then []
    else
      assert xs == xs[..|xs| - 1] + [xs[|xs| - 1]];
      Insert(xs[|xs| - 1], Sort(xs[..|xs| - 1], cmp), cmp)
  }

  /** Inserting into a sorted sequence keeps it sorted, when the comparator is consistent on the values. */
  lemma {:induction false} InsertSorted<T>(x: T, ys: seq<T>, cmp: (T, T) -> int, pool: seq<T>)
    requires SortedBy(cmp, ys) && ConsistentOn(cmp, pool)
    requires x in pool && forall y :: y in ys ==> y in pool
    ensures SortedBy(cmp, Insert(x, ys, cmp))
    decreases |ys|
  {
    if |ys| > 0 {
      if NotAfter(cmp, ys[0], x) {
        var rest := ys[1..];
        assert forall i, j :: 0 <= i < j < |rest| ==> rest[i] == ys[i + 1] && rest[j] == ys[j + 1];
        InsertSorted(x, rest, cmp, pool);
        InsertBehindHead(x, ys, cmp);
      } else {
        InsertInFront(x, ys, cmp, pool);
      }
    }
  }

  /** Behind a head that is not after `x`, the sorted insertion into the rest stays behind the head. */
  lemma InsertBehindHead<T>(x: T, ys: seq<T>, cmp: (T, T) -> int)
    requires |ys| > 0 && SortedBy(cmp, ys) && NotAfter(cmp, ys[0], x)
    requires SortedBy(cmp, Insert(x, ys[1..], cmp))
    ensures SortedBy(cmp, Insert(x, ys, cmp))
  {
    var rest := ys[1..];
    var r := Insert(x, rest, cmp);
    assert multiset(r) == multiset(rest) + multiset{x};
    forall j | 0 <= j < |r| ensures NotAfter(cmp, ys[0], r[j]) {
      assert r[j] in multiset(r);
      if r[j] != x {
        assert r[j] in multiset(rest);
        var k :| 0 <= k < |rest| && rest[k] == r[j];
        assert ys[k + 1] == r[j];
      }
    }
    assert Insert(x, ys, cmp) == [ys[0]] + r;
  }

  /** An `x` before the head of a sorted sequence is not after any of its elements. */
  lemma InsertInFront<T>(x: T, ys: seq<T>, cmp: (T, T) -> int, pool: seq<T>)
    requires |ys| > 0 && SortedBy(cmp, ys) && !NotAfter(cmp, ys[0], x) && ConsistentOn(cmp, pool)
    requires x in pool && forall y :: y in ys ==> y in pool
    ensures SortedBy(cmp, Insert(x, ys, cmp))
  {
    var i0 :| 0 <= i0 < |pool| && pool[i0] == x;
    assert ys[0] in ys;
    var j0 :| 0 <= j0 < |pool| && pool[j0] == ys[0];
    assert NotAfter(cmp, x, ys[0]);
    forall j | 0 <= j < |ys| ensures NotAfter(cmp, x, ys[j]) {
      if j > 0 {
        assert ys[j] in ys;
        var k0 :| 0 <= k0 < |pool| && pool[k0] == ys[j];
        assert NotAfter(cmp, pool[i0], pool[j0]) && NotAfter(cmp, pool[j0], pool[k0]);
      }
    }
    assert Insert(x, ys, cmp) == [x] + ys;
  }

  /** A consistent comparator sorts the copy. */
  lemma {:induction false} SortSorted<T>(xs: seq<T>, cmp: (T, T) -> int, pool: seq<T>)
    requires ConsistentOn(cmp, pool) && forall x :: x in xs ==> x in pool
    ensures SortedBy(cmp, Sort(xs, cmp))
    decreases |xs|
  {
    if |xs| > 0 {
      var front := xs[..|xs| - 1];
      assert forall x :: x in front ==> x in xs;
      SortSorted(front, cmp, pool);
      var s := Sort(front, cmp);
      forall y | y in s ensures y in pool {
        assert y in multiset(s);
        assert y in multiset(front);
      }
      InsertSorted(xs[|xs| - 1], s, cmp, pool);
    }
  }

  /**
   * The sorted copy is a permutation of the input whatever the comparator,
   * and non-decreasing under it when the comparator is consistent on the input.
   */
  lemma SortIsPermutation<T>(xs: seq<T>, cmp: (T, T) -> int)
    ensures multiset(Sort(xs, cmp)) == multiset(xs) && |Sort(xs, cmp)| == |xs|
    ensures ConsistentOn(cmp, xs) ==> SortedBy(cmp, Sort(xs, cmp))
  {
    assert |multiset(Sort(xs, cmp))| == |multiset(xs)|;
    if ConsistentOn(cmp, xs) {
      SortSorted(xs, cmp, xs);
    }
  }
}
