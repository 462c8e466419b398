/** Order-preserving selections from a sequence. */
module Sequences {
  /** `xs` is `ys` with some elements left out, the rest in their order. */
  predicate IsSubsequence<T(==)>(xs: seq<T>, ys: seq<T>)
    decreases |ys|
  {
    if xs == [] then true
    else if ys == [] then false
    else if xs[|xs| - 1] == ys[|ys| - 1] then IsSubsequence(xs[..|xs| - 1], ys[..|ys| - 1])
    else IsSubsequence(xs, ys[..|ys| - 1])
  }

  lemma {:induction false} SubsequenceExtend<T>(xs: seq<T>, ys: seq<T>, y: T)
    requires IsSubsequence(xs, ys)
    ensures IsSubsequence(xs, ys + [y])
    decreases |ys|, 1
  {
    var zs := ys + [y];
    assert zs[..|zs| - 1] == ys;
    if xs != [] && xs[|xs| - 1] == y {
      SubsequenceDrop(xs, ys);
    }
  }

  /** Dropping the last element of a subsequence keeps it a subsequence. */
  lemma {:induction false} SubsequenceDrop<T>(xs: seq<T>, ys: seq<T>)
    requires xs != [] && IsSubsequence(xs, ys)
    ensures IsSubsequence(xs[..|xs| - 1], ys)
    decreases |ys|, 0
  {
    var front := xs[..|xs| - 1];
    var rest := ys[..|ys| - 1];
    assert rest + [ys[|ys| - 1]] == ys;
    if xs[|xs| - 1] != ys[|ys| - 1] {
      SubsequenceDrop(xs, rest);
    }
    SubsequenceExtend(front, rest, ys[|ys| - 1]);
  }

  /** The elements of `xs` whose flag in `keep` is set, in order. */
  function Select<T>(xs: seq<T>, keep: seq<bool>): seq<T>
    requires |keep| == |xs|
    decreases |xs|
  {
    if |xs| == 0 then []
    else Select(xs[..|xs| - 1], keep[..|xs| - 1]) + (if keep[|xs| - 1] then [xs[|xs| - 1]] else [])
  }

  /** One more element appends it to the selection exactly when it is kept. */
  lemma SelectStep<T>(xs: seq<T>, keep: seq<bool>, x: T, k: bool)
    requires |keep| == |xs|
    ensures Select(xs + [x], keep + [k]) == Select(xs, keep) + (if k then [x] else [])
  {
    assert (xs + [x])[..|xs|] == xs;
    assert (keep + [k])[..|xs|] == keep;
  }

  /** A selection is a subsequence holding every flagged element, and everything it holds is a flagged element. */
  lemma SelectIsSubsequence<T>(xs: seq<T>, keep: seq<bool>)
    requires |keep| == |xs|
    ensures IsSubsequence(Select(xs, keep), xs)
    ensures forall i :: 0 <= i < |xs| && keep[i] ==> xs[i] in Select(xs, keep)
    ensures forall y :: y in Select(xs, keep) ==> exists i :: 0 <= i < |xs| && keep[i] && xs[i] == y
  {
    SelectInOrder(xs, keep);
    SelectMembers(xs, keep);
  }

  lemma {:induction false} SelectInOrder<T>(xs: seq<T>, keep: seq<bool>)
    requires |keep| == |xs|
    ensures IsSubsequence(Select(xs, keep), xs)
    decreases |xs|
  {
    if |xs| > 0 {
      var n := |xs| - 1;
      SelectInOrder(xs[..n], keep[..n]);
      var front := Select(xs[..n], keep[..n]);
      if keep[n] {
        var r := front + [xs[n]];
        assert r == Select(xs, keep);
        assert r[..|r| - 1] == front && r[|r| - 1] == xs[|xs| - 1];
      } else {
        assert front == Select(xs, keep);
        assert xs[..n] + [xs[n]] == xs;
        SubsequenceExtend(front, xs[..n], xs[n]);
      }
    }
  }

  lemma {:induction false} SelectMembers<T>(xs: seq<T>, keep: seq<bool>)
    requires |keep| == |xs|
    ensures forall i :: 0 <= i < |xs| && keep[i] ==> xs[i] in Select(xs, keep)
    ensures forall y :: y in Select(xs, keep) ==> exists i :: 0 <= i < |xs| && keep[i] && xs[i] == y
    decreases |xs|
  {
    if |xs| > 0 {
      var n := |xs| - 1;
      SelectMembers(xs[..n], keep[..n]);
      var front := Select(xs[..n], keep[..n]);
      var tail := if keep[n] then [xs[n]] else [];
      assert Select(xs, keep) == front + tail;
      forall i | 0 <= i < |xs| && keep[i] ensures xs[i] in Select(xs, keep) {
        if i < n {
          assert xs[..n][i] == xs[i] && keep[..n][i] == keep[i];
        }
      }
      forall y | y in Select(xs, keep) ensures exists i :: 0 <= i < |xs| && keep[i] && xs[i] == y {
        if y in front {
          var i :| 0 <= i < n && keep[..n][i] && xs[..n][i] == y;
          assert keep[i] && xs[i] == y;
        } else {
          assert keep[n] && xs[n] == y;
        }
      }
    }
  }
}
