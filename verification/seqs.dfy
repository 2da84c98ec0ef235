/** Generic sequence helpers: JavaScript's `filter`, `slice(0, n)` and counting. */
module Seqs {

  /** `xs` can be obtained from `ys` by deleting elements, order kept (greedy leftmost matching). */
  predicate IsSubsequence<T(==)>(xs: seq<T>, ys: seq<T>)
    decreases |ys|
  {
    if xs == [] then true
    else if ys == [] then false
    else if xs[0] == ys[0] then IsSubsequence(xs[1..], ys[1..])
    else IsSubsequence(xs, ys[1..])
  }

  /** `Array.prototype.filter`: the elements satisfying `keep`, in order. */
  function Filter<T>(xs: seq<T>, keep: T -> bool): (r: seq<T>)
    ensures |r| <= |xs|
    ensures forall k :: 0 <= k < |r| ==> keep(r[k]) && r[k] in xs
    ensures forall k :: 0 <= k < |xs| && keep(xs[k]) ==> xs[k] in r
    decreases |xs|
  {
    if xs == [] then []
    else if keep(xs[0]) then [xs[0]] + Filter(xs[1..], keep)
    else Filter(xs[1..], keep)
  }

  /** Number of elements satisfying `p`. */
  function Count<T>(xs: seq<T>, p: T -> bool): (n: nat)
    ensures n <= |xs|
    decreases |xs|
  {
    if xs == [] then 0 else (if p(xs[0]) then 1 else 0) + Count(xs[1..], p)
  }

  /** `xs.slice(0, n)` for a non-negative `n`. */
  function Take<T>(xs: seq<T>, n: nat): (r: seq<T>)
    ensures |r| == if n < |xs| then n else |xs|
    ensures r == xs[..|r|]
  {
    if n < |xs| then xs[..n] else xs
  }

  /** `xs.slice(0, end)` for any integer `end`: a negative end counts back from the
      end of `xs`. */
  function SliceTo<T>(xs: seq<T>, end: int): (r: seq<T>)
    ensures 0 <= end ==> |r| == if end < |xs| then end else |xs|
    ensures end < 0 ==> |r| == if -end < |xs| then |xs| + end else 0
    ensures r == xs[..|r|]
  {
    if end >= 0 then Take(xs, end)
    else if -end < |xs| then xs[..|xs| + end]
    else []
  }

  lemma {:induction false} FilterIsSubsequence<T>(xs: seq<T>, keep: T -> bool)
    ensures IsSubsequence(Filter(xs, keep), xs)
    decreases |xs|
  {
    if xs != [] {
      FilterIsSubsequence(xs[1..], keep);
      if !keep(xs[0]) {
        SkipHead(Filter(xs[1..], keep), xs);
      }
    }
  }

  /** A subsequence of the tail of `ys` is a subsequence of `ys`. */
  lemma {:induction false} SkipHead<T>(xs: seq<T>, ys: seq<T>)
    requires |ys| > 0
    requires IsSubsequence(xs, ys[1..])
    ensures IsSubsequence(xs, ys)
    decreases |ys|, 0
  {
    if xs != [] && xs[0] == ys[0] {
      SubsequenceTail(xs, ys[1..]);
    }
  }

  /** Dropping the first element of a subsequence keeps it a subsequence. */
  lemma {:induction false} SubsequenceTail<T>(xs: seq<T>, ys: seq<T>)
    requires xs != []
    requires IsSubsequence(xs, ys)
    ensures IsSubsequence(xs[1..], ys)
    decreases |ys|, 1
  {
    if xs[0] != ys[0] {
      SubsequenceTail(xs, ys[1..]);
    }
    SkipHead(xs[1..], ys);
  }

  /** Filtering with a weaker predicate keeps at least what a stronger one keeps, in the same order. */
  lemma {:induction false} FilterMonotone<T>(xs: seq<T>, strong: T -> bool, weak: T -> bool)
    requires forall x :: strong(x) ==> weak(x)
    ensures Filter(Filter(xs, weak), strong) == Filter(xs, strong)
    decreases |xs|
  {
    if xs != [] {
      FilterMonotone(xs[1..], strong, weak);
      if weak(xs[0]) {
        assert Filter(xs, weak) == [xs[0]] + Filter(xs[1..], weak);
        assert Filter(xs, weak)[1..] == Filter(xs[1..], weak);
      }
    }
  }

  /** A filter keeps as many elements as satisfy the predicate. */
  lemma {:induction false} FilterCount<T>(xs: seq<T>, p: T -> bool)
    ensures |Filter(xs, p)| == Count(xs, p)
    decreases |xs|
  {
    if xs != [] {
      FilterCount(xs[1..], p);
    }
  }

  /** Counting a non-empty prefix: the head, then the rest of the prefix. */
  lemma CountPrefixStep<T>(xs: seq<T>, p: T -> bool, k: nat)
    requires 0 < k <= |xs|
    ensures Count(xs[..k], p) == (if p(xs[0]) then 1 else 0) + Count(xs[1..][..k - 1], p)
  {
    assert xs[..k][1..] == xs[1..][..k - 1];
  }

  /** A kept element lands in the filter at its rank: the number of kept elements
      before it. */
  lemma {:induction false} FilterAt<T>(xs: seq<T>, p: T -> bool, k: nat)
    requires k < |xs| && p(xs[k])
    ensures Count(xs[..k], p) < |Filter(xs, p)|
    ensures Filter(xs, p)[Count(xs[..k], p)] == xs[k]
    decreases k
  {
    if k == 0 {
      assert xs[..0] == [];
    } else {
      FilterAt(xs[1..], p, k - 1);
      CountPrefixStep(xs, p, k);
      assert xs[1..][k - 1] == xs[k];
    }
  }

  /** Predicates that agree everywhere count alike. */
  lemma {:induction false} CountSame<T>(xs: seq<T>, p: T -> bool, q: T -> bool)
    requires forall x :: p(x) == q(x)
    ensures Count(xs, p) == Count(xs, q)
    decreases |xs|
  {
    if xs != [] {
      CountSame(xs[1..], p, q);
    }
  }

  /** Counting distributes over concatenation. */
  lemma {:induction false} CountAppend<T>(xs: seq<T>, ys: seq<T>, p: T -> bool)
    ensures Count(xs + ys, p) == Count(xs, p) + Count(ys, p)
    decreases |xs|
  {
    if xs != [] {
      CountAppend(xs[1..], ys, p);
      assert (xs + ys)[1..] == xs[1..] + ys;
    } else {
      assert xs + ys == ys;
    }
  }

  /** Nothing is counted exactly when no element satisfies the predicate. */
  lemma {:induction false} CountZeroIff<T>(xs: seq<T>, p: T -> bool)
    ensures Count(xs, p) == 0 <==> forall k :: 0 <= k < |xs| ==> !p(xs[k])
    decreases |xs|
  {
    if xs != [] {
      CountZeroIff(xs[1..], p);
      assert forall k :: 1 <= k < |xs| ==> xs[k] == xs[1..][k - 1];
    }
  }

  /** Counting over a filter: the count of a sub-predicate never exceeds the count of the predicate. */
  lemma {:induction false} CountDisjoint<T>(xs: seq<T>, p: T -> bool, q: T -> bool)
    requires forall x :: !(p(x) && q(x))
    ensures Count(xs, p) + Count(xs, q) <= |xs|
    decreases |xs|
  {
    if xs != [] {
      CountDisjoint(xs[1..], p, q);
    }
  }

  /** An element counted in `xs` more often than in its first `n` elements sits at
      index `n` or later. */
  lemma InSuffix<T>(xs: seq<T>, n: nat, y: T)
    requires n <= |xs| && y in multiset(xs) - multiset(xs[..n])
    ensures exists j :: n <= j < |xs| && xs[j] == y
  {
    assert xs == xs[..n] + xs[n..];
    assert multiset(xs) == multiset(xs[..n]) + multiset(xs[n..]);
    assert y in xs[n..];
  }
}
