/** The stable ascending sort `Array.prototype.sort((a, b) => key(a) - key(b))`
    performs, as an insertion sort over `seq`. */
module StableSort {
  import opened Seqs

  predicate SortedBy<T>(xs: seq<T>, key: T -> int) {
    forall i, j :: 0 <= i < j < |xs| ==> key(xs[i]) <= key(xs[j])
  }

  /** The elements of `xs` whose key is `k`, in their original order. */
  function WithKey<T>(xs: seq<T>, key: T -> int, k: int): seq<T> {
    Filter(xs, x => key(x) == k)
  }

  /** Inserts `x` before the first element whose key is not smaller, so that `x`
      precedes every element with an equal key. */
  function Insert<T>(x: T, xs: seq<T>, key: T -> int): (r: seq<T>)
    ensures |r| == |xs| + 1
    ensures multiset(r) == multiset(xs) + multiset{x}
    decreases |xs|
  {
    if xs == [] || key(x) <= key(xs[0]) then [x] + xs
    else
      assert xs == [xs[0]] + xs[1..];
      [xs[0]] + Insert(x, xs[1..], key)
  }

  /** Sorts by ascending key; elements with equal keys keep their input order. */
  function SortBy<T>(xs: seq<T>, key: T -> int): (r: seq<T>)
    ensures |r| == |xs|
    ensures multiset(r) == multiset(xs)
    decreases |xs|
  {
    if xs == [] then []
    else
      assert xs == [xs[0]] + xs[1..];
      Insert(xs[0], SortBy(xs[1..], key), key)
  }

  lemma {:induction false} InsertSorted<T>(x: T, xs: seq<T>, key: T -> int)
    requires SortedBy(xs, key)
    ensures SortedBy(Insert(x, xs, key), key)
    decreases |xs|
  {
    if xs != [] && key(x) > key(xs[0]) {
      InsertSorted(x, xs[1..], key);
      InsertAbove(x, xs[1..], key, key(xs[0]));
    }
  }

  /** A lower bound on every key survives the insertion of an element above it. */
  lemma {:induction false} InsertAbove<T>(x: T, xs: seq<T>, key: T -> int, b: int)
    requires b <= key(x) && forall j :: 0 <= j < |xs| ==> b <= key(xs[j])
    ensures forall j :: 0 <= j < |Insert(x, xs, key)| ==> b <= key(Insert(x, xs, key)[j])
    decreases |xs|
  {
    if xs != [] && key(x) > key(xs[0]) {
      InsertAbove(x, xs[1..], key, b);
    }
  }

  /** The result is in ascending key order. */
  lemma {:induction false} SortBySorted<T>(xs: seq<T>, key: T -> int)
    ensures SortedBy(SortBy(xs, key), key)
    decreases |xs|
  {
    if xs != [] {
      SortBySorted(xs[1..], key);
      InsertSorted(xs[0], SortBy(xs[1..], key), key);
    }
  }

  lemma {:induction false} InsertWithKey<T>(x: T, xs: seq<T>, key: T -> int, k: int)
    ensures WithKey(Insert(x, xs, key), key, k) == (if key(x) == k then [x] else []) + WithKey(xs, key, k)
    decreases |xs|
  {
    var p := (y: T) => key(y) == k;
    if xs == [] || key(x) <= key(xs[0]) {
      assert ([x] + xs)[1..] == xs;
    } else {
      InsertWithKey(x, xs[1..], key, k);
      assert ([xs[0]] + Insert(x, xs[1..], key))[1..] == Insert(x, xs[1..], key);
      if key(x) == k {
        assert !p(xs[0]);
      }
    }
  }

  /** Stability: for every key, the elements carrying it appear in the output in
      exactly their input order. */
  lemma {:induction false} SortByStable<T>(xs: seq<T>, key: T -> int, k: int)
    ensures WithKey(SortBy(xs, key), key, k) == WithKey(xs, key, k)
    decreases |xs|
  {
    if xs != [] {
      SortByStable(xs[1..], key, k);
      InsertWithKey(xs[0], SortBy(xs[1..], key), key, k);
    }
  }
}
