/** Optional values: the model's stand-in for `undefined`/`null` results and for
    operations that can throw. */
module Wrappers {
  import opened Seqs

  datatype Option<+T> = None | Some(value: T) {

    /** The wrapped value, or `default` when there is none (`x ?? default`). */
    function GetOr(default: T): T {
      match this
      case Some(v) => v
      case None => default
    }
  }

  /** JavaScript truthiness of an optional string: present and non-empty. */
  predicate Truthy(s: Option<string>) {
    s.Some? && s.value != ""
  }

  /** `s || fallback` for an optional string. */
  function OrElse(s: Option<string>, fallback: string): (r: string)
    ensures Truthy(s) ==> r == s.value
    ensures !Truthy(s) ==> r == fallback
  {
    if Truthy(s) then s.value else fallback
  }

  /** Whether `f` yields a value. */
  function Present<A, B>(f: A -> Option<B>): A -> bool {
    a => f(a).Some?
  }

  /** `xs.map(f)` keeping only the present results, in order: a loop that pushes
      every non-null result. The result of element `k` lands at its rank, the
      number of elements before it with a result. */
  function Collect<A, B>(xs: seq<A>, f: A -> Option<B>): (r: seq<B>)
    ensures |r| == Count(xs, Present(f))
    ensures forall k :: 0 <= k < |xs| && f(xs[k]).Some? ==>
              Count(xs[..k], Present(f)) < |r| && r[Count(xs[..k], Present(f))] == f(xs[k]).value
    decreases |xs|
  {
    if xs == [] then []
    else
      var rest := Collect(xs[1..], f);
      var r := (if f(xs[0]).Some? then [f(xs[0]).value] else []) + rest;
      forall k | 0 <= k < |xs| && f(xs[k]).Some?
        ensures Count(xs[..k], Present(f)) < |r| && r[Count(xs[..k], Present(f))] == f(xs[k]).value
      {
        if k == 0 {
          assert xs[..0] == [];
        } else {
          CountPrefixStep(xs, Present(f), k);
          assert xs[1..][k - 1] == xs[k];
        }
      }
      r
  }

  /** Collecting a non-empty sequence: the head's result, then the tail's. */
  lemma CollectStep<A, B>(xs: seq<A>, f: A -> Option<B>)
    requires xs != []
    ensures Collect(xs, f) == (if f(xs[0]).Some? then [f(xs[0]).value] else []) + Collect(xs[1..], f)
  {
  }

  /** Every collected value is the result of some element. */
  lemma {:induction false} CollectFrom<A, B>(xs: seq<A>, f: A -> Option<B>, i: nat)
    requires i < |Collect(xs, f)|
    ensures exists k :: 0 <= k < |xs| && f(xs[k]) == Some(Collect(xs, f)[i])
    decreases |xs|
  {
    if f(xs[0]).Some? && i == 0 {
      assert f(xs[0]) == Some(Collect(xs, f)[0]);
    } else {
      var j := if f(xs[0]).Some? then i - 1 else i;
      CollectFrom(xs[1..], f, j);
      var k :| 0 <= k < |xs[1..]| && f(xs[1..][k]) == Some(Collect(xs[1..], f)[j]);
      assert xs[1..][k] == xs[k + 1];
    }
  }
}
