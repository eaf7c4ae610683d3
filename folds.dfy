/**
 * Generic shapes of a loop over a list: a map, and a fold that also emits
 * one output per element.  Their lemmas are proved once, for any step.
 */
module Folds {

  /** `f` applied to each element. */
  function Map<T, U>(f: T -> U, xs: seq<T>): (ys: seq<U>)
    ensures |ys| == |xs|
    ensures forall j :: 0 <= j < |xs| ==> ys[j] == f(xs[j])
  {
    seq(|xs|, j requires 0 <= j < |xs| => f(xs[j]))
  }

  /** Mapping a sequence grown at the end grows the image at the end. */
  lemma MapLast<T, U>(f: T -> U, xs: seq<T>)
    requires xs != []
    ensures Map(f, xs) == Map(f, xs[..|xs| - 1]) + [f(xs[|xs| - 1])]
  {
    var init := xs[..|xs| - 1];
    var r := Map(f, init) + [f(xs[|xs| - 1])];
    forall k | 0 <= k < |xs| ensures Map(f, xs)[k] == r[k] {
      if k < |init| {
        assert init[k] == xs[k];
      }
    }
  }

  /** Mapping a prefix gives the prefix of the image. */
  lemma MapPrefix<T, U>(f: T -> U, xs: seq<T>, i: nat)
    requires i <= |xs|
    ensures Map(f, xs[..i]) == Map(f, xs)[..i]
  {
  }

  /** The state after `next` has taken in each element, from the first to the last. */
  function Final<S, T>(next: (S, T) -> S, s0: S, xs: seq<T>): S
    decreases |xs|
  {
    if xs == [] then s0 else next(Final(next, s0, xs[..|xs| - 1]), xs[|xs| - 1])
  }

  /** One output per element, computed by `out` from the state before that element. */
  function Outputs<S, T, U>(next: (S, T) -> S, out: (S, T) -> U, s0: S, xs: seq<T>): (ys: seq<U>)
    ensures |ys| == |xs|
    decreases |xs|
  {
    if xs == [] then []
    else
      var init := xs[..|xs| - 1];
      Outputs(next, out, s0, init) + [out(Final(next, s0, init), xs[|xs| - 1])]
  }

  /** Output `i` depends only on element `i` and the state the elements before it left. */
  lemma {:induction false} OutputAt<S, T, U>(next: (S, T) -> S, out: (S, T) -> U, s0: S, xs: seq<T>, i: nat)
    requires i < |xs|
    ensures Outputs(next, out, s0, xs)[i] == out(Final(next, s0, xs[..i]), xs[i])
    decreases |xs|
  {
    var init := xs[..|xs| - 1];
    if i < |init| {
      OutputAt(next, out, s0, init, i);
      assert init[..i] == xs[..i] && init[i] == xs[i];
    } else {
      assert init == xs[..i];
    }
  }
}
