/** The LINQ element operators the core relies on, over sequences.
    They answer with positions so that callers can both read and
    replace the element found. */
module Linq {
  import opened Common

  /** The positions, from `from` on, whose element satisfies `p`, in increasing order. */
  function MatchingIndices<T>(xs: seq<T>, p: T -> bool, from: nat): (r: seq<nat>)
    requires from <= |xs|
    ensures forall k :: k in r <==> from <= k < |xs| && p(xs[k])
    ensures forall a :: 0 <= a < |r| ==> from <= r[a] < |xs| && p(xs[r[a]])
    ensures forall a, b :: 0 <= a < b < |r| ==> r[a] < r[b]
    decreases |xs| - from
  {
    if from == |xs| then []
    else
      var rest := MatchingIndices(xs, p, from + 1);
      if p(xs[from]) then [from] + rest else rest
  }

  /** `Single(p)`: the one element satisfying `p`; throws when there is none or more than one. */
  function SingleIndex<T>(xs: seq<T>, p: T -> bool): (r: Result<nat, Exception>)
    ensures r.Success? ==> r.value < |xs| && p(xs[r.value])
    ensures r.Success? ==> forall k :: 0 <= k < |xs| && k != r.value ==> !p(xs[k])
    ensures r == Failure(NoMatchingElement) <==> forall k :: 0 <= k < |xs| ==> !p(xs[k])
    ensures r == Failure(MoreThanOneMatchingElement) <==>
              exists j, k :: 0 <= j < k < |xs| && p(xs[j]) && p(xs[k])
    ensures r.Failure? ==> r.error == NoMatchingElement || r.error == MoreThanOneMatchingElement
  {
    var m := MatchingIndices(xs, p, 0);
    if |m| == 0 then Failure(NoMatchingElement)
    else if |m| == 1 then
      assert m[0] in m;
      Success(m[0])
    else
      assert m[0] in m && m[1] in m;
      Failure(MoreThanOneMatchingElement)
  }

  /** `SingleOrDefault(p)`: the one element satisfying `p`, or null when there is
      none; throws when there is more than one. */
  function SingleOrDefaultIndex<T>(xs: seq<T>, p: T -> bool): (r: Result<Option<nat>, Exception>)
    ensures r == Success(None) <==> forall k :: 0 <= k < |xs| ==> !p(xs[k])
    ensures r.Success? && r.value.Some? ==> r.value.value < |xs| && p(xs[r.value.value])
    ensures r.Success? && r.value.Some? ==>
              forall k :: 0 <= k < |xs| && k != r.value.value ==> !p(xs[k])
    ensures r.Failure? <==> exists j, k :: 0 <= j < k < |xs| && p(xs[j]) && p(xs[k])
    ensures r.Failure? ==> r.error == MoreThanOneMatchingElement
  {
    match SingleIndex(xs, p)
    case Success(i) => Success(Some(i))
    case Failure(NoMatchingElement) => Success(None)
    case Failure(e) => Failure(e)
  }

  /** `FirstOrDefault(p)`: the first element satisfying `p`, or null when there is none. */
  function FirstIndex<T>(xs: seq<T>, p: T -> bool): (r: Option<nat>)
    ensures r.None? <==> forall k :: 0 <= k < |xs| ==> !p(xs[k])
    ensures r.Some? ==> r.value < |xs| && p(xs[r.value])
    ensures r.Some? ==> forall k :: 0 <= k < r.value ==> !p(xs[k])
  {
    var m := MatchingIndices(xs, p, 0);
    if |m| == 0 then None
    else
      Some(m[0])
  }

  /** Appending an element that fails `p` leaves the matching positions as they were. */
  lemma {:induction false} AppendUnmatched<T>(xs: seq<T>, p: T -> bool, x: T, from: nat)
    requires !p(x) && from <= |xs|
    ensures MatchingIndices(xs + [x], p, from) == MatchingIndices(xs, p, from)
    decreases |xs| - from
  {
    var ys := xs + [x];
    if from == |xs| {
      assert MatchingIndices(ys, p, from + 1) == [];
    } else {
      assert ys[from] == xs[from];
      AppendUnmatched(xs, p, x, from + 1);
    }
  }

  /** Hence `Single` and `SingleOrDefault` answer the same with or without it. */
  lemma SingleIgnoresUnmatched<T>(xs: seq<T>, p: T -> bool, x: T)
    requires !p(x)
    ensures SingleIndex(xs + [x], p) == SingleIndex(xs, p)
    ensures SingleOrDefaultIndex(xs + [x], p) == SingleOrDefaultIndex(xs, p)
  {
    AppendUnmatched(xs, p, x, 0);
  }
}
