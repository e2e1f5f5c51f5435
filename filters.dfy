/** `Array.prototype.filter` over sequences: the reference definition the
    app's own filters are proved against. */
module Filters {
  /** `xs.filter(keep)`: the elements `keep` accepts, in their order. */
  function Filter<T(==,!new)>(xs: seq<T>, keep: T -> bool): (r: seq<T>)
    ensures |r| <= |xs|
    ensures forall x :: x in r <==> x in xs && keep(x)
    decreases |xs|
  {
    if xs == [] then [] else (if keep(xs[0]) then [xs[0]] else []) + Filter(xs[1..], keep)
  }

  /** The indices from `lo` on whose elements `keep` accepts, ascending. */
  function KeptFrom<T>(xs: seq<T>, keep: T -> bool, lo: nat): (ix: seq<nat>)
    ensures forall k | 0 <= k < |ix| :: lo <= ix[k] < |xs| && keep(xs[ix[k]])
    ensures forall k, l | 0 <= k < l < |ix| :: ix[k] < ix[l]
    ensures forall i | lo <= i < |xs| && keep(xs[i]) :: i in ix
    decreases |xs| - lo
  {
    if |xs| <= lo then []
    else (if keep(xs[lo]) then [lo] else []) + KeptFrom(xs, keep, lo + 1)
  }

  /** `filter` keeps order and multiplicity: its `k`-th result is the element
      at the `k`-th accepted index, and every accepted index appears. */
  lemma {:induction false} FilterKeepsOrder<T(!new)>(xs: seq<T>, keep: T -> bool, lo: nat)
    requires lo <= |xs|
    ensures var r := Filter(xs[lo..], keep);
      var ix := KeptFrom(xs, keep, lo);
      |r| == |ix| && forall k | 0 <= k < |r| :: r[k] == xs[ix[k]]
    decreases |xs| - lo
  {
    if lo < |xs| {
      FilterKeepsOrder(xs, keep, lo + 1);
      assert xs[lo..][1..] == xs[lo + 1..];
    }
  }
}
