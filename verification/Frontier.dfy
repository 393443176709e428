/**
 The update frontier (include/valseg/frontier.hpp:46-290): how many canonical nodes an update visits, by the
 recursion that defines it, and by the closed form over the two boundary paths.
 */
module Frontier {
  import opened Canonical

  datatype FrontierCounts = FrontierCounts(partial: nat, decomposition: nat)

  /** Visited nodes that meet [l, r] without lying inside it. */
  function Partial(lo: nat, hi: nat, l: nat, r: nat): nat
    decreases Length(lo, hi)
  {
    if !Meets(lo, hi, l, r) || Covered(lo, hi, l, r) || hi <= lo then 0
    else 1 + Partial(lo, Midpoint(lo, hi), l, r) + Partial(Midpoint(lo, hi) + 1, hi, l, r)
  }

  /** Visited nodes that lie inside [l, r]: the canonical decomposition. */
  function Decomposition(lo: nat, hi: nat, l: nat, r: nat): nat
    decreases Length(lo, hi)
  {
    if !Meets(lo, hi, l, r) then 0
    else if Covered(lo, hi, l, r) || hi <= lo then 1
    else Decomposition(lo, Midpoint(lo, hi), l, r) + Decomposition(Midpoint(lo, hi) + 1, hi, l, r)
  }

  /** The visited frontier F of the update recursion on [l, r], below the node [lo, hi]. */
  function Visited(lo: nat, hi: nat, l: nat, r: nat): nat {
    Partial(lo, hi, l, r) + Decomposition(lo, hi, l, r)
  }

  lemma VisitedSplits(lo: nat, hi: nat, l: nat, r: nat)
    requires lo < hi && Meets(lo, hi, l, r) && !Covered(lo, hi, l, r)
    ensures Visited(lo, hi, l, r)
         == 1 + Visited(lo, Midpoint(lo, hi), l, r) + Visited(Midpoint(lo, hi) + 1, hi, l, r)
  {
  }

  lemma VisitedStops(lo: nat, hi: nat, l: nat, r: nat)
    ensures Meets(lo, hi, l, r) && Covered(lo, hi, l, r) ==> Visited(lo, hi, l, r) == 1
    ensures !Meets(lo, hi, l, r) ==> Visited(lo, hi, l, r) == 0
  {
  }

  /** `countFrontier`: the recursion, accumulating into counts it was handed. */
  method CountFrontier(lo: nat, hi: nat, l: nat, r: nat, counts: FrontierCounts) returns (c: FrontierCounts)
    requires lo <= hi && l <= r && Meets(lo, hi, l, r)
    ensures c.partial == counts.partial + Partial(lo, hi, l, r)
    ensures c.decomposition == counts.decomposition + Decomposition(lo, hi, l, r)
    decreases hi - lo
  {
    c := counts;
    if Covered(lo, hi, l, r) {
      return c.(decomposition := c.decomposition + 1);
    }
    c := c.(partial := c.partial + 1);
    var mid := Midpoint(lo, hi);
    if l <= mid {
      c := CountFrontier(lo, mid, l, r, c);
    }
    if r > mid {
      c := CountFrontier(mid + 1, hi, l, r, c);
    }
  }
}
