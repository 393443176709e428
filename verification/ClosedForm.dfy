/**
 The closed form of the update frontier (include/valseg/frontier.hpp:90-290): both counts from walks along the two
 boundary paths, and the number of nodes that meet a range.
 */
module ClosedForm {
  import opened Wrappers
  import opened Canonical
  import opened Frontier

  // ---------------------------------------------------------------- the walks

  predicate Contains(lo: nat, hi: nat, index: nat) {
    lo <= index <= hi
  }

  /** Canonical nodes of the subtree of [lo, hi] that contain both indices. */
  function Containing(lo: nat, hi: nat, first: nat, second: nat): nat
    decreases Length(lo, hi)
  {
    if !Contains(lo, hi, first) || !Contains(lo, hi, second) then 0
    else if hi <= lo then 1
    else 1 + Containing(lo, Midpoint(lo, hi), first, second) + Containing(Midpoint(lo, hi) + 1, hi, first, second)
  }

  /** One step of the walk: the child with both indices, unless they part here. */
  lemma ContainingStep(lo: nat, hi: nat, first: nat, second: nat)
    requires lo <= hi && Contains(lo, hi, first) && Contains(lo, hi, second)
    ensures var mid := Midpoint(lo, hi);
            Containing(lo, hi, first, second)
            == if lo == hi || (first <= mid) != (second <= mid) then 1
               else 1 + if first <= mid then Containing(lo, mid, first, second)
                        else Containing(mid + 1, hi, first, second)
  {
  }

  /** `nodesContainingBoth` */
  method NodesContainingBoth(n: nat, first: nat, second: nat) returns (count: nat)
    requires first < n && second < n
    ensures count == Containing(0, n - 1, first, second)
  {
    hide Containing;
    var lo: nat, hi: nat := 0, n - 1;
    ContainingStep(0, n - 1, first, second);
    count := 1;
    while lo != hi
      invariant lo <= hi && Contains(lo, hi, first) && Contains(lo, hi, second) && count > 0
      invariant Containing(0, n - 1, first, second) == count - 1 + Containing(lo, hi, first, second)
      decreases hi - lo
    {
      ContainingStep(lo, hi, first, second);
      var mid := Midpoint(lo, hi);
      if first <= mid && second <= mid {
        hi := mid;
      } else if first > mid && second > mid {
        lo := mid + 1;
      } else {
        break;
      }
      count := count + 1;
    }
    ContainingStep(lo, hi, first, second);
  }

  /** Does the node [lo, hi] reach beyond the other end of the range? */
  predicate ReachesOther(lo: nat, hi: nat, otherExists: bool, other: nat) {
    otherExists && Contains(lo, hi, other)
  }

  /** What the node [lo, hi] on a boundary path contributes to the decomposition: one covered child, or none. */
  function Hanging(lo: nat, hi: nat, outer: nat, inner: nat, otherExists: bool, other: nat): nat {
    var mid := Midpoint(lo, hi);
    if ReachesOther(lo, hi, otherExists, other) then 0
    else if (inner <= mid) != (outer <= mid) then 1
    else if (inner <= mid) != (inner < outer) then 1
    else 0
  }

  /** The decomposition nodes hanging off the boundary path of the subtree of [lo, hi]. */
  function AlongBoundary(lo: nat, hi: nat, outer: nat, inner: nat, otherExists: bool, other: nat): nat
    decreases Length(lo, hi)
  {
    if hi <= lo || !Contains(lo, hi, outer) || !Contains(lo, hi, inner) then 0
    else
      Hanging(lo, hi, outer, inner, otherExists, other)
      + AlongBoundary(lo, Midpoint(lo, hi), outer, inner, otherExists, other)
      + AlongBoundary(Midpoint(lo, hi) + 1, hi, outer, inner, otherExists, other)
  }

  /** One step of the walk: only the child with the inner index has more to count, unless the path ends here. */
  lemma AlongStep(lo: nat, hi: nat, outer: nat, inner: nat, otherExists: bool, other: nat)
    requires lo < hi && Contains(lo, hi, outer) && Contains(lo, hi, inner)
    ensures var mid := Midpoint(lo, hi);
            AlongBoundary(lo, hi, outer, inner, otherExists, other)
            == Hanging(lo, hi, outer, inner, otherExists, other)
               + if (inner <= mid) != (outer <= mid) then 0
                 else if inner <= mid then AlongBoundary(lo, mid, outer, inner, otherExists, other)
                 else AlongBoundary(mid + 1, hi, outer, inner, otherExists, other)
  {
  }

  /** `decompositionAlongBoundary` */
  method DecompositionAlongBoundary(n: nat, outer: nat, inner: nat, otherExists: bool, other: nat)
    returns (total: nat)
    requires outer < n && inner < n && outer != inner
    ensures total == AlongBoundary(0, n - 1, outer, inner, otherExists, other)
  {
    hide AlongBoundary;
    var lo: nat, hi: nat := 0, n - 1;
    var count := 0;
    while true
      invariant lo < hi && Contains(lo, hi, outer) && Contains(lo, hi, inner)
      invariant AlongBoundary(0, n - 1, outer, inner, otherExists, other)
             == count + AlongBoundary(lo, hi, outer, inner, otherExists, other)
      decreases hi - lo
    {
      AlongStep(lo, hi, outer, inner, otherExists, other);
      var mid := Midpoint(lo, hi);
      var containsOther := otherExists && lo <= other <= hi;
      var innerOnLeft, outerOnLeft := inner <= mid, outer <= mid;
      if innerOnLeft != outerOnLeft {
        return count + if containsOther then 0 else 1;
      }
      if !containsOther {
        var rangeIsLeftOfBoundary := inner < outer;
        if (rangeIsLeftOfBoundary && !innerOnLeft) || (!rangeIsLeftOfBoundary && innerOnLeft) {
          count := count + 1;
        }
      }
      if innerOnLeft {
        hi := mid;
      } else {
        lo := mid + 1;
      }
    }
  }

  // ---------------------------------------------------------------- the closed form

  /** Nodes on the left boundary path P_L: those that contain both l - 1 and l. */
  function LeftPath(lo: nat, hi: nat, l: nat): nat {
    if l == 0 then 0 else Containing(lo, hi, l - 1, l)
  }

  /** Nodes on both boundary paths. */
  function SharedPath(lo: nat, hi: nat, l: nat, r: nat): nat {
    if l == 0 then 0 else Containing(lo, hi, l - 1, r + 1)
  }

  function LeftHanging(lo: nat, hi: nat, l: nat, r: nat, rightBoundary: bool): nat {
    if l == 0 then 0 else AlongBoundary(lo, hi, l - 1, l, rightBoundary, r + 1)
  }

  function RightHanging(lo: nat, hi: nat, l: nat, r: nat): nat {
    AlongBoundary(lo, hi, r + 1, r, l > 0, if l > 0 then l - 1 else 0)
  }

  /** No subtree of a node outside the range, or inside it, has a node on a boundary path. */
  lemma NoPath(lo: nat, hi: nat, l: nat, r: nat, rightBoundary: bool)
    requires lo <= hi && l <= r && (!Meets(lo, hi, l, r) || Covered(lo, hi, l, r))
    ensures LeftPath(lo, hi, l) == 0 && Containing(lo, hi, r, r + 1) == 0 && SharedPath(lo, hi, l, r) == 0
    ensures LeftHanging(lo, hi, l, r, rightBoundary) == 0 && RightHanging(lo, hi, l, r) == 0
  {
  }

  /** The partial nodes are those on either boundary path: |P_L u P_R|, by inclusion and exclusion. */
  lemma {:induction false} PartialIsUnion(lo: nat, hi: nat, l: nat, r: nat)
    requires lo <= hi && l <= r
    ensures Partial(lo, hi, l, r) + SharedPath(lo, hi, l, r)
         == LeftPath(lo, hi, l) + Containing(lo, hi, r, r + 1)
    decreases hi - lo
  {
    if !Meets(lo, hi, l, r) || Covered(lo, hi, l, r) {
      NoPath(lo, hi, l, r, true);
    } else {
      var mid := Midpoint(lo, hi);
      PartialIsUnion(lo, mid, l, r);
      PartialIsUnion(mid + 1, hi, l, r);
      PathSplits(lo, hi, l, r);
    }
  }

  lemma PathSplits(lo: nat, hi: nat, l: nat, r: nat)
    requires lo < hi && l <= r
    ensures LeftPath(lo, hi, l) == (if lo < l <= hi then 1 else 0)
                                   + LeftPath(lo, Midpoint(lo, hi), l) + LeftPath(Midpoint(lo, hi) + 1, hi, l)
    ensures Containing(lo, hi, r, r + 1)
         == (if lo <= r < hi then 1 else 0)
            + Containing(lo, Midpoint(lo, hi), r, r + 1) + Containing(Midpoint(lo, hi) + 1, hi, r, r + 1)
    ensures SharedPath(lo, hi, l, r)
         == (if lo < l && r < hi then 1 else 0)
            + SharedPath(lo, Midpoint(lo, hi), l, r) + SharedPath(Midpoint(lo, hi) + 1, hi, l, r)
  {
  }

  /** The covered nodes below a partial one are the children hanging off the boundary paths. */
  lemma {:induction false} DecompositionHangs(lo: nat, hi: nat, l: nat, r: nat, n: nat)
    requires lo <= hi < n && l <= r && Meets(lo, hi, l, r) && !Covered(lo, hi, l, r)
    ensures Decomposition(lo, hi, l, r) == LeftHanging(lo, hi, l, r, r + 1 < n) + RightHanging(lo, hi, l, r)
    decreases hi - lo, 0
  {
    var mid := Midpoint(lo, hi);
    HangingBelow(lo, mid, l, r, n);
    HangingBelow(mid + 1, hi, l, r, n);
    HangingSplits(lo, hi, l, r, n);
  }

  /** A covered node counts one itself; otherwise the count below a node is what hangs off the paths. */
  lemma {:induction false} HangingBelow(lo: nat, hi: nat, l: nat, r: nat, n: nat)
    requires lo <= hi < n && l <= r
    ensures Decomposition(lo, hi, l, r)
         == LeftHanging(lo, hi, l, r, r + 1 < n) + RightHanging(lo, hi, l, r)
            + if Covered(lo, hi, l, r) then 1 else 0
    decreases hi - lo, 1
  {
    if !Meets(lo, hi, l, r) || Covered(lo, hi, l, r) {
      NoPath(lo, hi, l, r, r + 1 < n);
    } else {
      DecompositionHangs(lo, hi, l, r, n);
    }
  }

  /** A partial node contributes to the two walks exactly its covered children. */
  lemma HangingSplits(lo: nat, hi: nat, l: nat, r: nat, n: nat)
    requires lo < hi < n && l <= r && Meets(lo, hi, l, r) && !Covered(lo, hi, l, r)
    ensures var mid := Midpoint(lo, hi);
            LeftHanging(lo, hi, l, r, r + 1 < n) + RightHanging(lo, hi, l, r)
            == (if Covered(lo, mid, l, r) then 1 else 0) + (if Covered(mid + 1, hi, l, r) then 1 else 0)
               + LeftHanging(lo, mid, l, r, r + 1 < n) + LeftHanging(mid + 1, hi, l, r, r + 1 < n)
               + RightHanging(lo, mid, l, r) + RightHanging(mid + 1, hi, l, r)
  {
  }

  /** Nothing contains an index beyond the array. */
  lemma NoRightBoundary(n: nat, l: nat, r: nat)
    requires ValidRange(n, l, r) && r + 1 == n
    ensures Containing(0, n - 1, r, r + 1) == 0 && SharedPath(0, n - 1, l, r) == 0 && RightHanging(0, n - 1, l, r) == 0
  {
  }

  /** Proposition 10.2 of docs/proof.md, with each boundary present or not; the subtraction never underflows. */
  lemma ExactFrontier(n: nat, l: nat, r: nat)
    requires ValidRange(n, l, r)
    ensures l == 0 && r + 1 == n ==> Visited(0, n - 1, l, r) == 1
    ensures l > 0 || r + 1 < n ==>
              Visited(0, n - 1, l, r) + SharedPath(0, n - 1, l, r)
              == LeftPath(0, n - 1, l) + Containing(0, n - 1, r, r + 1)
                 + LeftHanging(0, n - 1, l, r, r + 1 < n) + RightHanging(0, n - 1, l, r)
    ensures SharedPath(0, n - 1, l, r) <= LeftPath(0, n - 1, l) + Containing(0, n - 1, r, r + 1)
  {
    hide Partial, Decomposition, Containing, AlongBoundary;
    PartialIsUnion(0, n - 1, l, r);
    HangingBelow(0, n - 1, l, r, n);
    PathsAre(n, l, r);
  }

  lemma PathsAre(n: nat, l: nat, r: nat)
    requires ValidRange(n, l, r)
    ensures l > 0 ==>
              && LeftPath(0, n - 1, l) == Containing(0, n - 1, l - 1, l)
              && SharedPath(0, n - 1, l, r) == Containing(0, n - 1, l - 1, r + 1)
              && LeftHanging(0, n - 1, l, r, r + 1 < n) == AlongBoundary(0, n - 1, l - 1, l, r + 1 < n, r + 1)
    ensures l == 0 ==>
              && LeftPath(0, n - 1, l) == 0 && SharedPath(0, n - 1, l, r) == 0
              && LeftHanging(0, n - 1, l, r, r + 1 < n) == 0
    ensures r + 1 == n ==>
              && Containing(0, n - 1, r, r + 1) == 0
              && SharedPath(0, n - 1, l, r) == 0 && RightHanging(0, n - 1, l, r) == 0
    ensures RightHanging(0, n - 1, l, r)
         == AlongBoundary(0, n - 1, r + 1, r, l > 0, if l > 0 then l - 1 else 0)
  {
    if r + 1 == n {
      NoRightBoundary(n, l, r);
    }
    hide Containing, AlongBoundary;
  }

  /** What the walks along the boundaries that exist count: the nodes on either path, and what hangs off them. */
  method WalkBoundaries(n: nat, l: nat, r: nat, leftBoundary: bool, rightBoundary: bool)
    returns (partial: nat, decomposition: nat)
    requires ValidRange(n, l, r) && leftBoundary == (l > 0) && rightBoundary == (r + 1 < n)
    ensures partial == LeftPath(0, n - 1, l) + Containing(0, n - 1, r, r + 1)
    ensures decomposition == LeftHanging(0, n - 1, l, r, rightBoundary) + RightHanging(0, n - 1, l, r)
  {
    hide Containing, AlongBoundary, LeftPath, SharedPath, LeftHanging, RightHanging;
    PathsAre(n, l, r);
    partial, decomposition := 0, 0;
    if leftBoundary {
      var path := NodesContainingBoth(n, l - 1, l);
      partial := partial + path;
      var hanging := DecompositionAlongBoundary(n, l - 1, l, rightBoundary, r + 1);
      decomposition := decomposition + hanging;
    }
    if rightBoundary {
      var path := NodesContainingBoth(n, r, r + 1);
      partial := partial + path;
      var hanging := DecompositionAlongBoundary(n, r + 1, r, leftBoundary, if leftBoundary then l - 1 else 0);
      decomposition := decomposition + hanging;
    }
  }

  /** `closedFormFrontier`: equal to the recursion for every array size and every valid range. */
  method ClosedFormFrontier(n: nat, l: nat, r: nat) returns (visited: Option<nat>)
    ensures visited.Some? <==> ValidRange(n, l, r)
    ensures visited.Some? ==> visited.value == Visited(0, n - 1, l, r)
  {
    if !ValidRange(n, l, r) {
      return None;
    }
    hide Visited, Containing, AlongBoundary, LeftPath, SharedPath, LeftHanging, RightHanging;
    ExactFrontier(n, l, r);
    PathsAre(n, l, r);
    var leftBoundary, rightBoundary := l > 0, r + 1 < n;
    if !leftBoundary && !rightBoundary {
      return Some(1);
    }
    var partial, decomposition := WalkBoundaries(n, l, r, leftBoundary, rightBoundary);
    if leftBoundary && rightBoundary {
      var shared := NodesContainingBoth(n, l - 1, r + 1);
      partial := partial - shared;
    }
    return Some(partial + decomposition);
  }

  // ---------------------------------------------------------------- intersecting nodes

  /** Nodes of the subtree of [lo, hi] that meet the range: the records of a tagless path-copying update. */
  function Intersecting(lo: nat, hi: nat, l: nat, r: nat): nat
    decreases Length(lo, hi)
  {
    if !Meets(lo, hi, l, r) then 0
    else if hi <= lo then 1
    else 1 + Intersecting(lo, Midpoint(lo, hi), l, r) + Intersecting(Midpoint(lo, hi) + 1, hi, l, r)
  }

  lemma {:induction false} CoveredIntersecting(lo: nat, hi: nat, l: nat, r: nat)
    requires lo <= hi && Covered(lo, hi, l, r)
    ensures Intersecting(lo, hi, l, r) == 2 * Length(lo, hi) - 1
    decreases hi - lo
  {
    if lo < hi {
      CoveredIntersecting(lo, Midpoint(lo, hi), l, r);
      CoveredIntersecting(Midpoint(lo, hi) + 1, hi, l, r);
    }
  }

  /** Every decomposition node of m elements roots 2m - 1 intersecting nodes. */
  lemma {:induction false} IntersectingIsPartialPlus(lo: nat, hi: nat, l: nat, r: nat)
    requires lo <= hi && l <= r
    ensures Intersecting(lo, hi, l, r) + Decomposition(lo, hi, l, r)
         == Partial(lo, hi, l, r) + 2 * Overlap(lo, hi, l, r)
    ensures Decomposition(lo, hi, l, r) <= Overlap(lo, hi, l, r)
    decreases hi - lo
  {
    if Covered(lo, hi, l, r) {
      CoveredIntersecting(lo, hi, l, r);
    } else if Meets(lo, hi, l, r) {
      var mid := Midpoint(lo, hi);
      IntersectingIsPartialPlus(lo, mid, l, r);
      IntersectingIsPartialPlus(mid + 1, hi, l, r);
      OverlapSplits(lo, hi, l, r);
      hide Overlap;
    }
  }

  /** `intersectingNodes`, evaluated as partial + (k + (k - decomposition)). */
  method IntersectingNodes(n: nat, l: nat, r: nat) returns (count: Option<nat>)
    ensures count.Some? <==> ValidRange(n, l, r)
    ensures count.Some? ==> count.value == Intersecting(0, n - 1, l, r)
  {
    if !ValidRange(n, l, r) {
      return None;
    }
    var counts := CountFrontier(0, n - 1, l, r, FrontierCounts(0, 0));
    IntersectingIsPartialPlus(0, n - 1, l, r);
    var leaves := Length(l, r);
    return Some(counts.partial + (leaves + (leaves - counts.decomposition)));
  }
}
