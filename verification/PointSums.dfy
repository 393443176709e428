/**
 PointOnlyPersistentSegmentTree (src/point_only_persistent_segment_tree.cpp), the point-materialized tree at
 SumAddPolicy. It has no numeric guard and no tags, and so it accepts exactly what the plain array accepts.
 */
module PointSums {
  import opened Wrappers
  import opened Canonical
  import opened Checked
  import opened Policies
  import opened TagTrees
  import opened Histories
  import opened SumAdd
  import opened RangeSum
  import opened SumAddRuns
  import opened NumericDomain
  import opened PointTrees
  import opened Refinement

  /** Every record over a segment of xs holds the canonical sum of that segment, which is representable. */
  ghost predicate HoldsSums(t: Plain<int>, xs: seq<int>, lo: nat, hi: nat)
    decreases t
  {
    && lo <= hi < |xs| && (t.Leaf? <==> lo == hi)
    && CanonicalSum(xs, lo, hi) == Some(t.agg)
    && (t.Node? ==>
          HoldsSums(t.left, xs, lo, Midpoint(lo, hi)) && HoldsSums(t.right, xs, Midpoint(lo, hi) + 1, hi))
  }

  /** The elements of a segment alone decide what is held over it. */
  lemma {:induction false} HeldAgrees(t: Plain<int>, xs: seq<int>, ys: seq<int>, lo: nat, hi: nat)
    requires HoldsSums(t, xs, lo, hi) && |ys| == |xs| && forall i :: lo <= i <= hi ==> ys[i] == xs[i]
    ensures HoldsSums(t, ys, lo, hi)
    decreases t
  {
    hide CanonicalSum, Sum;
    CanonicalSumUnfolds(xs, lo, hi);
    CanonicalSumUnfolds(ys, lo, hi);
    if t.Node? {
      HeldAgrees(t.left, xs, ys, lo, Midpoint(lo, hi));
      HeldAgrees(t.right, xs, ys, Midpoint(lo, hi) + 1, hi);
    }
  }

  lemma {:induction false} GrowUnfolds(xs: seq<int>, lo: nat, hi: nat)
    requires lo <= hi < |xs|
    ensures lo == hi ==>
              && TryGrow(SumAddPolicy(), xs, lo, hi) == Some(Leaf(xs[lo], ()))
              && HoldsSums(Leaf(xs[lo], ()), xs, lo, hi)
    ensures lo < hi ==>
              var left := TryGrow(SumAddPolicy(), xs, lo, Midpoint(lo, hi));
              var right := TryGrow(SumAddPolicy(), xs, Midpoint(lo, hi) + 1, hi);
              && TryGrow(SumAddPolicy(), xs, lo, hi)
                 == (if left.Some? && right.Some? && Fits(left.value.agg + right.value.agg)
                     then Some(Node(left.value.agg + right.value.agg, (), left.value, right.value)) else None)
              && (left.Some? && right.Some? && CanonicalSum(xs, lo, hi) == Some(left.value.agg + right.value.agg)
                  && HoldsSums(left.value, xs, lo, Midpoint(lo, hi))
                  && HoldsSums(right.value, xs, Midpoint(lo, hi) + 1, hi) ==>
                    HoldsSums(Node(left.value.agg + right.value.agg, (), left.value, right.value), xs, lo, hi))
  {
    hide Sum;
  }

  /** `build` succeeds exactly when the canonical sums are representable, and holds them. */
  lemma {:induction false} GrownHoldsSums(xs: seq<int>, lo: nat, hi: nat)
    requires lo <= hi < |xs|
    ensures TryGrow(SumAddPolicy(), xs, lo, hi).Some? <==> CanonicalSum(xs, lo, hi).Some?
    ensures TryGrow(SumAddPolicy(), xs, lo, hi).Some? ==>
              HoldsSums(TryGrow(SumAddPolicy(), xs, lo, hi).value, xs, lo, hi)
    decreases hi - lo
  {
    hide CanonicalSum, Sum, SumAddPolicy, HoldsSums, TryGrow;
    CanonicalSumUnfolds(xs, lo, hi);
    GrowUnfolds(xs, lo, hi);
    if lo < hi {
      var mid := Midpoint(lo, hi);
      GrownHoldsSums(xs, lo, mid);
      GrownHoldsSums(xs, mid + 1, hi);
      if TryGrow(SumAddPolicy(), xs, lo, mid).Some? && TryGrow(SumAddPolicy(), xs, mid + 1, hi).Some? {
        HeldSum(TryGrow(SumAddPolicy(), xs, lo, mid).value, xs, lo, mid);
        HeldSum(TryGrow(SumAddPolicy(), xs, mid + 1, hi).value, xs, mid + 1, hi);
      }
    }
  }

  lemma {:induction false} HeldSum(t: Plain<int>, xs: seq<int>, lo: nat, hi: nat)
    requires HoldsSums(t, xs, lo, hi)
    ensures lo <= hi < |xs| && CanonicalSum(xs, lo, hi) == Some(t.agg)
  {
  }

  /** The selected elements of the segment stay representable. */
  predicate ElementsFit(xs: seq<int>, lo: nat, hi: nat, l: nat, r: nat, d: int) {
    forall i :: 0 <= i < |xs| && lo <= i <= hi && l <= i <= r ==> Fits(xs[i] + d)
  }

  /** An update succeeds exactly when the elements and the canonical sums of its result are representable. */
  lemma {:induction false} PointSucceeds(
      t: Plain<int>, xs: seq<int>, lo: nat, hi: nat, l: nat, r: nat, d: int)
    requires HoldsSums(t, xs, lo, hi)
    ensures var u, ys := TryPoint(SumAddPolicy(), t, lo, hi, l, r, d), AddRange(xs, l, r, d);
            && (Fits(d) ==> (u.Some? <==> ElementsFit(xs, lo, hi, l, r, d) && CanonicalSum(ys, lo, hi).Some?))
            && (u.Some? ==> HoldsSums(u.value, ys, lo, hi))
    decreases t
  {
    hide CanonicalSum, Sum, SumAddPolicy, TryPoint, ElementsFit;
    var ys := AddRange(xs, l, r, d);
    CanonicalSumUnfolds(xs, lo, hi);
    CanonicalSumUnfolds(ys, lo, hi);
    PointUnfolds(t, lo, hi, l, r, d);
    ElementsHere(xs, lo, hi, l, r, d);
    if !Meets(lo, hi, l, r) {
      HeldAgrees(t, xs, ys, lo, hi);
    } else if t.Node? {
      var mid := Midpoint(lo, hi);
      PointSucceeds(t.left, xs, lo, mid, l, r, d);
      PointSucceeds(t.right, xs, mid + 1, hi, l, r, d);
      ElementsSplit(xs, lo, mid, hi, l, r, d);
    }
  }

  lemma ElementsSplit(xs: seq<int>, lo: nat, mid: nat, hi: nat, l: nat, r: nat, d: int)
    requires lo <= mid < hi
    ensures ElementsFit(xs, lo, hi, l, r, d)
       <==> ElementsFit(xs, lo, mid, l, r, d) && ElementsFit(xs, mid + 1, hi, l, r, d)
  {
  }

  lemma ElementsHere(xs: seq<int>, lo: nat, hi: nat, l: nat, r: nat, d: int)
    requires lo <= hi < |xs|
    ensures !Meets(lo, hi, l, r) ==> ElementsFit(xs, lo, hi, l, r, d)
    ensures Meets(lo, hi, l, r) && lo == hi ==> (ElementsFit(xs, lo, hi, l, r, d) <==> Fits(xs[lo] + d))
  {
  }

  lemma {:induction false} PointUnfolds(t: Plain<int>, lo: nat, hi: nat, l: nat, r: nat, d: int)
    ensures var u := TryPoint(SumAddPolicy(), t, lo, hi, l, r, d);
            && (!Meets(lo, hi, l, r) ==> u == Some(t))
            && (Meets(lo, hi, l, r) && t.Leaf? ==> 
                  u == if Fits(d) && Fits(t.agg + d) then Some(Leaf(t.agg + d, ())) else None)
            && (Meets(lo, hi, l, r) && t.Node? ==>
                  var left := TryPoint(SumAddPolicy(), t.left, lo, Midpoint(lo, hi), l, r, d);
                  var right := TryPoint(SumAddPolicy(), t.right, Midpoint(lo, hi) + 1, hi, l, r, d);
                  u == if left.Some? && right.Some? && Fits(left.value.agg + right.value.agg)
                       then Some(Node(left.value.agg + right.value.agg, (), left.value, right.value)) else None)
  {
    ApplyIs(d, t.agg, 1);
  }

  /** Over every run the latest tree holds the canonical sums of the latest array. */
  lemma {:induction false} RunHoldsSums(xs: seq<int>, log: seq<Entry<int>>)
    requires xs != [] && RangesIn(|xs|, log) && TryPointRun(SumAddPolicy(), xs, log).Some?
    ensures HoldsSums(TryPointRun(SumAddPolicy(), xs, log).value, ArrayAfter(xs, log), 0, |xs| - 1)
  {
    hide HoldsSums, TryPoint, TryGrow, CanonicalSum, AddRange;
    ZeroIsIdentity();
    if log == [] {
      GrownHoldsSums(xs, 0, |xs| - 1);
    } else {
      var before, e := log[..|log| - 1], log[|log| - 1];
      RunHoldsSums(xs, before);
      OneMore(false, xs, before, e);
      assert log == before + [e];
      if e.action != 0 {
        PointSucceeds(TryPointRun(SumAddPolicy(), xs, before).value, ArrayAfter(xs, before), 0, |xs| - 1,
                      e.left, e.right, e.action);
      }
    }
  }

  /** The latest update is refused exactly when the proposed array is not representable. */
  lemma {:induction false} RefusedIsUnrepresentable(xs: seq<int>, log: seq<Entry<int>>, l: nat, r: nat, value: int)
    requires xs != [] && RangesIn(|xs|, log) && TryPointRun(SumAddPolicy(), xs, log).Some?
    requires ValidRange(|xs|, l, r) && Fits(value) && forall i :: 0 <= i < |xs| ==> Fits(ArrayAfter(xs, log)[i])
    ensures Refused(SumAddPolicy(), xs, log, l, r, value) <==> !ProposalFits(ArrayAfter(xs, log), l, r, value)
  {
    hide HoldsSums, TryPoint, TryPointRun, CanonicalSum, Sum, Refused, SumAddPolicy;
    var current, t := ArrayAfter(xs, log), TryPointRun(SumAddPolicy(), xs, log).value;
    ZeroIsIdentity();
    RunHoldsSums(xs, log);
    RefusedBy(SumAddPolicy(), xs, log, l, r, value);
    if value == 0 {
      HeldSum(t, current, 0, |xs| - 1);
      assert AddRange(current, l, r, 0) == current;
    } else {
      PointSucceeds(t, current, 0, |xs| - 1, l, r, value);
    }
  }

  /**
   A query of a tree that holds canonical sums is answered exactly when, at every canonical node that the range covers
   in part, the sum over what they share is representable; the answer is the sum over the range.
   */
  lemma {:induction false} TotalDecides(t: Plain<int>, xs: seq<int>, lo: nat, hi: nat, l: nat, r: nat)
    requires HoldsSums(t, xs, lo, hi) && l <= r
    ensures var answer := TryTotal(SumAddPolicy(), t, lo, hi, l, r);
            && (answer.Some? <==> OverlapsFit(xs, lo, hi, l, r))
            && (answer.Some? ==> answer.value == SharedSum(xs, lo, hi, l, r))
    decreases t
  {
    hide CanonicalSum, Sum, SharedSum, OverlapsFit, SumAddPolicy, TryTotal;
    HeldSum(t, xs, lo, hi);
    TotalUnfolds(t, lo, hi, l, r);
    SharedCases(xs, lo, hi, l, r);
    if lo == hi || !Meets(lo, hi, l, r) || Covered(lo, hi, l, r) {
      OverlapsOutside(xs, lo, hi, l, r);
    } else {
      TotalDecides(t.left, xs, lo, Midpoint(lo, hi), l, r);
      TotalDecides(t.right, xs, Midpoint(lo, hi) + 1, hi, l, r);
      OverlapsSplit(xs, lo, hi, l, r);
      SharedSplits(xs, lo, hi, l, r);
    }
  }

  lemma {:induction false} TotalUnfolds(t: Plain<int>, lo: nat, hi: nat, l: nat, r: nat)
    ensures var answer := TryTotal(SumAddPolicy(), t, lo, hi, l, r);
            && (!Meets(lo, hi, l, r) ==> answer == Some(0))
            && (Meets(lo, hi, l, r) && (t.Leaf? || Covered(lo, hi, l, r)) ==> answer == Some(t.agg))
            && (Meets(lo, hi, l, r) && t.Node? && !Covered(lo, hi, l, r) ==>
                  var a := TryTotal(SumAddPolicy(), t.left, lo, Midpoint(lo, hi), l, r);
                  var b := TryTotal(SumAddPolicy(), t.right, Midpoint(lo, hi) + 1, hi, l, r);
                  answer == if a.Some? && b.Some? && Fits(a.value + b.value) then Some(a.value + b.value) else None)
  {
  }

  /** Any version of the tree answers a valid range exactly when the overlap sums fit. */
  lemma {:induction false} AnsweredWhenFits(xs: seq<int>, log: seq<Entry<int>>, l: nat, r: nat)
    requires RangesIn(|xs|, log) && ValidRange(|xs|, l, r) && TryPointRun(SumAddPolicy(), xs, log).Some?
    ensures TryTotal(SumAddPolicy(), TryPointRun(SumAddPolicy(), xs, log).value, 0, |xs| - 1, l, r).Some?
       <==> OverlapsFit(ArrayAfter(xs, log), 0, |xs| - 1, l, r)
  {
    hide HoldsSums, TryPointRun, TryTotal, OverlapsFit;
    RunHoldsSums(xs, log);
    TotalDecides(TryPointRun(SumAddPolicy(), xs, log).value, ArrayAfter(xs, log), 0, |xs| - 1, l, r);
  }

  /** Within the numeric envelope every overlap sum fits. */
  lemma {:induction false} OverlapsWithin(xs: seq<int>, bound: nat, l: nat, r: nat)
    requires xs != [] && Dominates(bound, xs) && ProvesRepresentability(bound, |xs|)
    ensures OverlapsFit(xs, 0, |xs| - 1, l, r)
  {
    hide Dominates, ProvesRepresentability;
    forall a: nat, b: nat | IsSegment(0, |xs| - 1, a, b) ensures Fits(SharedSum(xs, a, b, l, r)) {
      SegmentInside(0, |xs| - 1, a, b);
      SharedWithin(xs, bound, a, b, l, r);
    }
  }

  lemma {:induction false} SharedWithin(xs: seq<int>, bound: nat, a: nat, b: nat, l: nat, r: nat)
    requires Dominates(bound, xs) && ProvesRepresentability(bound, |xs|)
    ensures Fits(SharedSum(xs, a, b, l, r))
  {
    var from, to := if a < l then l else a, if b < r then b else r;
    if from <= to < |xs| {
      var shared := xs[from..to + 1];
      assert Dominates(bound, shared);
      hide Dominates, ProvesRepresentability, Sum;
      SumWithin(shared, bound);
      EnvelopeProduct(bound, |shared|, |xs|);
    }
  }

  // ---------------------------------------------------------------- in lockstep with the plain array

  /** Both hold the same array for every version. */
  ghost predicate PointSimulates(tree: PointMaterializedPersistentTree<int, int>, plain: BruteForceArray)
    reads tree, plain
  {
    && tree.Valid() && tree.policy == SumAddPolicy() && plain.Valid()
    && tree.arraySize > 0
    && SameVersions(tree.initial, tree.log, plain.versions)
  }

  /** `initialize` of both: when memory suffices they accept the same arrays, and they start in lockstep. */
  method InitializeBoth(tree: PointMaterializedPersistentTree<int, int>, plain: BruteForceArray, values: seq<int>,
                        mayExhaust: bool)
    returns (published: bool, plainly: bool)
    requires tree.Valid() && tree.policy == SumAddPolicy() && plain.Valid()
    requires forall i :: 0 <= i < |values| ==> Fits(values[i])
    modifies tree, plain
    ensures published || !mayExhaust ==> published == plainly
    ensures published && values != [] ==> PointSimulates(tree, plain)
  {
    hide PointTrees.Coherent, CanonicalSum, TryGrow, SumAddPolicy;
    if values != [] {
      GrownHoldsSums(values, 0, |values| - 1);
    }
    published := tree.Initialize(values, mayExhaust);
    plainly := plain.Initialize(values, false);
  }

  /** One update of both, the plain one at its latest version: when memory suffices, one publishes if the other does. */
  method PointAddBoth(tree: PointMaterializedPersistentTree<int, int>, plain: BruteForceArray, l: nat, r: nat,
                      value: int, mayExhaust: bool)
    returns (published: Option<nat>, plainly: Option<nat>)
    requires PointSimulates(tree, plain) && Fits(value)
    modifies tree, plain
    ensures PointSimulates(tree, plain)
    ensures published.Some? || !mayExhaust ==> published == plainly
    ensures published.None? && mayExhaust ==> plain.versions == old(plain.versions)
  {
    hide SameVersions, ArrayAfter, AddRange, ProposalFits, PointTrees.Coherent, Refused, TryPointRun, SumAddPolicy;
    LatestOfBoth(tree, plain);
    ghost var xs, log := tree.initial, tree.log;
    SameNext(xs, log, plain.versions, Entry(l, r, value));
    if ValidRange(tree.arraySize, l, r) {
      RefusedIsUnrepresentable(xs, log, l, r, value);
    }
    plainly := None;
    published := tree.RangeApply(l, r, value, mayExhaust);
    if published.Some? || !mayExhaust {
      plainly := plain.RangeAdd(|plain.versions| - 1, l, r, value, false);
    }
  }

  lemma LatestOfBoth(tree: PointMaterializedPersistentTree<int, int>, plain: BruteForceArray)
    requires PointSimulates(tree, plain)
    ensures tree.initial != [] && tree.arraySize == |tree.initial| && tree.roots != []
    ensures RangesIn(|tree.initial|, tree.log) && TryPointRun(SumAddPolicy(), tree.initial, tree.log).Some?
    ensures |plain.versions| == |tree.log| + 1 == |tree.roots|
    ensures plain.versions[|tree.log|] == ArrayAfter(tree.initial, tree.log)
    ensures |ArrayAfter(tree.initial, tree.log)| == |tree.initial|
    ensures forall i :: 0 <= i < |tree.initial| ==> Fits(ArrayAfter(tree.initial, tree.log)[i])
  {
    hide TryPointRun, SumAddPolicy, PointTrees.Coherent;
    SameLatest(tree.initial, tree.log, plain.versions);
    PointTrees.CoherentStart(SumAddPolicy(), tree.initial, tree.log, tree.nodes, tree.roots);
    PointTrees.Lengths(SumAddPolicy(), tree.initial, tree.log, tree.nodes, tree.roots);
  }

  /**
   One query of both: the tree answers a valid range exactly when every overlap sum fits, always within the numeric
   envelope, and its answer is the exact sum over the plain array's version.
   */
  method PointSumBoth(
      tree: PointMaterializedPersistentTree<int, int>, plain: BruteForceArray, version: nat, l: nat, r: nat)
    returns (answer: Option<int>, plainly: Option<int>)
    requires PointSimulates(tree, plain)
    ensures answer.Some? && plainly.Some? ==> answer == plainly
    ensures answer.Some? ==>
              && version < |plain.versions| && ValidRange(|plain.versions[version]|, l, r)
              && answer.value == Sum(plain.versions[version][l..r + 1])
    ensures version < |plain.versions| && ValidRange(|plain.versions[version]|, l, r) ==>
              var xs := plain.versions[version];
              && (answer.Some? <==> OverlapsFit(xs, 0, |xs| - 1, l, r))
              && forall bound: nat :: Dominates(bound, xs) && ProvesRepresentability(bound, |xs|) ==> answer.Some?
  {
    hide PointTrees.Coherent, SumAddPolicy, Lawful, InducedActionsCommute, TryPointRun, TryTotal, Sum, Fold,
         OverlapsFit, Dominates, ProvesRepresentability, NeverFails;
    LatestOfBoth(tree, plain);
    SumAddLawful();
    EverythingValid(tree.initial, tree.log);
    answer := tree.RangeAggregate(version, l, r);
    plainly := plain.RangeSum(version, l, r);
    if version < |plain.versions| && ValidRange(tree.arraySize, l, r) {
      var xs := ArrayAfter(tree.initial, tree.log[..version]);
      OracleIsArrayAfter(tree.initial, tree.log[..version]);
      FoldIsSum(xs[l..r + 1]);
      AnsweredWhenFits(tree.initial, tree.log[..version], l, r);
      forall bound: nat | Dominates(bound, xs) && ProvesRepresentability(bound, |xs|) ensures answer.Some? {
        OverlapsWithin(xs, bound, l, r);
      }
    }
  }

  lemma EverythingValid(xs: seq<int>, log: seq<Entry<int>>)
    requires RangesIn(|xs|, log)
    ensures AllValid(SumAddPolicy(), xs) && ValidHistory(SumAddPolicy(), |xs|, log)
  {
  }
}
