/**
 The path-copying trees against the plain arrays, in lockstep (the comparison of tests/differential_validation_test.cpp,
 here for every run): whatever a tree publishes, BruteForceArray publishes too, with the same arrays.
 */
module Refinement {
  import opened Wrappers
  import opened Canonical
  import opened Checked
  import opened TagTrees
  import opened Histories
  import opened RangeSum
  import opened CheckedUpdates
  import opened Reads
  import opened SumAdd
  import opened SumAddRuns
  import opened NumericDomain
  import opened Acceptance
  import opened GuardedTrees
  import PolicyTrees

  /** Both hold the same array for every version. */
  ghost predicate Simulates(tree: SumAddSegmentTree, plain: BruteForceArray)
    reads tree, tree.tree, plain
  {
    && tree.Valid() && plain.Valid()
    && tree.tree.arraySize > 0
    && SameVersions(tree.tree.initial, tree.tree.log, plain.versions)
  }

  ghost predicate SameVersions(xs: seq<int>, log: seq<Entry<int>>, versions: seq<seq<int>>) {
    && |versions| == |log| + 1
    && forall v :: 0 <= v < |versions| ==> versions[v] == ArrayAfter(xs, log[..v])
  }

  lemma {:induction false} SameLatest(xs: seq<int>, log: seq<Entry<int>>, versions: seq<seq<int>>)
    requires SameVersions(xs, log, versions)
    ensures |versions| == |log| + 1 && versions[|log|] == ArrayAfter(xs, log)
  {
    assert log[..|log|] == log;
  }

  lemma {:induction false} SameNext(xs: seq<int>, log: seq<Entry<int>>, versions: seq<seq<int>>, e: Entry<int>)
    requires SameVersions(xs, log, versions) && xs != []
    ensures SameVersions(xs, log + [e], versions + [AddRange(ArrayAfter(xs, log), e.left, e.right, e.action)])
  {
    hide ArrayAfter, AddRange;
    var log', next := log + [e], AddRange(ArrayAfter(xs, log), e.left, e.right, e.action);
    OneMore(false, xs, log, e);
    forall v | 0 <= v < |versions| + 1 ensures (versions + [next])[v] == ArrayAfter(xs, log'[..v]) {
      if v < |versions| {
        assert log'[..v] == log[..v];
      } else {
        assert log'[..v] == log';
      }
    }
  }

  /**
   What the plain array accepts, the tree accepts exactly when its guard needs no traversal, or the traversal's tags add
   up within the representation, and every node on the way of the update has room for its operations.
   */
  lemma {:induction false} AcceptedBesides(
      push: bool, xs: seq<int>, log: seq<Entry<int>>, bound: nat, l: nat, r: nat, value: int)
    requires xs != [] && ProposalFits(ArrayAfter(xs, log), l, r, value)
    ensures var t := Run(SumAddPolicy(), push, xs, log);
            Accepted(push, xs, log, bound, l, r, value)
            <==> || value == 0
                 || (&& (ProvesRepresentability(bound + Magnitude(value), |xs|) || LeavesFit(t, 0))
                     && OperationsFit(push, t, 0, |xs| - 1, l, r, value))
  {
    hide Run, ProposalFits, LeavesFit, OperationsFit, ProvesRepresentability, ArrayAfter;
  }

  /**
   One update of both, the plain one at its latest version: if the tree publishes, so do the arrays, the same version of
   the same array; the tree never accepts what the specification refuses.  When memory suffices it publishes exactly the
   accepted deltas.
   */
  method RangeAddBoth(tree: SumAddSegmentTree, plain: BruteForceArray, l: nat, r: nat, value: int, mayExhaust: bool)
    returns (published: Option<nat>, plainly: Option<nat>)
    requires Simulates(tree, plain) && Fits(value) && plain.versions != []
    modifies tree, tree.tree, plain
    ensures Simulates(tree, plain)
    ensures published.Some? ==> plainly == published
    ensures published.None? ==> plain.versions == old(plain.versions)
    ensures published.Some? ==>
              && ValidRange(tree.tree.arraySize, l, r)
              && Accepted(tree.tree.push, tree.tree.initial, old(tree.tree.log), old(tree.magnitudeBound), l, r, value)
    ensures published.None? && !mayExhaust ==>
              || !ValidRange(tree.tree.arraySize, l, r)
              || !Accepted(tree.tree.push, tree.tree.initial, tree.tree.log, tree.magnitudeBound, l, r, value)
  {
    hide SameVersions, ArrayAfter, AddRange, ProposalFits, Guarded, PolicyTrees.Coherent, Accepted, Committed;
    tree.tree.Facts();
    SameLatest(tree.tree.initial, tree.tree.log, plain.versions);
    SameNext(tree.tree.initial, tree.tree.log, plain.versions, Entry(l, r, value));
    plainly := None;
    published := tree.RangeAdd(l, r, value, mayExhaust);
    if published.Some? {
      plainly := plain.RangeAdd(|plain.versions| - 1, l, r, value, false);
    }
  }

  // ---------------------------------------------------------------- an update that only the tree refuses

  /**
   After the largest delta was added to the opposite element, adding it again leaves a representable array, and the
   guard accepts it whether it knows a bound or the true maximum, zero; but the tag of the leaf would leave the
   representation.
   */
  lemma TreeRefusesMore(push: bool, bound: nat)
    ensures var xs, log := [-MAXIMUM], [Entry(0, 0, MAXIMUM)];
            && CanonicalSumsFit(xs)
            && Accepted(push, xs, [], bound, 0, 0, MAXIMUM)
            && ArrayAfter(xs, log) == [0] && Largest(0, [0])
            && ProposalFits([0], 0, 0, MAXIMUM) && ProvesRepresentability(0 + Magnitude(MAXIMUM), 1)
            && GuardAccepts(push, xs, log, bound, 0, 0, MAXIMUM)
            && !OperationsFit(push, Run(SumAddPolicy(), push, xs, log), 0, 0, 0, 0, MAXIMUM)
            && !Accepted(push, xs, log, bound, 0, 0, MAXIMUM)
  {
    var xs, log := [-MAXIMUM], [Entry(0, 0, MAXIMUM)];
    FirstAndSecond(push);
    assert xs[0..] == xs;
    assert ArrayAfter(xs, []) == xs;
    hide Run, ArrayAfter, ProvesRepresentability;
    assert LeavesFit(Leaf(-MAXIMUM, 0), 0) && LeavesFit(Leaf(0, MAXIMUM), 0);
    assert OperationsFit(push, Leaf(-MAXIMUM, 0), 0, 0, 0, 0, MAXIMUM);
    assert !OperationsFit(push, Leaf(0, MAXIMUM), 0, 0, 0, 0, MAXIMUM);
  }

  lemma FirstAndSecond(push: bool)
    ensures var xs, log := [-MAXIMUM], [Entry(0, 0, MAXIMUM)];
            && CanonicalSumsFit(xs) && ProposalFits(xs, 0, 0, MAXIMUM) && ProposalFits([0], 0, 0, MAXIMUM)
            && ArrayAfter(xs, log) == [0] && ProvesRepresentability(MAXIMUM, 1)
            && Run(SumAddPolicy(), push, xs, []) == Leaf(-MAXIMUM, 0)
            && Run(SumAddPolicy(), push, xs, log) == Leaf(0, MAXIMUM)
  {
    var xs, log := [-MAXIMUM], [Entry(0, 0, MAXIMUM)];
    assert log[..0] == [];
    assert ArrayAfter(xs, log[..0]) == xs;
    assert ArrayAfter(xs, log) == [0];
    assert AddRange([0], 0, 0, MAXIMUM) == [MAXIMUM] && AddRange(xs, 0, 0, MAXIMUM) == [0];
    assert Run(SumAddPolicy(), push, xs, log[..0]) == Leaf(-MAXIMUM, 0);
    assert Run(SumAddPolicy(), push, xs, log) == Leaf(0, MAXIMUM);
    assert CanonicalSum([MAXIMUM], 0, 0) == Some(MAXIMUM) && CanonicalSum([0], 0, 0) == Some(0);
  }

  /** That state is reached: the first update is published by either tree and the second one is not, ... */
  method TreeRefuses(push: bool) returns (first: Option<nat>, second: Option<nat>)
    ensures first.Some? && second.None?
  {
    hide Accepted, CanonicalSumsFit, ProposalFits, ArrayAfter, Guarded, PolicyTrees.Coherent, Committed;
    TreeRefusesMore(push, 0);
    var tree := new SumAddSegmentTree(push);
    var built := tree.Initialize([-MAXIMUM], false);
    TreeRefusesMore(push, tree.magnitudeBound);
    first := tree.RangeAdd(0, 0, MAXIMUM, false);
    assert tree.tree.log == [Entry(0, 0, MAXIMUM)];
    TreeRefusesMore(push, tree.magnitudeBound);
    second := tree.RangeAdd(0, 0, MAXIMUM, false);
  }

  /** ... while the plain array publishes both. */
  method ArrayAccepts() returns (first: Option<nat>, second: Option<nat>)
    ensures first.Some? && second.Some?
  {
    hide CanonicalSumsFit, ProposalFits;
    FirstAndSecond(false);
    assert AddRange([-MAXIMUM], 0, 0, MAXIMUM) == [0];
    var plain := new BruteForceArray();
    var stored := plain.Initialize([-MAXIMUM], false);
    first := plain.RangeAdd(0, 0, 0, MAXIMUM, false);
    assert plain.versions[1] == [0];
    second := plain.RangeAdd(1, 0, 0, MAXIMUM, false);
  }

  /** One query of both: when both answer, they answer the same; an answer of the tree is the exact sum either way. */
  method RangeSumBoth(tree: SumAddSegmentTree, plain: BruteForceArray, version: nat, l: nat, r: nat)
    returns (answer: Option<int>, plainly: Option<int>)
    requires Simulates(tree, plain)
    ensures answer.Some? && plainly.Some? ==> answer == plainly
    ensures answer.Some? ==>
              && version < |plain.versions| && ValidRange(|plain.versions[version]|, l, r)
              && answer.value == Sum(plain.versions[version][l..r + 1])
  {
    hide ArrayAfter, Guarded, PolicyTrees.Coherent, Sum;
    tree.tree.Facts();
    answer := tree.RangeSum(version, l, r);
    plainly := plain.RangeSum(version, l, r);
  }
}
