/**
 The path-copying range-add / range-sum trees behind the numeric guard: PersistentLazySegmentTree
 (src/persistent_lazy_segment_tree.cpp, tags retained) and CopyOnPushSegmentTree (bench/copy_on_push_segment_tree.hpp,
 tags pushed).  Both run the policy-generic recursions at SumAddPolicy.
 */
module GuardedTrees {
  import opened Wrappers
  import opened Canonical
  import opened Checked
  import opened Policies
  import opened TagTrees
  import opened Histories
  import opened Arenas
  import opened Reads
  import opened CheckedUpdates
  import opened SumAdd
  import opened RangeSum
  import opened SumAddRuns
  import opened NumericDomain
  import opened Envelopes
  import opened Acceptance
  import opened PolicyTrees

  /** What the guard knows of a run: a bound over the latest array, and the envelope while that alone decided. */
  ghost predicate Guarded(xs: seq<int>, log: seq<Entry<int>>, bound: nat, start: nat, enveloped: bool) {
    && Guards(bound, ArrayAfter(xs, log))
    && CanonicalSumsFit(ArrayAfter(xs, log))
    && Dominates(start, xs)
    && (enveloped ==> bound == Envelope(start, log))
  }

  lemma GuardedStart(xs: seq<int>, bound: nat)
    requires Guards(bound, xs) && CanonicalSumsFit(xs)
    ensures Guarded(xs, [], bound, bound, true)
  {
  }

  /** A zero delta changes neither the array nor the envelope. */
  lemma {:induction false} GuardedSame(
      xs: seq<int>, log: seq<Entry<int>>, bound: nat, start: nat, enveloped: bool, e: Entry<int>)
    requires Guarded(xs, log, bound, start, enveloped) && xs != [] && e.action == 0
    ensures Guarded(xs, log + [e], bound, start, enveloped)
  {
    hide Guards, Dominates, CanonicalSumsFit;
    OneMore(false, xs, log, e);
    assert (log + [e])[..|log|] == log;
  }

  /**
   An accepted delta: the bound the guard returned, and one more term of the envelope if the scalar test accepted it.
   */
  lemma {:induction false} GuardedNext(
      xs: seq<int>, log: seq<Entry<int>>, bound: nat, start: nat, enveloped: bool, e: Entry<int>, next: nat)
    requires Guarded(xs, log, bound, start, enveloped) && xs != []
    requires Guards(next, AddRange(ArrayAfter(xs, log), e.left, e.right, e.action))
    requires CanonicalSumsFit(AddRange(ArrayAfter(xs, log), e.left, e.right, e.action))
    ensures Guarded(xs, log + [e], next, start, enveloped && next == bound + Magnitude(e.action))
  {
    hide Guards, Dominates, CanonicalSumsFit;
    OneMore(false, xs, log, e);
    assert (log + [e])[..|log|] == log;
  }

  /** Adding nothing to a representable array is representable. */
  lemma {:induction false} NothingProposed(
      xs: seq<int>, log: seq<Entry<int>>, bound: nat, start: nat, enveloped: bool, l: nat, r: nat)
    requires Guarded(xs, log, bound, start, enveloped)
    ensures ProposalFits(ArrayAfter(xs, log), l, r, 0)
  {
    hide CanonicalSum;
    assert AddRange(ArrayAfter(xs, log), l, r, 0) == ArrayAfter(xs, log);
  }

  lemma ProposedSums(current: seq<int>, l: nat, r: nat, value: int)
    requires ProposalFits(current, l, r, value)
    ensures CanonicalSumsFit(AddRange(current, l, r, value))
  {
  }

  lemma VersionPrefix(xs: seq<int>, log: seq<Entry<int>>, version: nat)
    requires RangesIn(|xs|, log) && version <= |log|
    ensures RangesIn(|xs|, log[..version])
  {
  }

  /** Within the envelope every query of every version is answered. */
  lemma {:induction false} GuardedAnswers(
      push: bool, xs: seq<int>, log: seq<Entry<int>>, bound: nat, start: nat, v: nat, l: nat, r: nat)
    requires Guarded(xs, log, bound, start, true) && xs != [] && RangesIn(|xs|, log) && v <= |log|
    requires bound > 0 && ProvesRepresentability(bound, |xs|)
    ensures TryQuery(SumAddPolicy(), Run(SumAddPolicy(), push, xs, log[..v]), 0, |xs| - 1, l, r, 0).Some?
  {
    hide Guards, Dominates, TryQuery, Run, ProvesRepresentability;
    EnvelopedQueriesFit(push, xs, log, start, v, l, r);
  }

  /** Within the envelope every delta the scalar test accepts is applied. */
  lemma {:induction false} GuardedAccepts(
      push: bool, xs: seq<int>, log: seq<Entry<int>>, bound: nat, start: nat, l: nat, r: nat, value: int)
    requires Guarded(xs, log, bound, start, true) && xs != [] && RangesIn(|xs|, log) && ValidRange(|xs|, l, r)
    requires value != 0 && ProvesRepresentability(bound + Magnitude(value), |xs|)
    ensures !PolicyTrees.Refused(SumAddPolicy(), push, xs, log, l, r, value)
  {
    hide Guards, Dominates, TryUpdate, Run, ProvesRepresentability;
    EnvelopedUpdateFits(push, xs, log, start, l, r, value);
  }

  /** What the tree itself refuses is an operation of the update that is not representable. */
  lemma {:induction false} RefusedByOperations(
      push: bool, xs: seq<int>, log: seq<Entry<int>>, l: nat, r: nat, value: int)
    requires xs != [] && RangesIn(|xs|, log) && ValidRange(|xs|, l, r)
    ensures PolicyTrees.Refused(SumAddPolicy(), push, xs, log, l, r, value)
       <==> value != 0 && !OperationsFit(push, Run(SumAddPolicy(), push, xs, log), 0, |xs| - 1, l, r, value)
  {
    hide Run, TryUpdate, OperationsFit;
    UpdateDecides(push, xs, log, l, r, value);
  }

  class SumAddSegmentTree {
    const tree: PathCopyingActionTree<int, int>
    var magnitudeBound: nat
    /** The bound of the initial array, and whether the scalar test alone accepted every nonzero update since. */
    ghost var start: nat
    ghost var enveloped: bool

    constructor (push: bool)
      ensures Valid() && fresh(tree) && tree.roots == [] && tree.push == push
    {
      tree := new PathCopyingActionTree(SumAddPolicy(), push);
      magnitudeBound, start, enveloped := 0, 0, true;
    }

    /** The array of the latest version. */
    ghost function Current(): seq<int>
      reads this, tree
    {
      ArrayAfter(tree.initial, tree.log)
    }

    ghost predicate Valid()
      reads this, tree
    {
      && tree.Valid()
      && tree.policy == SumAddPolicy()
      && Guarded(tree.initial, tree.log, magnitudeBound, start, enveloped)
    }

    /** `initialize` */
    method Initialize(values: seq<int>, mayExhaust: bool) returns (ok: bool)
      requires Valid() && forall i :: 0 <= i < |values| ==> Fits(values[i])
      modifies this, tree
      ensures Valid()
      ensures ok ==> CanonicalSumsFit(values)
      ensures !ok ==> mayExhaust || !CanonicalSumsFit(values)
      ensures ok ==> tree.initial == values && tree.log == [] && |tree.roots| == 1 && enveloped
      ensures ok ==> Largest(magnitudeBound, values)
      ensures !ok ==> unchanged(this) && unchanged(tree)
    {
      hide Guarded, CanonicalSum, TryBuild, SumAddPolicy, PolicyTrees.Coherent, NeverFails;
      var bound := MaxMagnitude(values);
      if values != [] {
        BuildIsCanonical(values, 0, |values| - 1);
      }
      ok := tree.Initialize(values, mayExhaust);
      if ok {
        GuardedStart(values, bound);
        magnitudeBound := bound;
        start, enveloped := bound, true;
      }
    }

    /** Does the scalar test still cover the committed bound? */
    ghost predicate WithinEnvelope()
      reads this, tree
    {
      enveloped && magnitudeBound > 0 && ProvesRepresentability(magnitudeBound, tree.arraySize)
    }

    /** `rangeSum`: an answer is the plain array's; within the envelope there always is one. */
    method RangeSum(version: nat, l: nat, r: nat) returns (answer: Option<int>)
      requires Valid()
      ensures answer.Some? ==> version < |tree.roots| && ValidRange(tree.arraySize, l, r)
      ensures answer.Some? ==> answer.value == Sum(ArrayAfter(tree.initial, tree.log[..version])[l..r + 1])
      ensures version < |tree.roots| && ValidRange(tree.arraySize, l, r) ==>
                answer == TryQuery(SumAddPolicy(), Run(SumAddPolicy(), tree.push, tree.initial, tree.log[..version]),
                                   0, tree.arraySize - 1, l, r, 0)
      ensures version < |tree.roots| && ValidRange(tree.arraySize, l, r) ==>
                var before := tree.log[..version];
                answer.Some? <==>
                  QueryRepresentable(Run(SumAddPolicy(), tree.push, tree.initial, before),
                                     ArrayAfter(tree.initial, before), 0, tree.arraySize - 1, l, r, 0)
      ensures WithinEnvelope() && version < |tree.roots| && ValidRange(tree.arraySize, l, r) ==> answer.Some?
    {
      hide Guarded, SumAddPolicy, TryQuery, Run, ArrayAfter, ProvesRepresentability, Lawful, InducedActionsCommute,
           Expected, AllValid, ValidHistory, PolicyTrees.Coherent, QueryRepresentable, NeverFails;
      ZeroIsIdentity();
      tree.Facts();
      answer := tree.RangeAggregate(version, l, r);
      if version < |tree.roots| && ValidRange(tree.arraySize, l, r) {
        VersionPrefix(tree.initial, tree.log, version);
        CheckedAnswerIsSum(tree.push, tree.initial, tree.log[..version], l, r);
        QueryDecides(tree.push, tree.initial, tree.log[..version], l, r);
        if WithinEnvelope() {
          GuardedAnswers(tree.push, tree.initial, tree.log, magnitudeBound, start, version, l, r);
        }
      }
    }

    /** The guard, over the leaves of the latest version when the scalar test is inconclusive. */
    method Preflight(l: nat, r: nat, value: int) returns (bound: Option<nat>)
      requires Valid() && tree.roots != [] && ValidRange(tree.arraySize, l, r) && Fits(value) && value != 0
      ensures bound.Some? ==>
                && ProposalFits(Current(), l, r, value)
                && Guards(bound.value, AddRange(Current(), l, r, value))
                && Committed(magnitudeBound, value, AddRange(Current(), l, r, value), bound.value)
      ensures bound.Some? <==>
                tree.initial != [] && GuardAccepts(tree.push, tree.initial, tree.log, magnitudeBound, l, r, value)
      ensures ProvesRepresentability(magnitudeBound + Magnitude(value), tree.arraySize) ==>
                bound == Some(magnitudeBound + Magnitude(value))
    {
      hide PolicyTrees.Coherent, Run, Stands, Shaped, SumAddPolicy, Guards, ProposalFits, ArrayAfter, AddRange,
           TryMaterialize, ProvesRepresentability, TryUpdate, GuardAccepts, MaterializeArena;
      tree.Facts();
      PolicyTrees.CoherentStart(SumAddPolicy(), tree.push, tree.initial, tree.log, tree.nodes, tree.roots);
      ghost var t := Run(SumAddPolicy(), tree.push, tree.initial, tree.log);
      var leaves := MaterializeArena(SumAddPolicy(), tree.nodes, tree.roots[|tree.roots| - 1],
                                     0, tree.arraySize - 1, 0, t);
      LeavesAreCurrent(tree.push, tree.initial, tree.log);
      bound := ValidateRangeAdd(magnitudeBound, tree.arraySize, l, r, value, leaves, Current());
      GuardDecides(tree.push, tree.initial, tree.log, magnitudeBound, l, r, value, bound);
    }

    /**
     `rangeAdd`: publishes one version, or changes nothing.  A valid request is refused exactly when the guard or an
     operation of the update refuses the delta, or when memory runs out.  While the scalar test accepts the growing
     bound, a valid request can only run out of memory.
     */
    method RangeAdd(l: nat, r: nat, value: int, mayExhaust: bool) returns (version: Option<nat>)
      requires Valid() && Fits(value)
      modifies this, tree
      ensures Valid() && tree.initial == old(tree.initial) && tree.arraySize == old(tree.arraySize)
      ensures version.Some? ==>
                && ValidRange(tree.arraySize, l, r)
                && version.value == |old(tree.roots)|
                && tree.log == old(tree.log) + [Entry(l, r, value)]
                && old(tree.nodes) <= tree.nodes && old(tree.roots) <= tree.roots
                && ProposalFits(old(Current()), l, r, value)
                && Accepted(tree.push, tree.initial, old(tree.log), old(magnitudeBound), l, r, value)
      ensures version.Some? ==>
                if value == 0 then magnitudeBound == old(magnitudeBound)
                else Committed(old(magnitudeBound), value, Current(), magnitudeBound)
      ensures version.None? ==> unchanged(tree) && magnitudeBound == old(magnitudeBound)
      ensures version.None? && !mayExhaust ==>
                || old(tree.roots) == [] || !ValidRange(tree.arraySize, l, r)
                || !Accepted(tree.push, tree.initial, tree.log, magnitudeBound, l, r, value)
      ensures old(enveloped) && ProvesRepresentability(old(magnitudeBound) + Magnitude(value), tree.arraySize) ==>
                && enveloped
                && (!mayExhaust && old(tree.roots) != [] && ValidRange(tree.arraySize, l, r) ==>
                      version.Some? && magnitudeBound == old(magnitudeBound) + Magnitude(value))
    {
      hide PolicyTrees.Coherent, Run, SumAddPolicy, Guarded, ProposalFits, ArrayAfter, AddRange, ProvesRepresentability,
           CanonicalSumsFit, TryUpdate, PolicyTrees.Refused, Guards, GuardAccepts, OperationsFit, Committed, Accepted;
      tree.Facts();
      ZeroIsIdentity();
      version := None;
      if tree.roots == [] || !ValidRange(tree.arraySize, l, r) {
        return;
      }
      RefusedByOperations(tree.push, tree.initial, tree.log, l, r, value);
      AcceptedIs(tree.push, tree.initial, tree.log, magnitudeBound, l, r, value);
      OneMore(tree.push, tree.initial, tree.log, Entry(l, r, value));
      ghost var e := Entry(l, r, value);
      if value == 0 {
        NothingProposed(tree.initial, tree.log, magnitudeBound, start, enveloped, l, r);
        GuardedSame(tree.initial, tree.log, magnitudeBound, start, enveloped, e);
        version := tree.RangeApply(l, r, value, mayExhaust);
        return;
      }
      var bound := Preflight(l, r, value);
      if bound.None? {
        return;
      }
      if enveloped && ProvesRepresentability(magnitudeBound + Magnitude(value), tree.arraySize) {
        GuardedAccepts(tree.push, tree.initial, tree.log, magnitudeBound, start, l, r, value);
      }
      ProposedSums(Current(), l, r, value);
      GuardedNext(tree.initial, tree.log, magnitudeBound, start, enveloped, e, bound.value);
      version := tree.RangeApply(l, r, value, mayExhaust);
      if version.Some? {
        enveloped := enveloped && bound.value == magnitudeBound + Magnitude(value);
        magnitudeBound := bound.value;
      }
    }
  }
}
