/**
 What the numeric envelope gives the structures that use the guard: a stream of deltas whose summed magnitudes the
 scalar test accepts is accepted delta by delta, and every query of every version is answered
 (include/valseg/detail/sum_add_domain.hpp:74-110).
 */
module EnvelopedRuns {
  import opened Wrappers
  import opened Canonical
  import opened Checked
  import opened Policies
  import opened TagTrees
  import opened Histories
  import opened CheckedUpdates
  import opened Reads
  import opened SumAdd
  import opened RangeSum
  import opened SumAddRuns
  import opened NumericDomain
  import opened Envelopes
  import opened Acceptance
  import opened BufferedNodes
  import opened Checkpoints

  /** Starting from this largest magnitude, the scalar test accepts the envelope of the whole log. */
  ghost predicate Enveloped(xs: seq<int>, log: seq<Entry<int>>, start: nat) {
    && xs != [] && RangesIn(|xs|, log)
    && Dominates(start, xs)
    && Envelope(start, log) > 0 && ProvesRepresentability(Envelope(start, log), |xs|)
  }

  /** The elements of a version stay within the envelope of its log. */
  lemma {:induction false} ArrayWithin(xs: seq<int>, log: seq<Entry<int>>, start: nat)
    requires Dominates(start, xs)
    ensures Dominates(Envelope(start, log), ArrayAfter(xs, log))
  {
    if log != [] {
      ArrayWithin(xs, log[..|log| - 1], start);
    }
  }

  /** A smaller bound is accepted whenever a larger one is. */
  lemma ProvesLess(bound: nat, lower: nat, size: nat)
    requires ProvesRepresentability(bound, size) && lower <= bound
    ensures ProvesRepresentability(lower, size)
  {
  }

  // ---------------------------------------------------------------- the next delta

  /** A delta within the envelope is accepted by every structure of either variant, and commits the envelope. */
  lemma {:induction false} EnvelopedAccepted(
      push: bool, xs: seq<int>, log: seq<Entry<int>>, start: nat, l: nat, r: nat, d: int)
    requires xs != [] && RangesIn(|xs|, log) && Dominates(start, xs) && ValidRange(|xs|, l, r)
    requires ProvesRepresentability(Envelope(start, log) + Magnitude(d), |xs|)
    ensures Accepted(push, xs, log, Envelope(start, log), l, r, d)
  {
    hide TryUpdate, OperationsFit, Run, ProvesRepresentability, Dominates, Envelope;
    if d != 0 {
      EnvelopedUpdateFits(push, xs, log, start, l, r, d);
      UpdateDecides(push, xs, log, l, r, d);
    }
  }

  /** It is accepted by the buffered structure too, which evaluates other deltas. */
  lemma {:induction false} EnvelopedBuffered(xs: seq<int>, log: seq<Entry<int>>, start: nat, l: nat, r: nat, d: int)
    requires xs != [] && RangesIn(|xs|, log) && Dominates(start, xs) && ValidRange(|xs|, l, r)
    requires ProvesRepresentability(Envelope(start, log) + Magnitude(d), |xs|)
    ensures BufferedAccepted(xs, log, Envelope(start, log), l, r, d)
  {
    hide DeltasFit, Run, ProvesRepresentability, Dominates, Envelope, Consistent, Weight, Roomy;
    if d != 0 {
      var bound := Envelope(start, log) + Magnitude(d);
      ProvenIsRoomy(bound, |xs|);
      RoomyNarrows(bound, |xs|, Envelope(start, log), |xs|);
      RunWeight(false, xs, log, start);
      Envelopes.RunIsConsistent(false, xs, log);
      DeltasWithin(Run(SumAddPolicy(), false, xs, log), 0, |xs| - 1, l, r, d, bound, |xs|);
    }
  }

  lemma {:induction false} DeltasWithin(
      t: Tree<int, int>, lo: nat, hi: nat, l: nat, r: nat, d: int, bound: nat, n: nat)
    requires Consistent(SumAddPolicy(), t, lo, hi) && Meets(lo, hi, l, r) && l <= r
    requires Weight(t) + Magnitude(d) <= bound && Roomy(bound, n) && Length(lo, hi) <= n
    ensures DeltasFit(t, lo, hi, l, r, d)
    decreases t
  {
    hide Consistent, Weight, Roomy, Within, DeltaFits, SumAddPolicy;
    ShapeOf(t, lo, hi);
    WeightIs(t);
    AggregateWithin(t, lo, hi);
    DeltaWithin(t.agg, Weight(t), lo, hi, l, r, d, bound, n);
    if t.Leaf? || Covered(lo, hi, l, r) {
      BoundFits(t.tag + d, bound, n);
    } else {
      NodeAggregate(t, lo, hi);
      if Meets(lo, Midpoint(lo, hi), l, r) {
        DeltasWithin(t.left, lo, Midpoint(lo, hi), l, r, d, bound, n);
      }
      if Meets(Midpoint(lo, hi) + 1, hi, l, r) {
        DeltasWithin(t.right, Midpoint(lo, hi) + 1, hi, l, r, d, bound, n);
      }
    }
  }

  lemma DeltaWithin(x: int, a: nat, lo: nat, hi: nat, l: nat, r: nat, d: int, bound: nat, n: nat)
    requires lo <= hi && Within(x, a, Length(lo, hi)) && a + Magnitude(d) <= bound
    requires Roomy(bound, n) && Length(lo, hi) <= n
    ensures DeltaFits(x, lo, hi, l, r, d)
  {
    var length, shared := Length(lo, hi), Overlap(lo, hi, l, r);
    assert shared <= length;
    RoomyNarrows(bound, n, a + Magnitude(d), length);
    RoomyNarrows(bound, n, Magnitude(d), length);
    assert Fits(shared);
    hide Within, Overlap;
    WithinScaled(d, Magnitude(d), shared);
    WithinLonger(d * shared, Magnitude(d), shared, length);
    WithinSum(x, a, d * shared, Magnitude(d), length);
    WithinFits(d * shared, Magnitude(d), length);
    WithinFits(x + d * shared, a + Magnitude(d), length);
  }

  lemma WithinLonger(x: int, bound: nat, shorter: nat, length: nat)
    requires Within(x, bound, shorter) && shorter <= length
    ensures Within(x, bound, length)
  {
    ProductMonotone(bound, bound, shorter, length);
  }

  // ---------------------------------------------------------------- replayed queries

  /** Every query of every version is answered, whatever the interval: the checkpoint read and each event replayed. */
  lemma {:induction false} EnvelopedAnswerable(
      xs: seq<int>, events: seq<Entry<int>>, start: nat, interval: nat, version: nat, l: nat, r: nat)
    requires Enveloped(xs, events, start) && interval > 0 && version <= |events| && ValidRange(|xs|, l, r)
    ensures Answerable(xs, events, interval, version, l, r)
  {
    hide TryQuery, TryMaterialize, Run, Dominates, ProvesRepresentability, Envelope, ReplayFits, EventsAfter;
    NearestBefore(version, interval);
    var base := if version == |events| then version else version - EventsAfter(version, interval);
    EnvelopedQueriesFit(false, xs, events, start, base, l, r);
    forall i | base <= i < version ensures ReplayFits(xs, events, i, l, r) {
      EnvelopedReplay(xs, events, start, i, l, r);
    }
  }

  lemma NearestBefore(version: nat, interval: nat)
    requires interval > 0
    ensures EventsAfter(version, interval) <= version
  {
  }

  lemma {:induction false} EnvelopedReplay(
      xs: seq<int>, events: seq<Entry<int>>, start: nat, i: nat, l: nat, r: nat)
    requires Enveloped(xs, events, start) && i < |events| && ValidRange(|xs|, l, r)
    ensures ReplayFits(xs, events, i, l, r)
  {
    hide Dominates, ProvesRepresentability, Roomy, Sum;
    var bound, e, shared := Envelope(start, events), events[i], Overlap(l, r, events[i].left, events[i].right);
    ProvenIsRoomy(bound, |xs|);
    DeltaInEnvelope(start, events, i);
    ArrayWithin(xs, events[..i + 1], start);
    EnvelopeGrows(start, events, i + 1);
    SliceFits(ArrayAfter(xs, events[..i + 1]), l, r, Envelope(start, events[..i + 1]), bound);
    RoomyNarrows(bound, |xs|, Magnitude(e.action), shared);
    WithinScaled(e.action, Magnitude(e.action), shared);
    WithinFits(e.action * shared, Magnitude(e.action), shared);
    SharedFits(bound, |xs|, shared);
  }

  lemma SharedFits(bound: nat, n: nat, shared: nat)
    requires Roomy(bound, n) && shared <= n
    ensures Fits(shared)
  {
  }

  lemma {:induction false} DeltaInEnvelope(start: nat, log: seq<Entry<int>>, i: nat)
    requires i < |log|
    ensures Magnitude(log[i].action) <= Envelope(start, log[..i + 1]) <= Envelope(start, log)
  {
    EnvelopeGrows(start, log, i + 1);
    assert log[..i + 1][..i] == log[..i];
  }

  lemma {:induction false} SliceFits(values: seq<int>, l: nat, r: nat, lower: nat, bound: nat)
    requires ValidRange(|values|, l, r) && Dominates(lower, values) && lower <= bound && Roomy(bound, |values|)
    ensures Fits(Sum(values[l..r + 1]))
  {
    var slice := values[l..r + 1];
    assert Dominates(lower, slice);
    RoomyNarrows(bound, |values|, lower, |slice|);
    hide Dominates, Sum;
    SumWithin(slice, lower);
  }

  // ---------------------------------------------------------------- whole runs of a structure

  /** Where a driven structure stands after k entries of the log: one more bound term, and the next delta acceptable. */
  lemma {:induction false} NextEnveloped(xs: seq<int>, log: seq<Entry<int>>, start: nat, k: nat)
    requires Enveloped(xs, log, start) && k < |log|
    ensures var e, before, bound := log[k], log[..k], Envelope(start, log[..k]);
            && log[..k + 1] == before + [e] && ValidRange(|xs|, e.left, e.right) && Fits(e.action)
            && Accepted(false, xs, before, bound, e.left, e.right, e.action)
            && BufferedAccepted(xs, before, bound, e.left, e.right, e.action)
            && forall next :: Commits(xs, before, bound, e.left, e.right, e.action, next) ==>
                 next == Envelope(start, log[..k + 1])
  {
    hide Accepted, BufferedAccepted, Dominates, ProvesRepresentability, ArrayAfter, Roomy, Largest;
    var e, before, bound := log[k], log[..k], Envelope(start, log);
    assert log[..k + 1][..k] == before;
    ProvenIsRoomy(bound, |xs|);
    DeltaInEnvelope(start, log, k);
    BoundFits(e.action, bound, |xs|);
    ProvesLess(bound, Envelope(start, log[..k + 1]), |xs|);
    EnvelopedAccepted(false, xs, before, start, e.left, e.right, e.action);
    EnvelopedBuffered(xs, before, start, e.left, e.right, e.action);
  }

  /** The first array of an enveloped run can be built, and its bound is known. */
  lemma {:induction false} StartEnveloped(xs: seq<int>, log: seq<Entry<int>>, start: nat)
    requires Enveloped(xs, log, start)
    ensures CanonicalSumsFit(xs) && forall i :: 0 <= i < |xs| ==> Fits(xs[i])
    ensures Envelope(start, log[..0]) == start
  {
    hide CanonicalSum, ProvesRepresentability;
    EnvelopeGrows(start, log, 0);
    ProvenIsRoomy(Envelope(start, log), |xs|);
    ProvesLess(Envelope(start, log), start, |xs|);
    CanonicalSumFits(xs, 0, |xs| - 1, start);
  }

  lemma LargestIsUnique(a: nat, b: nat, values: seq<int>)
    requires Largest(a, values) && Largest(b, values)
    ensures a == b
  {
  }

  /** The buffered tree, driven by an enveloped log: every delta is published. */
  method DriveBuffered(xs: seq<int>, log: seq<Entry<int>>, ghost start: nat)
    returns (tree: BufferedPathCopyingSegmentTree)
    requires Enveloped(xs, log, start) && Largest(start, xs)
    ensures fresh(tree) && tree.Valid() && tree.initial == xs && tree.log == log && |tree.roots| == |log| + 1
  {
    hide Enveloped, Envelope, Largest, BufferedNodes.Coherent, BufferedAccepted, Commits, CanonicalSumsFit, Accepted;
    StartEnveloped(xs, log, start);
    tree := new BufferedPathCopyingSegmentTree();
    var built := tree.Initialize(xs, false);
    LargestIsUnique(start, tree.magnitudeBound, xs);
    assert log[..0] == [];
    for k := 0 to |log|
      invariant tree.Valid() && tree.initial == xs && tree.log == log[..k] && |tree.roots| == k + 1
      invariant tree.magnitudeBound == Envelope(start, log[..k])
    {
      NextEnveloped(xs, log, start, k);
      var version := tree.RangeAdd(log[k].left, log[k].right, log[k].action, false);
    }
    assert log[..|log|] == log;
  }

  /** ... and any query of any version is answered with the exact sum. */
  method AnswerBuffered(xs: seq<int>, log: seq<Entry<int>>, ghost start: nat, version: nat, l: nat, r: nat)
    returns (answer: Option<int>)
    requires Enveloped(xs, log, start) && Largest(start, xs) && version <= |log| && ValidRange(|xs|, l, r)
    ensures answer == Some(Sum(ArrayAfter(xs, log[..version])[l..r + 1]))
  {
    hide Envelope, Dominates, ProvesRepresentability, Largest, BufferedNodes.Coherent, Run, TryQuery, ArrayAfter, Sum;
    var tree := DriveBuffered(xs, log, start);
    EnvelopedQueriesFit(false, xs, log, start, version, l, r);
    answer := tree.RangeSum(version, l, r);
  }

  /** The checkpointing tree, driven by an enveloped log: every delta is published. */
  method DriveCheckpointing(xs: seq<int>, log: seq<Entry<int>>, ghost start: nat, interval: nat)
    returns (tree: CheckpointingSegmentTree)
    requires Enveloped(xs, log, start) && Largest(start, xs) && interval > 0
    ensures fresh(tree) && tree.Valid() && tree.initial == xs && tree.events == log
    ensures tree.interval == interval && tree.checkpoints != []
  {
    hide Enveloped, Envelope, Largest, Checkpoints.Coherent, Commits, CanonicalSumsFit, Accepted, BufferedAccepted;
    StartEnveloped(xs, log, start);
    tree := new CheckpointingSegmentTree();
    var built := tree.Initialize(xs, interval, false);
    LargestIsUnique(start, tree.magnitudeBound, xs);
    assert log[..0] == [];
    for k := 0 to |log|
      invariant tree.Valid() && tree.initial == xs && tree.events == log[..k]
      invariant tree.interval == interval && tree.checkpoints != []
      invariant tree.magnitudeBound == Envelope(start, log[..k])
    {
      NextEnveloped(xs, log, start, k);
      var version := tree.RangeAdd(log[k].left, log[k].right, log[k].action, false);
    }
    assert log[..|log|] == log;
  }

  /** ... and any query of any version is answered with the exact sum, whatever is replayed for it. */
  method AnswerCheckpointing(
      xs: seq<int>, log: seq<Entry<int>>, ghost start: nat, interval: nat, version: nat, l: nat, r: nat)
    returns (answer: Option<int>)
    requires Enveloped(xs, log, start) && Largest(start, xs) && interval > 0
    requires version <= |log| && ValidRange(|xs|, l, r)
    ensures answer == Some(Sum(ArrayAfter(xs, log[..version])[l..r + 1]))
  {
    hide Enveloped, Largest, Checkpoints.Coherent, Answerable, ArrayAfter, Sum, EventsAfter;
    var tree := DriveCheckpointing(xs, log, start, interval);
    EnvelopedAnswerable(xs, log, start, interval, version, l, r);
    var sum, replayed := tree.RangeSum(version, l, r);
    answer := sum;
  }
}
