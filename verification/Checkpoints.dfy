/**
 CheckpointingSegmentTree (src/checkpointing_segment_tree.cpp): one live tree, full copies of it every K versions, and
 the log of updates; a historical query reads the nearest checkpoint and replays the log projected on its range.
 */
module Checkpoints {
  import opened Wrappers
  import opened Canonical
  import opened Checked
  import opened Policies
  import opened TagTrees
  import opened Histories
  import opened Reads
  import opened CheckedUpdates
  import opened SumAdd
  import opened RangeSum
  import opened SumAddRuns
  import opened NumericDomain
  import opened Acceptance
  import opened Preorder

  datatype Checkpoint = Checkpoint(version: nat, nodes: seq<Slot>)

  // ---------------------------------------------------------------- projected replay

  /** Adding to a range adds, to the sum over another range, once for every element they share. */
  lemma {:induction false} SumOfAddition(xs: seq<int>, base: nat, l: nat, r: nat, value: int)
    requires l <= r
    ensures Sum(AddFrom(xs, base, l, r, value))
         == Sum(xs) + value * if xs == [] then 0 else Overlap(base, base + |xs| - 1, l, r)
  {
    if xs != [] {
      SumOfAddition(xs[1..], base + 1, l, r, value);
      assert AddFrom(xs, base, l, r, value)[1..] == AddFrom(xs[1..], base + 1, l, r, value);
      OneInRange(base, base + |xs| - 1, l, r, value);
    }
  }

  lemma OneInRange(lo: nat, hi: nat, l: nat, r: nat, value: int)
    requires lo <= hi && l <= r
    ensures value * Overlap(lo, hi, l, r)
         == (if l <= lo <= r then value else 0) + if lo == hi then 0 else value * Overlap(lo + 1, hi, l, r)
  {
    if lo < hi {
      assert Overlap(lo, hi, l, r) == (if l <= lo <= r then 1 else 0) + Overlap(lo + 1, hi, l, r);
    }
  }

  /** One replayed event: its delta once per element it shares with the queried range. */
  lemma {:induction false} ReplayOne(xs: seq<int>, l: nat, r: nat, e: Entry<int>)
    requires ValidRange(|xs|, l, r) && e.left <= e.right
    ensures Sum(AddRange(xs, e.left, e.right, e.action)[l..r + 1])
         == Sum(xs[l..r + 1]) + e.action * Overlap(l, r, e.left, e.right)
  {
    assert AddRange(xs, e.left, e.right, e.action)[l..r + 1] == AddFrom(xs[l..r + 1], l, e.left, e.right, e.action);
    hide Sum;
    SumOfAddition(xs[l..r + 1], l, e.left, e.right, e.action);
  }

  // ---------------------------------------------------------------- updates of one array of slots

  /** `build` */
  method BuildSlots(values: seq<int>, nodes: seq<Slot>, i: nat, lo: nat, hi: nat) returns (built: Option<seq<Slot>>)
    requires lo <= hi < |values| && BlockEnd(i, lo, hi) <= |nodes|
    ensures built.Some? <==> CanonicalSum(values, lo, hi).Some?
    ensures built.Some? ==>
              && Packed(built.value, i, Build(SumAddPolicy(), values, lo, hi), lo, hi)
              && AgreeOutside(nodes, built.value, i, BlockEnd(i, lo, hi))
    decreases hi - lo
  {
    hide Packed, AgreeOutside, Build, CanonicalSum, Sum, SumAddPolicy;
    if lo == hi {
      BuildLeaf(values, lo);
      PackedRoot(nodes, i, Build(SumAddPolicy(), values, lo, hi), lo, hi);
      return Some(nodes[i := Slot(values[lo], 0)]);
    }
    var mid, rightIndex := Midpoint(lo, hi), RightChild(i, lo, Midpoint(lo, hi));
    BlocksTile(i, lo, hi);
    SumOrNot(values, lo, hi);
    BuildNode(values, lo, hi);
    BuildSum(values, lo, mid);
    BuildSum(values, mid + 1, hi);
    BuildSum(values, lo, hi);
    var left := BuildSlots(values, nodes, i + 1, lo, mid);
    if left.None? {
      return None;
    }
    SameLength(nodes, left.value, i + 1, rightIndex);
    var right := BuildSlots(values, left.value, rightIndex, mid + 1, hi);
    if right.None? {
      return None;
    }
    ghost var u := Build(SumAddPolicy(), values, lo, hi);
    PackedBoth(nodes, left.value, right.value, i, u, lo, hi);
    var sum := SumAddPolicy().TryCombine(right.value[i + 1].sum, right.value[rightIndex].sum);
    CombineIs(right.value[i + 1].sum, right.value[rightIndex].sum);
    if sum.None? {
      return None;
    }
    return Some(right.value[i := Slot(sum.value, 0)]);
  }

  lemma SameLength(nodes: seq<Slot>, other: seq<Slot>, from: int, to: int)
    requires AgreeOutside(nodes, other, from, to)
    ensures |other| == |nodes|
  {
  }

  /** The guard of a recursive call: a segment outside the range returns at once. */
  method UpdateSlots(nodes: seq<Slot>, i: nat, lo: nat, hi: nat, l: nat, r: nat, value: int, ghost t: Tree<int, int>)
    returns (updated: seq<Slot>, ghost u: Tree<int, int>)
    requires Packed(nodes, i, t, lo, hi) && Shaped(t, lo, hi) && TryIfMet(t, lo, hi, l, r, value).Some?
    ensures Packed(updated, i, u, lo, hi) && AgreeOutside(nodes, updated, i, BlockEnd(i, lo, hi))
    ensures TryIfMet(t, lo, hi, l, r, value) == Some(u)
    decreases hi - lo, 1
  {
    hide Packed, Shaped, TryUpdate, Stamp;
    updated, u := nodes, t;
    if hi < l || lo > r {
      return;
    }
    ShapedNode(t, lo, hi);
    PackedChildren(nodes, i, t, lo, hi);
    if Covered(lo, hi, l, r) {
      CoveredStamp(t, lo, hi, l, r, value);
      StampedRoot(nodes, i, t, lo, hi, value);
      var sum := SumAddPolicy().TryApply(value, nodes[i].sum, Length(lo, hi));
      var lazy := SumAddPolicy().TryCompose(nodes[i].lazy, value);
      u := Stamp(SumAddPolicy(), value, t, Length(lo, hi));
      updated := nodes[i := Slot(sum.value, lazy.value)];
      return;
    }
    PartialRetained(t, lo, hi, l, r, value);
    updated, u := UpdatePartial(nodes, i, lo, hi, l, r, value, t);
  }

  /** A covered root rewritten. */
  lemma {:induction false} StampedRoot(nodes: seq<Slot>, i: nat, t: Tree<int, int>, lo: nat, hi: nat, value: int)
    requires Packed(nodes, i, t, lo, hi)
    ensures i < |nodes|
    ensures var u := Stamp(SumAddPolicy(), value, t, Length(lo, hi));
            var other := nodes[i := Slot(u.agg, u.tag)];
            Packed(other, i, u, lo, hi) && AgreeOutside(nodes, other, i, BlockEnd(i, lo, hi))
  {
    PackedChildren(nodes, i, t, lo, hi);
    hide Packed;
    PackedRoot(nodes, i, Stamp(SumAddPolicy(), value, t, Length(lo, hi)), lo, hi);
  }

  /** Partial coverage: both children, then the sum over them and the retained tag. */
  method UpdatePartial(nodes: seq<Slot>, i: nat, lo: nat, hi: nat, l: nat, r: nat, value: int, ghost t: Tree<int, int>)
    returns (updated: seq<Slot>, ghost u: Tree<int, int>)
    requires lo < hi && Packed(nodes, i, t, lo, hi) && Shaped(t, lo, hi) && t.Node?
    requires var left := TryIfMet(t.left, lo, Midpoint(lo, hi), l, r, value);
             var right := TryIfMet(t.right, Midpoint(lo, hi) + 1, hi, l, r, value);
             left.Some? && right.Some? && TryJoin(SumAddPolicy(), t.tag, left.value, right.value, Length(lo, hi)).Some?
    ensures Packed(updated, i, u, lo, hi) && AgreeOutside(nodes, updated, i, BlockEnd(i, lo, hi))
    ensures Some(u) == TryJoin(SumAddPolicy(), t.tag, TryIfMet(t.left, lo, Midpoint(lo, hi), l, r, value).value,
                               TryIfMet(t.right, Midpoint(lo, hi) + 1, hi, l, r, value).value, Length(lo, hi))
    decreases hi - lo, 0
  {
    hide Packed, Shaped, TryIfMet, TryJoin, SumAddPolicy, AgreeOutside;
    ShapedNode(t, lo, hi);
    PackedChildren(nodes, i, t, lo, hi);
    BlocksTile(i, lo, hi);
    var middle := Midpoint(lo, hi);
    var rightIndex := RightChild(i, lo, middle);
    var nodes1, lt := UpdateSlots(nodes, i + 1, lo, middle, l, r, value, t.left);
    PackedRight(nodes, nodes1, i, t.right, lo, hi);
    var nodes2, rt := UpdateSlots(nodes1, rightIndex, middle + 1, hi, l, r, value, t.right);
    u := TryJoin(SumAddPolicy(), t.tag, lt, rt, Length(lo, hi)).value;
    JoinIs(t.tag, lt, rt, Length(lo, hi));
    PackedBoth(nodes, nodes1, nodes2, i, u, lo, hi);
    var children := SumAddPolicy().TryCombine(nodes2[i + 1].sum, nodes2[rightIndex].sum);
    var sum := SumAddPolicy().TryApply(nodes2[i].lazy, children.value, Length(lo, hi));
    updated := nodes2[i := nodes2[i].(sum := sum.value)];
  }

  // ---------------------------------------------------------------- the structure

  /** The tree of a version. */
  ghost function VersionTree(xs: seq<int>, events: seq<Entry<int>>, version: nat): Tree<int, int>
    requires xs != [] && version <= |events|
  {
    Run(SumAddPolicy(), false, xs, events[..version])
  }

  /** Does this version get a checkpoint? */
  predicate Due(version: nat, interval: nat)
    requires interval > 0
  {
    version % interval == 0
  }

  /** The version of checkpoint j. */
  function Multiple(j: nat, interval: nat): nat {
    j * interval
  }

  /** A checkpoint at every multiple of the interval, zero deltas included, each holding its version's tree. */
  ghost predicate Checkpointed(xs: seq<int>, events: seq<Entry<int>>, interval: nat, checkpoints: seq<Checkpoint>) {
    && xs != [] && interval > 0
    && |checkpoints| == CheckpointIndex(|events|, interval) + 1
    && forall j :: 0 <= j < |checkpoints| ==>
         && checkpoints[j].version == Multiple(j, interval) <= |events|
         && |checkpoints[j].nodes| == 2 * |xs| - 1
         && Packed(checkpoints[j].nodes, 0, VersionTree(xs, events, checkpoints[j].version), 0, |xs| - 1)
  }

  /** The whole state after the logged updates. */
  ghost predicate Coherent(
      xs: seq<int>, events: seq<Entry<int>>, interval: nat, live: seq<Slot>, checkpoints: seq<Checkpoint>, bound: nat)
  {
    && xs != [] && RangesIn(|xs|, events)
    && |live| == 2 * |xs| - 1
    && Packed(live, 0, Run(SumAddPolicy(), false, xs, events), 0, |xs| - 1)
    && Checkpointed(xs, events, interval, checkpoints)
    && Guards(bound, ArrayAfter(xs, events))
  }

  /** Consecutive versions share their nearest checkpoint, except when the later one is due its own. */
  lemma NextQuotient(n: nat, interval: nat)
    requires interval > 0
    ensures Due(n + 1, interval) ==>
              && CheckpointIndex(n + 1, interval) == CheckpointIndex(n, interval) + 1
              && Multiple(CheckpointIndex(n + 1, interval), interval) == n + 1
    ensures !Due(n + 1, interval) ==> CheckpointIndex(n + 1, interval) == CheckpointIndex(n, interval)
  {
    var q, m := n / interval, n % interval;
    assert n == interval * q + m;
    if m + 1 == interval {
      assert n + 1 == interval * (q + 1);
      Quotient(n + 1, interval, q + 1, 0);
    } else {
      Quotient(n + 1, interval, q, m + 1);
    }
  }

  lemma Quotient(n: nat, d: nat, q: nat, m: nat)
    requires d > 0 && n == d * q + m && m < d
    ensures n / d == q && n % d == m
  {
    var q', m' := n / d, n % d;
    assert n == d * q' + m';
    if q > q' {
      Apart(d, q', q);
    } else if q < q' {
      Apart(d, q, q');
    }
  }

  lemma Apart(d: nat, a: nat, b: nat)
    requires a < b
    ensures d * b >= d * a + d
  {
    assert d * b == d * a + d + d * (b - a - 1) && d * (b - a - 1) >= 0;
  }

  lemma {:induction false} CoherentStart(
      xs: seq<int>, events: seq<Entry<int>>, interval: nat, live: seq<Slot>, checkpoints: seq<Checkpoint>, bound: nat)
    requires Coherent(xs, events, interval, live, checkpoints, bound)
    ensures xs != [] && interval > 0 && RangesIn(|xs|, events) && Guards(bound, ArrayAfter(xs, events))
    ensures |live| == 2 * |xs| - 1 && |checkpoints| == CheckpointIndex(|events|, interval) + 1
    ensures var t := Run(SumAddPolicy(), false, xs, events);
            Packed(live, 0, t, 0, |xs| - 1) && Shaped(t, 0, |xs| - 1)
  {
    hide Packed, Run, Guards, SumAddPolicy, Shaped, ArrayAfter;
    RunShaped(SumAddPolicy(), false, xs, events);
  }

  /** The nearest checkpoint at or before a version, and the events after it. */
  function CheckpointIndex(version: nat, interval: nat): nat
    requires interval > 0
  {
    version / interval
  }

  function EventsAfter(version: nat, interval: nat): nat
    requires interval > 0
  {
    version % interval
  }

  lemma RemainderIs(version: nat, interval: nat)
    requires interval > 0
    ensures EventsAfter(version, interval) == version % interval
  {
  }

  /** The checkpoint a historical query starts from, and how far before the version it lies. */
  lemma {:induction false} NearestCheckpoint(
      xs: seq<int>, events: seq<Entry<int>>, interval: nat, live: seq<Slot>, checkpoints: seq<Checkpoint>, bound: nat,
      version: nat)
    requires Coherent(xs, events, interval, live, checkpoints, bound) && version <= |events|
    ensures interval > 0 && CheckpointIndex(version, interval) < |checkpoints|
    ensures var base := checkpoints[CheckpointIndex(version, interval)];
            && base.version + EventsAfter(version, interval) == version
            && Packed(base.nodes, 0, VersionTree(xs, events, base.version), 0, |xs| - 1)
  {
    hide Packed, VersionTree, Coherent, Checkpointed, Multiple, CheckpointIndex, EventsAfter;
    CoherentCheckpoints(xs, events, interval, live, checkpoints, bound);
    Nearest(|events|, interval, version);
    CheckpointAt(xs, events, interval, checkpoints, CheckpointIndex(version, interval));
  }

  lemma {:induction false} CoherentCheckpoints(
      xs: seq<int>, events: seq<Entry<int>>, interval: nat, live: seq<Slot>, checkpoints: seq<Checkpoint>, bound: nat)
    requires Coherent(xs, events, interval, live, checkpoints, bound)
    ensures interval > 0 && xs != [] && Checkpointed(xs, events, interval, checkpoints)
  {
    hide Packed, VersionTree, Run, Guards;
  }

  lemma {:induction false} CheckpointAt(
      xs: seq<int>, events: seq<Entry<int>>, interval: nat, checkpoints: seq<Checkpoint>, j: nat)
    requires Checkpointed(xs, events, interval, checkpoints) && j <= CheckpointIndex(|events|, interval)
    ensures j < |checkpoints| && checkpoints[j].version == Multiple(j, interval) <= |events|
    ensures Packed(checkpoints[j].nodes, 0, VersionTree(xs, events, checkpoints[j].version), 0, |xs| - 1)
  {
    hide Packed, VersionTree, Multiple, CheckpointIndex;
  }

  lemma Nearest(n: nat, interval: nat, version: nat)
    requires version <= n && interval > 0
    ensures CheckpointIndex(version, interval) <= CheckpointIndex(n, interval)
    ensures Multiple(CheckpointIndex(version, interval), interval) + EventsAfter(version, interval) == version
  {
    QuotientMonotone(version, n, interval);
  }

  lemma QuotientMonotone(a: nat, b: nat, d: nat)
    requires a <= b && d > 0
    ensures a / d <= b / d
  {
    assert a >= d * (a / d) && b < d * (b / d) + d;
    if a / d > b / d {
      Apart(d, b / d, a / d);
    }
  }

  /** What an accepted update leaves. */
  lemma {:induction false} CoherentNext(
      xs: seq<int>, events: seq<Entry<int>>, interval: nat, live: seq<Slot>, checkpoints: seq<Checkpoint>, bound: nat,
      live': seq<Slot>, copy: seq<Slot>, next: nat, e: Entry<int>)
    requires Coherent(xs, events, interval, live, checkpoints, bound) && ValidRange(|xs|, e.left, e.right)
    requires var u := Step(SumAddPolicy(), false, Run(SumAddPolicy(), false, xs, events), |xs| - 1, e);
             && |live'| == |copy| == 2 * |xs| - 1
             && Packed(live', 0, u, 0, |xs| - 1)
             && (Due(|events| + 1, interval) ==> Packed(copy, 0, u, 0, |xs| - 1))
    requires Guards(next, AddRange(ArrayAfter(xs, events), e.left, e.right, e.action))
    ensures Coherent(xs, events + [e], interval, live',
                     if Due(|events| + 1, interval) then checkpoints + [Checkpoint(|events| + 1, copy)]
                     else checkpoints, next)
  {
    hide Packed, Run, Step, Guards, SumAddPolicy;
    OneMore(false, xs, events, e);
    NextQuotient(|events|, interval);
    CheckpointsNext(xs, events, interval, checkpoints, copy, e);
  }

  lemma {:induction false} CheckpointsNext(
      xs: seq<int>, events: seq<Entry<int>>, interval: nat, checkpoints: seq<Checkpoint>, copy: seq<Slot>,
      e: Entry<int>)
    requires Checkpointed(xs, events, interval, checkpoints) && |copy| == 2 * |xs| - 1
    requires Due(|events| + 1, interval) ==>
               Packed(copy, 0, Step(SumAddPolicy(), false, Run(SumAddPolicy(), false, xs, events), |xs| - 1, e),
                      0, |xs| - 1)
    ensures Checkpointed(xs, events + [e], interval,
                         if Due(|events| + 1, interval) then checkpoints + [Checkpoint(|events| + 1, copy)]
                         else checkpoints)
  {
    hide Packed, Run, Step, SumAddPolicy, Multiple, CheckpointIndex, Due;
    var events' := events + [e];
    var checkpoints' := if Due(|events| + 1, interval) then checkpoints + [Checkpoint(|events| + 1, copy)]
                        else checkpoints;
    NextQuotient(|events|, interval);
    RunNext(xs, events, e);
    assert events'[..|events'|] == events';
    forall j | 0 <= j < |checkpoints'|
      ensures checkpoints'[j].version == Multiple(j, interval) <= |events'|
      ensures |checkpoints'[j].nodes| == 2 * |xs| - 1
      ensures Packed(checkpoints'[j].nodes, 0, VersionTree(xs, events', checkpoints'[j].version), 0, |xs| - 1)
    {
      if j < |checkpoints| {
        assert events'[..checkpoints[j].version] == events[..checkpoints[j].version];
      }
    }
  }

  lemma {:induction false} CoherentInitial(values: seq<int>, interval: nat, live: seq<Slot>, bound: nat)
    requires values != [] && interval > 0 && |live| == 2 * |values| - 1 && Guards(bound, values)
    requires Packed(live, 0, Build(SumAddPolicy(), values, 0, |values| - 1), 0, |values| - 1)
    ensures Coherent(values, [], interval, live, [Checkpoint(0, live)], bound)
  {
    hide Packed, Build, Guards, SumAddPolicy;
    assert Run(SumAddPolicy(), false, values, []) == Build(SumAddPolicy(), values, 0, |values| - 1);
    Quotient(0, interval, 0, 0);
  }

  /** One event of the replay. */
  lemma {:induction false} ReplayStep(xs: seq<int>, events: seq<Entry<int>>, i: nat, l: nat, r: nat)
    requires i < |events| && RangesIn(|xs|, events) && ValidRange(|xs|, l, r)
    ensures var e := events[i];
            Sum(ArrayAfter(xs, events[..i + 1])[l..r + 1])
            == Sum(ArrayAfter(xs, events[..i])[l..r + 1]) + e.action * Overlap(l, r, e.left, e.right)
  {
    hide Sum, Overlap;
    assert events[..i + 1] == events[..i] + [events[i]];
    OneMore(false, xs, events[..i], events[i]);
    ReplayOne(ArrayAfter(xs, events[..i]), l, r, events[i]);
  }

  /** Replaying event i: its delta on the part it shares with the range, and the sum after it, are representable. */
  ghost predicate ReplayFits(xs: seq<int>, events: seq<Entry<int>>, i: nat, l: nat, r: nat) {
    && i < |events| && ValidRange(|ArrayAfter(xs, events[..i + 1])|, l, r)
    && var e, shared := events[i], Overlap(l, r, events[i].left, events[i].right);
       shared == 0 || (Fits(shared) && Fits(e.action * shared) && Fits(Sum(ArrayAfter(xs, events[..i + 1])[l..r + 1])))
  }

  /** Everything evaluated for a query is representable: one tree is read, and the events after it are replayed. */
  ghost predicate Answerable(xs: seq<int>, events: seq<Entry<int>>, interval: nat, version: nat, l: nat, r: nat)
    requires xs != [] && version <= |events| && interval > 0
  {
    var start := if version == |events| then version else version - EventsAfter(version, interval);
    && start >= 0
    && TryQuery(SumAddPolicy(), VersionTree(xs, events, start), 0, |xs| - 1, l, r, 0).Some?
    && forall i :: start <= i < version ==> ReplayFits(xs, events, i, l, r)
  }

  lemma {:induction false} VersionAnswer(xs: seq<int>, events: seq<Entry<int>>, version: nat, l: nat, r: nat)
    requires RangesIn(|xs|, events) && version <= |events| && ValidRange(|xs|, l, r)
    ensures var answer := TryQuery(SumAddPolicy(), VersionTree(xs, events, version), 0, |xs| - 1, l, r, 0);
            answer.Some? ==> answer.value == Sum(ArrayAfter(xs, events[..version])[l..r + 1])
  {
    hide Run, TryQuery, Sum, ArrayAfter;
    CheckedAnswerIsSum(false, xs, events[..version], l, r);
  }

  lemma {:induction false} ReplayNeeds(xs: seq<int>, events: seq<Entry<int>>, i: nat, l: nat, r: nat, sum: int)
    requires i < |events| && RangesIn(|xs|, events) && ValidRange(|xs|, l, r)
    requires sum == Sum(ArrayAfter(xs, events[..i])[l..r + 1])
    ensures var e, shared := events[i], Overlap(l, r, events[i].left, events[i].right);
            ReplayFits(xs, events, i, l, r) <==>
              shared == 0 || (Fits(shared) && Fits(e.action * shared) && Fits(sum + e.action * shared))
  {
    hide Sum, Overlap, Fits;
    ReplayStep(xs, events, i, l, r);
  }

  /** The step of the run: nothing for a zero delta, the checked update otherwise. */
  lemma {:induction false} StepCases(t: Tree<int, int>, last: nat, l: nat, r: nat, value: int)
    requires l <= r <= last
    ensures value == 0 ==> Step(SumAddPolicy(), false, t, last, Entry(l, r, value)) == t
    ensures value != 0 ==>
              var u := TryIfMet(t, 0, last, l, r, value);
              && u == TryUpdate(SumAddPolicy(), false, t, 0, last, l, r, value)
              && (u.Some? ==> u.value == Step(SumAddPolicy(), false, t, last, Entry(l, r, value)))
  {
  }

  lemma {:induction false} CoherentInterval(
      xs: seq<int>, events: seq<Entry<int>>, interval: nat, live: seq<Slot>, checkpoints: seq<Checkpoint>, bound: nat)
    requires Coherent(xs, events, interval, live, checkpoints, bound)
    ensures xs != [] && interval > 0
  {
  }

  class CheckpointingSegmentTree {
    var live: seq<Slot>
    /** events[i] produced version i + 1. */
    var events: seq<Entry<int>>
    var checkpoints: seq<Checkpoint>
    var interval: nat
    var arraySize: nat
    var magnitudeBound: nat
    ghost var initial: seq<int>

    constructor ()
      ensures Valid() && checkpoints == []
    {
      live, events, checkpoints, interval, arraySize, magnitudeBound, initial := [], [], [], 0, 0, 0, [];
    }

    ghost function Current(): seq<int>
      reads this
    {
      ArrayAfter(initial, events)
    }

    ghost predicate Valid()
      reads this
    {
      && arraySize == |initial|
      && (if arraySize > 0 then Coherent(initial, events, interval, live, checkpoints, magnitudeBound)
          else events == [] && live == [])
    }

    /** `initialize`: replaces the whole history, or fails and changes nothing. */
    method Initialize(values: seq<int>, checkpointInterval: nat, mayExhaust: bool) returns (ok: bool)
      requires Valid() && forall i :: 0 <= i < |values| ==> Fits(values[i])
      modifies this
      ensures Valid()
      ensures ok ==> checkpointInterval > 0 && CanonicalSumsFit(values)
      ensures !ok ==> mayExhaust || checkpointInterval == 0 || !CanonicalSumsFit(values)
      ensures ok ==> initial == values && events == [] && interval == checkpointInterval && |checkpoints| == 1
      ensures ok ==> Largest(magnitudeBound, values)
      ensures !ok ==> unchanged(this)
    {
      hide Coherent, Packed, Build, CanonicalSum, Guards, AgreeOutside;
      if checkpointInterval == 0 {
        return false;
      }
      var exhausted := Exhausted(mayExhaust);
      if exhausted {
        return false;
      }
      var bound := MaxMagnitude(values);
      GuardsInitially(values, bound);
      var newLive: seq<Slot> := [];
      if values != [] {
        newLive := seq(2 * |values| - 1, i => Slot(0, 0));
        var built := BuildSlots(values, newLive, 0, 0, |values| - 1);
        if built.None? {
          return false;
        }
        SameLength(newLive, built.value, 0, BlockEnd(0, 0, |values| - 1));
        newLive := built.value;
        CoherentInitial(values, checkpointInterval, newLive, bound);
      }
      live, checkpoints, events := newLive, [Checkpoint(0, newLive)], [];
      interval, arraySize, magnitudeBound, initial := checkpointInterval, |values|, bound, values;
      return true;
    }

    /**
     `rangeSum`: an answer is the sum over the array of the version asked for.  The latest version is read off the live
     tree; a historical one off the nearest checkpoint, replaying exactly version mod K events.
     */
    method RangeSum(version: nat, l: nat, r: nat) returns (answer: Option<int>, ghost replayed: nat)
      requires Valid()
      ensures checkpoints == [] || version > |events| || !ValidRange(arraySize, l, r) ==> answer.None?
      ensures checkpoints != [] && version <= |events| && ValidRange(arraySize, l, r) ==>
                interval > 0 && (answer.Some? <==> Answerable(initial, events, interval, version, l, r))
      ensures answer.Some? ==> answer.value == Sum(ArrayAfter(initial, events[..version])[l..r + 1])
      ensures answer.Some? ==>
                interval > 0 && replayed == if version == |events| then 0 else version % interval
    {
      replayed := 0;
      if checkpoints == [] || version > |events| || !ValidRange(arraySize, l, r) {
        return None, 0;
      }
      hide Coherent, Packed, Run, TryQuery, Sum, ArrayAfter, SumAddPolicy, Shaped, Guards, EventsAfter, ReplayFits;
      CoherentStart(initial, events, interval, live, checkpoints, magnitudeBound);
      RemainderIs(version, interval);
      if version == |events| {
        assert events[..version] == events;
        CheckedAnswerIsSum(false, initial, events, l, r);
        answer := QueryPacked(live, 0, 0, arraySize - 1, l, r, 0, Run(SumAddPolicy(), false, initial, events));
        return;
      }
      answer, replayed := Historical(version, l, r, Sum(ArrayAfter(initial, events[..version])[l..r + 1]));
    }

    /** A historical query: the nearest checkpoint at or before the version, then the replay. */
    method Historical(version: nat, l: nat, r: nat, ghost target: int)
      returns (answer: Option<int>, ghost replayed: nat)
      requires Coherent(initial, events, interval, live, checkpoints, magnitudeBound) && interval > 0
      requires arraySize == |initial| && RangesIn(arraySize, events) && ValidRange(arraySize, l, r)
      requires version < |events|
      requires target == Sum(ArrayAfter(initial, events[..version])[l..r + 1])
      ensures answer.Some? ==> answer.value == target && replayed == EventsAfter(version, interval)
      ensures answer.Some? <==> Answerable(initial, events, interval, version, l, r)
    {
      hide EventsAfter, CheckpointIndex, Coherent, Packed, VersionTree, TryQuery, Sum, ArrayAfter, SumAddPolicy,
           RangesIn, ReplayFits;
      replayed := 0;
      NearestCheckpoint(initial, events, interval, live, checkpoints, magnitudeBound, version);
      var base := checkpoints[CheckpointIndex(version, interval)];
      VersionAnswer(initial, events, base.version, l, r);
      answer := QueryPacked(base.nodes, 0, 0, arraySize - 1, l, r, 0, VersionTree(initial, events, base.version));
      if answer.None? {
        return;
      }
      answer, replayed := Replay(base.version, version, l, r, answer.value);
    }

    /** The replay: each event after the checkpoint, projected on the queried range. */
    method Replay(start: nat, version: nat, l: nat, r: nat, startSum: int)
      returns (answer: Option<int>, ghost replayed: nat)
      requires start <= version <= |events| && RangesIn(|initial|, events) && ValidRange(|initial|, l, r)
      requires startSum == Sum(ArrayAfter(initial, events[..start])[l..r + 1])
      ensures answer.Some? ==> answer.value == Sum(ArrayAfter(initial, events[..version])[l..r + 1])
      ensures answer.Some? ==> replayed == version - start
      ensures answer.Some? <==> forall i :: start <= i < version ==> ReplayFits(initial, events, i, l, r)
    {
      hide Sum, SumAddPolicy, ReplayFits;
      var sum, i := startSum, start;
      replayed := 0;
      while i < version
        invariant start <= i <= version && replayed == i - start
        invariant sum == Sum(ArrayAfter(initial, events[..i])[l..r + 1])
        invariant forall k :: start <= k < i ==> ReplayFits(initial, events, k, l, r)
      {
        var event := events[i];
        var overlapLeft := if l < event.left then event.left else l;
        var overlapRight := if r < event.right then r else event.right;
        ReplayStep(initial, events, i, l, r);
        ReplayNeeds(initial, events, i, l, r, sum);
        if overlapLeft <= overlapRight {
          ApplyIs(event.action, sum, Length(overlapLeft, overlapRight));
          var next := SumAddPolicy().TryApply(event.action, sum, Length(overlapLeft, overlapRight));
          if next.None? {
            return None, replayed;
          }
          sum := next.value;
        }
        i := i + 1;
        replayed := replayed + 1;
      }
      return Some(sum), replayed;
    }

    /** Everything arithmetic that can fail, before anything is written. */
    method Preflight(l: nat, r: nat, value: int) returns (bound: Option<nat>)
      requires arraySize == |initial| && Coherent(initial, events, interval, live, checkpoints, magnitudeBound)
      requires ValidRange(arraySize, l, r) && Fits(value)
      ensures bound.Some? ==> Prepared(initial, events, l, r, value, bound.value)
      ensures bound.Some? ==> Commits(initial, events, magnitudeBound, l, r, value, bound.value)
      ensures bound.Some? <==> Accepted(false, initial, events, magnitudeBound, l, r, value)
    {
      hide Coherent, Packed, Shaped, ProposalFits, Guards, TryUpdate, Run, SumAddPolicy, ArrayAfter, AddRange,
           TryMaterialize, Prepared, MaterializePacked, ValidatePacked, Accepted, Committed,
           ProvesRepresentability;
      CoherentStart(initial, events, interval, live, checkpoints, magnitudeBound);
      if value == 0 {
        NothingToDo(initial, events, magnitudeBound, l, r);
        NothingAccepted(false, initial, events, magnitudeBound, l, r);
        return Some(magnitudeBound);
      }
      ghost var t := Run(SumAddPolicy(), false, initial, events);
      var leaves := MaterializePacked(live, 0, 0, arraySize - 1, 0, t);
      LeavesAreCurrent(false, initial, events);
      bound := ValidateRangeAdd(magnitudeBound, arraySize, l, r, value, leaves, Current());
      PreflightDecides(false, initial, events, magnitudeBound, l, r, value, bound);
      if bound.None? {
        return;
      }
      ValidateIsUpdate(live, 0, 0, arraySize - 1, l, r, value, t);
      var checked := ValidatePacked(live, 0, 0, arraySize - 1, l, r, value, t);
      if checked.None? {
        return None;
      }
      PreparedBy(initial, events, l, r, value, bound.value);
    }

    /**
     `rangeAdd`: one more version in the log and in the live tree, with a checkpoint when its number is a multiple of K;
     or nothing changed at all.
     */
    method RangeAdd(l: nat, r: nat, value: int, mayExhaust: bool) returns (version: Option<nat>)
      requires Valid() && Fits(value)
      modifies this
      ensures Valid() && initial == old(initial) && interval == old(interval)
      ensures version.Some? ==> version.value == |events| && events == old(events) + [Entry(l, r, value)]
      ensures version.Some? ==>
                && ValidRange(arraySize, l, r)
                && Accepted(false, initial, old(events), old(magnitudeBound), l, r, value)
                && Commits(initial, old(events), old(magnitudeBound), l, r, value, magnitudeBound)
      ensures version.Some? ==> old(checkpoints) <= checkpoints
      ensures version.Some? ==> interval > 0 && |checkpoints| == |events| / interval + 1
      ensures version.None? ==> unchanged(this)
      ensures version.None? && !mayExhaust ==>
                || old(checkpoints) == [] || !ValidRange(arraySize, l, r)
                || !Accepted(false, initial, events, magnitudeBound, l, r, value)
    {
      if checkpoints == [] || !ValidRange(arraySize, l, r) {
        return None;
      }
      hide Coherent, Run, Prepared, Due, Accepted, Commits;
      CoherentInterval(initial, events, interval, live, checkpoints, magnitudeBound);
      var newVersion := |events| + 1;
      var takeCheckpoint := Due(newVersion, interval);
      var next := Preflight(l, r, value);
      if next.None? {
        return None;
      }
      var reserved := Reserve(l, r, value, newVersion, takeCheckpoint, mayExhaust);
      if !reserved {
        return None;
      }
      Mutate(l, r, value, takeCheckpoint, next.value, old(events), old(checkpoints));
      magnitudeBound := next.value;
      return Some(newVersion);
    }

    /** The allocations, before the first write: the event, and the copy of the live tree; both or neither. */
    method Reserve(l: nat, r: nat, value: int, newVersion: nat, takeCheckpoint: bool, mayExhaust: bool)
      returns (reserved: bool)
      modifies this`events, this`checkpoints
      ensures reserved ==>
                && events == old(events) + [Entry(l, r, value)]
                && checkpoints == if takeCheckpoint then old(checkpoints) + [Checkpoint(newVersion, live)]
                                  else old(checkpoints)
      ensures !reserved ==> mayExhaust && events == old(events) && checkpoints == old(checkpoints)
    {
      var exhausted := Exhausted(mayExhaust);
      if exhausted {
        return false;
      }
      events := events + [Entry(l, r, value)];
      if takeCheckpoint {
        var full := Exhausted(mayExhaust);
        if full {
          events := events[..|events| - 1];
          return false;
        }
        checkpoints := checkpoints + [Checkpoint(newVersion, live)];
      }
      return true;
    }

    /** The mutation, which cannot fail: the live tree, and the checkpoint just copied from it. */
    method Mutate(l: nat, r: nat, value: int, takeCheckpoint: bool, ghost next: nat,
                  ghost log: seq<Entry<int>>, ghost older: seq<Checkpoint>)
      requires arraySize == |initial| && Coherent(initial, log, interval, live, older, magnitudeBound)
      requires ValidRange(arraySize, l, r) && interval > 0
      requires takeCheckpoint <==> Due(|log| + 1, interval)
      requires checkpoints == if takeCheckpoint then older + [Checkpoint(|log| + 1, live)] else older
      requires Prepared(initial, log, l, r, value, next)
      modifies this`live, this`checkpoints
      ensures Coherent(initial, log + [Entry(l, r, value)], interval, live, checkpoints, next)
      ensures older <= checkpoints
    {
      hide Coherent, Packed, Shaped, Guards, TryUpdate, Run, SumAddPolicy, ArrayAfter, AddRange, Step, AgreeOutside;
      CoherentStart(initial, log, interval, live, older, magnitudeBound);
      ghost var t, copy := Run(SumAddPolicy(), false, initial, log), live;
      StepCases(t, arraySize - 1, l, r, value);
      if value != 0 {
        var updated, u := UpdateSlots(live, 0, 0, arraySize - 1, l, r, value, t);
        SameLength(live, updated, 0, BlockEnd(0, 0, arraySize - 1));
        if takeCheckpoint {
          var last := checkpoints[|checkpoints| - 1];
          var nodes, w := UpdateSlots(last.nodes, 0, 0, arraySize - 1, l, r, value, t);
          SameLength(last.nodes, nodes, 0, BlockEnd(0, 0, arraySize - 1));
          copy := nodes;
          checkpoints := checkpoints[|checkpoints| - 1 := last.(nodes := nodes)];
          assert checkpoints == older + [Checkpoint(|log| + 1, copy)];
        }
        live := updated;
      }
      CoherentNext(initial, log, interval, old(live), older, magnitudeBound, live, copy, next, Entry(l, r, value));
    }

    /** `nodeCount`: the live tree, one copy of it a checkpoint, and the log. */
    method NodeCount() returns (count: nat)
      requires Valid()
      ensures arraySize > 0 ==>
                interval > 0 && count == (|events| / interval + 2) * (2 * arraySize - 1) + |events|
      ensures arraySize == 0 ==> count == 0
    {
      hide Packed, Run, Guards, SumAddPolicy, VersionTree;
      count := |live| + |checkpoints| * |live| + |events|;
      if arraySize > 0 {
        CountIs(|events| / interval, |live|);
      }
    }
  }

  lemma CountIs(quotient: nat, slots: nat)
    ensures slots + (quotient + 1) * slots == (quotient + 2) * slots
  {
  }
}
