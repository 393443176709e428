/**
 The machine-independent counts of an operation stream (bench/structural_counts.hpp:56-112), and what they predict:
 the exact arena growth of three trees and the total length of the checkpoint replays.
 */
module StructuralCounts {
  import opened Wrappers
  import opened Canonical
  import opened Checked
  import opened Policies
  import opened TagTrees
  import opened Histories
  import opened Frontier
  import opened ClosedForm
  import opened CheckedUpdates
  import opened SumAdd
  import opened PushCounting
  import HeapLayout
  import opened PointTrees
  import opened Checkpoints

  datatype Operation =
    | Update(left: nat, right: nat, delta: int)
    | Query(left: nat, right: nat, version: nat)

  datatype Counts = Counts(
    updates: nat, nonZeroUpdates: nat, queries: nat, updateVisits: nat, checkpointUpdateVisits: nat, pushes: nat,
    intersecting: nat, queryVisits: nat, replayEntries: nat, queryVersionDistance: nat, fullCoverageUpdates: nat,
    fullCoverageQueries: nat, latestVersionQueries: nat)

  const ZERO := Counts(0, 0, 0, 0, 0, 0, 0, 0, 0, 0, 0, 0, 0)

  /** The updates of a stream, in order: the log a versioned array keeps. */
  function Log(stream: seq<Operation>): (log: seq<Entry<int>>)
    ensures |log| <= |stream|
  {
    if stream == [] then []
    else
      var op := stream[|stream| - 1];
      Log(stream[..|stream| - 1]) + if op.Update? then [Entry(op.left, op.right, op.delta)] else []
  }

  /** Ranges inside the array, and no query of a version that is not published yet. */
  predicate ValidStream(n: nat, stream: seq<Operation>) {
    stream != [] ==>
      var before, op := stream[..|stream| - 1], stream[|stream| - 1];
      ValidStream(n, before) && ValidRange(n, op.left, op.right) && (op.Query? ==> op.version <= |Log(before)|)
  }

  /** Log entries a checkpointing tree replays for a query; interval zero keeps version zero alone. */
  function ReplayLength(version: nat, latest: nat, interval: nat): nat {
    if version == latest then 0 else if interval == 0 then version else EventsAfter(version, interval)
  }

  // ---------------------------------------------------------------- what the totals mean

  /** Sum of F over the nonzero updates. */
  function SumVisits(n: nat, log: seq<Entry<int>>): nat
    requires n > 0
  {
    if log == [] then 0
    else
      var e := log[|log| - 1];
      SumVisits(n, log[..|log| - 1]) + if e.action == 0 then 0 else Visited(0, n - 1, e.left, e.right)
  }

  /** Sum of P over the nonzero updates of copy-on-push. */
  function SumPushes(xs: seq<int>, log: seq<Entry<int>>): nat
    requires xs != []
  {
    if log == [] then 0
    else
      var before, e := log[..|log| - 1], log[|log| - 1];
      SumPushes(xs, before)
      + if e.action == 0 then 0
        else PushCount(SumAddPolicy(), true, Run(SumAddPolicy(), true, xs, before), 0, |xs| - 1, e.left, e.right)
  }

  /** Every composition that the updates of copy-on-push make is representable. */
  predicate TagsStayFit(xs: seq<int>, log: seq<Entry<int>>)
    requires xs != []
  {
    log != [] ==>
      var before, e := log[..|log| - 1], log[|log| - 1];
      && TagsStayFit(xs, before)
      && (e.action != 0 ==>
            ComposesFit(SumAddPolicy(), Run(SumAddPolicy(), true, xs, before), 0, |xs| - 1, e.left, e.right, e.action))
  }

  /** A total over a stream: what each operation contributes, given the latest version when it comes. */
  function Total(stream: seq<Operation>, weight: (Operation, nat) -> nat): nat {
    if stream == [] then 0
    else
      var before := stream[..|stream| - 1];
      Total(before, weight) + weight(stream[|stream| - 1], |Log(before)|)
  }

  function When(condition: bool): nat {
    if condition then 1 else 0
  }

  predicate Nonzero(op: Operation) {
    op.Update? && op.delta != 0
  }

  predicate Whole(n: nat, op: Operation) {
    op.left == 0 && op.right + 1 == n
  }

  /** The entries the checkpointing tree replays for the queries of a stream. */
  function SumReplays(stream: seq<Operation>, interval: nat): nat {
    Total(stream, (op: Operation, latest: nat) =>
      if op.Query? then ReplayLength(op.version, latest, interval) else 0)
  }

  /** Visits of the update applied a second time, to the checkpoint of a version that gets one. */
  function SumCheckpointVisits(n: nat, stream: seq<Operation>, interval: nat): nat
    requires n > 0
  {
    Total(stream, (op: Operation, latest: nat) =>
      if Nonzero(op) && interval > 0 && Due(latest + 1, interval) then Visited(0, n - 1, op.left, op.right) else 0)
  }

  function SumQueryVisits(n: nat, stream: seq<Operation>): nat
    requires n > 0
  {
    Total(stream, (op: Operation, latest: nat) => if op.Query? then Visited(0, n - 1, op.left, op.right) else 0)
  }

  /** How far back the queries reach. */
  function SumDistances(stream: seq<Operation>): nat {
    Total(stream, (op: Operation, latest: nat) => if op.Query? && op.version <= latest then latest - op.version else 0)
  }

  function CountNonzero(stream: seq<Operation>): nat {
    Total(stream, (op: Operation, latest: nat) => When(Nonzero(op)))
  }

  function CountWholeUpdates(n: nat, stream: seq<Operation>): nat {
    Total(stream, (op: Operation, latest: nat) => When(Nonzero(op) && Whole(n, op)))
  }

  function CountWholeQueries(n: nat, stream: seq<Operation>): nat {
    Total(stream, (op: Operation, latest: nat) => When(op.Query? && Whole(n, op)))
  }

  function CountLatest(stream: seq<Operation>): nat {
    Total(stream, (op: Operation, latest: nat) => When(op.Query? && op.version == latest))
  }

  /** The tag-retaining tree appends the sum of F over any run. */
  lemma {:induction false} RetainedGrowth(xs: seq<int>, log: seq<Entry<int>>)
    requires xs != []
    ensures RunGrowth(SumAddPolicy(), false, xs, log) == SumVisits(|xs|, log)
  {
    hide Visited, Run;
    if log != [] {
      RetainedGrowth(xs, log[..|log| - 1]);
    }
  }

  /** Copy-on-push appends the sum of F + 2P. */
  lemma {:induction false} PushedGrowth(xs: seq<int>, log: seq<Entry<int>>)
    requires xs != []
    ensures RunGrowth(SumAddPolicy(), true, xs, log) == SumVisits(|xs|, log) + 2 * SumPushes(xs, log)
  {
    hide Visited, Run, PushCount;
    if log != [] {
      PushedGrowth(xs, log[..|log| - 1]);
    }
  }

  // ---------------------------------------------------------------- the counting loop

  /** What every count stands for, over any array of the given size. */
  ghost function Meaning(stream: seq<Operation>, xs: seq<int>, interval: nat): Counts
    requires xs != []
  {
    var n, log := |xs|, Log(stream);
    Counts(|log|, CountNonzero(stream), |stream| - |log|, SumVisits(n, log), SumCheckpointVisits(n, stream, interval),
           SumPushes(xs, log), PointGrowth(SumAddPolicy(), n, log), SumQueryVisits(n, stream),
           SumReplays(stream, interval), SumDistances(stream), CountWholeUpdates(n, stream),
           CountWholeQueries(n, stream),
           CountLatest(stream))
  }

  /** Every total is a representable size. */
  predicate Sized(c: Counts) {
    && c.updates <= SIZE_MAXIMUM && c.nonZeroUpdates <= SIZE_MAXIMUM && c.queries <= SIZE_MAXIMUM
    && c.updateVisits <= SIZE_MAXIMUM && c.checkpointUpdateVisits <= SIZE_MAXIMUM && c.pushes <= SIZE_MAXIMUM
    && c.intersecting <= SIZE_MAXIMUM && c.queryVisits <= SIZE_MAXIMUM && c.replayEntries <= SIZE_MAXIMUM
    && c.queryVersionDistance <= SIZE_MAXIMUM && c.fullCoverageUpdates <= SIZE_MAXIMUM
    && c.fullCoverageQueries <= SIZE_MAXIMUM && c.latestVersionQueries <= SIZE_MAXIMUM
  }

  /** These are the counts of a valid stream. */
  ghost predicate CountsOf(c: Counts, stream: seq<Operation>, xs: seq<int>, interval: nat) {
    xs != [] && ValidStream(|xs|, stream) && c == Meaning(stream, xs, interval)
  }

  /** The counts of a stream predict the records that its updates make each persistent tree append. */
  lemma {:induction false} CountsPredictGrowth(stream: seq<Operation>, xs: seq<int>, interval: nat)
    requires xs != []
    ensures var counts, log := Meaning(stream, xs, interval), Log(stream);
            && RunGrowth(SumAddPolicy(), false, xs, log) == counts.updateVisits
            && RunGrowth(SumAddPolicy(), true, xs, log) == counts.updateVisits + 2 * counts.pushes
            && PointGrowth(SumAddPolicy(), |xs|, log) == counts.intersecting
  {
    hide SumVisits, SumPushes, PointGrowth, Total, Log, RunGrowth;
    RetainedGrowth(xs, Log(stream));
    PushedGrowth(xs, Log(stream));
  }

  /** One more operation, in the totals over the stream. */
  lemma {:induction false} StreamNext(stream: seq<Operation>, op: Operation, n: nat, interval: nat)
    requires n > 0
    ensures var next, latest := stream + [op], |Log(stream)|;
            && CountNonzero(next) == CountNonzero(stream) + When(Nonzero(op))
            && SumCheckpointVisits(n, next, interval)
               == SumCheckpointVisits(n, stream, interval)
                  + (if Nonzero(op) && interval > 0 && Due(latest + 1, interval)
                     then Visited(0, n - 1, op.left, op.right)
                     else 0)
            && CountWholeUpdates(n, next) == CountWholeUpdates(n, stream) + When(Nonzero(op) && Whole(n, op))
  {
    hide Visited, Due, Log;
    assert (stream + [op])[..|stream|] == stream;
  }

  lemma {:induction false} QueriesNext(stream: seq<Operation>, op: Operation, n: nat, interval: nat)
    requires n > 0
    ensures var next, latest := stream + [op], |Log(stream)|;
            && SumQueryVisits(n, next)
               == SumQueryVisits(n, stream) + (if op.Query? then Visited(0, n - 1, op.left, op.right) else 0)
            && SumReplays(next, interval)
               == SumReplays(stream, interval) + (if op.Query? then ReplayLength(op.version, latest, interval) else 0)
            && SumDistances(next)
               == SumDistances(stream) + (if op.Query? && op.version <= latest then latest - op.version else 0)
            && CountWholeQueries(n, next) == CountWholeQueries(n, stream) + When(op.Query? && Whole(n, op))
            && CountLatest(next) == CountLatest(stream) + When(op.Query? && op.version == latest)
  {
    hide Visited, ReplayLength, Log;
    assert (stream + [op])[..|stream|] == stream;
  }

  /** One more update, in the totals over the log. */
  lemma {:induction false} LogNext(log: seq<Entry<int>>, e: Entry<int>, xs: seq<int>)
    requires xs != []
    ensures var next := log + [e];
            && SumVisits(|xs|, next)
               == SumVisits(|xs|, log) + (if e.action == 0 then 0 else Visited(0, |xs| - 1, e.left, e.right))
            && SumPushes(xs, next)
               == SumPushes(xs, log)
                  + (if e.action == 0 then 0
                     else PushCount(SumAddPolicy(), true, Run(SumAddPolicy(), true, xs, log), 0, |xs| - 1, e.left,
                                    e.right))
            && PointGrowth(SumAddPolicy(), |xs|, next)
               == PointGrowth(SumAddPolicy(), |xs|, log)
                  + (if e.action == 0 then 0 else Intersecting(0, |xs| - 1, e.left, e.right))
  {
    hide Visited, PushCount, Intersecting, Run;
    assert (log + [e])[..|log|] == log;
  }

  lemma {:induction false} TagsNext(log: seq<Entry<int>>, e: Entry<int>, xs: seq<int>)
    requires xs != []
    ensures TagsStayFit(xs, log + [e]) <==>
              && TagsStayFit(xs, log)
              && (e.action == 0
                  || ComposesFit(SumAddPolicy(), Run(SumAddPolicy(), true, xs, log), 0, |xs| - 1, e.left, e.right,
                                 e.action))
  {
    hide ComposesFit, Run;
    assert (log + [e])[..|log|] == log;
  }

  /** Every tag of the tree is a word. */
  predicate TagsAreWords(t: Tree<int, int>)
    decreases t
  {
    && -0x8000_0000_0000_0000 <= t.tag <= 0x7FFF_FFFF_FFFF_FFFF
    && (t.Node? ==> TagsAreWords(t.left) && TagsAreWords(t.right))
  }

  /** An update whose compositions are representable leaves words for tags. */
  lemma {:induction false} UpdatedTags(t: Tree<int, int>, lo: nat, hi: nat, l: nat, r: nat, f: int)
    requires Shaped(t, lo, hi) && TagsAreWords(t) && l <= r && Meets(lo, hi, l, r)
    requires ComposesFit(SumAddPolicy(), t, lo, hi, l, r, f)
    ensures TagsAreWords(TagTrees.Update(SumAddPolicy(), true, t, lo, hi, l, r, f))
    decreases Length(lo, hi)
  {
    var p := SumAddPolicy();
    if !Covered(lo, hi, l, r) {
      var o, mid := Opened(p, true, t, lo, hi), Midpoint(lo, hi);
      OpenedShaped(p, true, t, lo, hi);
      OpenedTags(t, lo, hi);
      if l <= mid {
        UpdatedTags(o.left, lo, mid, l, r, f);
      }
      if mid < r {
        UpdatedTags(o.right, mid + 1, hi, l, r, f);
      }
    }
  }

  lemma {:induction false} OpenedTags(t: Tree<int, int>, lo: nat, hi: nat)
    requires t.Node? && TagsAreWords(t) && TagsFit(SumAddPolicy(), t)
    ensures TagsAreWords(Opened(SumAddPolicy(), true, t, lo, hi))
  {
  }

  /** As long as the compositions are representable, no tag of copy-on-push ever leaves the words. */
  lemma {:induction false} RunTagsAreWords(xs: seq<int>, log: seq<Entry<int>>)
    requires xs != [] && RangesIn(|xs|, log) && TagsStayFit(xs, log)
    ensures TagsAreWords(Run(SumAddPolicy(), true, xs, log))
  {
    hide ComposesFit, TagsAreWords;
    if log == [] {
      BuiltTags(xs, 0, |xs| - 1);
    } else {
      var before, e := log[..|log| - 1], log[|log| - 1];
      RunTagsAreWords(xs, before);
      RunShaped(SumAddPolicy(), true, xs, before);
      if e.action != 0 {
        UpdatedTags(Run(SumAddPolicy(), true, xs, before), 0, |xs| - 1, e.left, e.right, e.action);
      }
    }
  }

  lemma {:induction false} BuiltTags(xs: seq<int>, lo: nat, hi: nat)
    requires lo <= hi < |xs|
    ensures TagsAreWords(Build(SumAddPolicy(), xs, lo, hi))
    decreases hi - lo
  {
    if lo < hi {
      BuiltTags(xs, lo, Midpoint(lo, hi));
      BuiltTags(xs, Midpoint(lo, hi) + 1, hi);
    }
  }

  /** The log grows with every update and with nothing else. */
  lemma {:induction false} LogAfter(before: seq<Operation>, op: Operation)
    ensures Log(before + [op]) == Log(before) + if op.Update? then [Entry(op.left, op.right, op.delta)] else []
    ensures op.Query? ==> Log(before + [op]) == Log(before)
  {
    assert (before + [op])[..|before|] == before;
    assert Log(before) + [] == Log(before);
  }

  lemma {:induction false} ValidNext(n: nat, stream: seq<Operation>, k: nat)
    requires k < |stream| && ValidStream(n, stream[..k])
    ensures ValidStream(n, stream[..k + 1]) <==>
              && ValidRange(n, stream[k].left, stream[k].right)
              && (stream[k].Query? ==> stream[k].version <= |Log(stream[..k])|)
  {
    assert stream[..k + 1][..k] == stream[..k];
  }

  // ---------------------------------------------------------------- the totals field by field

  /** f(0) + ... + f(k - 1) */
  function Sigma(k: nat, f: nat -> nat): nat {
    if k == 0 then 0 else Sigma(k - 1, f) + f(k - 1)
  }

  /** How many positions before k have the property. */
  ghost function Number(k: nat, p: nat -> bool): nat {
    |set i: nat | i < k && p(i)|
  }

  /** The updates among the first k operations: the version that is the latest when operation k comes. */
  ghost function LatestAt(stream: seq<Operation>, k: nat): nat {
    Number(k, IsUpdate(stream))
  }

  // What operation k adds to a total, with its condition written out.

  function VisitsAt(stream: seq<Operation>, size: nat): nat -> nat
    requires size > 0
  {
    (k: nat) =>
      if k < |stream| && stream[k].Update? && stream[k].delta != 0
      then Visited(0, size - 1, stream[k].left, stream[k].right) else 0
  }

  ghost function CheckpointVisitsAt(stream: seq<Operation>, size: nat, interval: nat): nat -> nat
    requires size > 0
  {
    (k: nat) =>
      if k < |stream| && stream[k].Update? && stream[k].delta != 0
         && interval != 0 && (LatestAt(stream, k) + 1) % interval == 0
      then Visited(0, size - 1, stream[k].left, stream[k].right) else 0
  }

  /** The pushes of copy-on-push on the tree that the updates before it left. */
  function PushesAt(stream: seq<Operation>, xs: seq<int>): nat -> nat
    requires xs != []
  {
    (k: nat) =>
      if k < |stream| && stream[k].Update? && stream[k].delta != 0
      then PushCount(SumAddPolicy(), true, Run(SumAddPolicy(), true, xs, Log(stream[..k])), 0, |xs| - 1,
                     stream[k].left, stream[k].right) else 0
  }

  function IntersectingAt(stream: seq<Operation>, size: nat): nat -> nat
    requires size > 0
  {
    (k: nat) =>
      if k < |stream| && stream[k].Update? && stream[k].delta != 0
      then Intersecting(0, size - 1, stream[k].left, stream[k].right) else 0
  }

  function QueryVisitsAt(stream: seq<Operation>, size: nat): nat -> nat
    requires size > 0
  {
    (k: nat) =>
      if k < |stream| && stream[k].Query? then Visited(0, size - 1, stream[k].left, stream[k].right) else 0
  }

  ghost function ReplayAt(stream: seq<Operation>, interval: nat): nat -> nat {
    (k: nat) =>
      if k < |stream| && stream[k].Query? && stream[k].version != LatestAt(stream, k)
      then if interval == 0 then stream[k].version else stream[k].version % interval
      else 0
  }

  ghost function DistanceAt(stream: seq<Operation>): nat -> nat {
    (k: nat) =>
      if k < |stream| && stream[k].Query? && stream[k].version <= LatestAt(stream, k)
      then LatestAt(stream, k) - stream[k].version else 0
  }

  // Which operations a field counts, with its condition written out.

  function IsUpdate(stream: seq<Operation>): nat -> bool {
    (k: nat) => k < |stream| && stream[k].Update?
  }

  function IsNonzeroUpdate(stream: seq<Operation>): nat -> bool {
    (k: nat) => k < |stream| && stream[k].Update? && stream[k].delta != 0
  }

  function IsQuery(stream: seq<Operation>): nat -> bool {
    (k: nat) => k < |stream| && stream[k].Query?
  }

  function IsWholeUpdate(stream: seq<Operation>, size: nat): nat -> bool {
    (k: nat) =>
      && k < |stream| && stream[k].Update? && stream[k].delta != 0
      && stream[k].left == 0 && stream[k].right == size - 1
  }

  function IsWholeQuery(stream: seq<Operation>, size: nat): nat -> bool {
    (k: nat) => k < |stream| && stream[k].Query? && stream[k].left == 0 && stream[k].right == size - 1
  }

  ghost function IsLatestQuery(stream: seq<Operation>): nat -> bool {
    (k: nat) => k < |stream| && stream[k].Query? && stream[k].version == LatestAt(stream, k)
  }

  /** Every field: how many operations are of its kind, or what they add up to. */
  ghost predicate FieldByField(c: Counts, stream: seq<Operation>, xs: seq<int>, interval: nat)
    requires xs != []
  {
    var length, n := |stream|, |xs|;
    && c.updates == Number(length, IsUpdate(stream))
    && c.nonZeroUpdates == Number(length, IsNonzeroUpdate(stream))
    && c.queries == Number(length, IsQuery(stream))
    && c.updateVisits == Sigma(length, VisitsAt(stream, n))
    && c.checkpointUpdateVisits == Sigma(length, CheckpointVisitsAt(stream, n, interval))
    && c.pushes == Sigma(length, PushesAt(stream, xs))
    && c.intersecting == Sigma(length, IntersectingAt(stream, n))
    && c.queryVisits == Sigma(length, QueryVisitsAt(stream, n))
    && c.replayEntries == Sigma(length, ReplayAt(stream, interval))
    && c.queryVersionDistance == Sigma(length, DistanceAt(stream))
    && c.fullCoverageUpdates == Number(length, IsWholeUpdate(stream, n))
    && c.fullCoverageQueries == Number(length, IsWholeQuery(stream, n))
    && c.latestVersionQueries == Number(length, IsLatestQuery(stream))
  }

  lemma {:induction false} NumberNext(k: nat, p: nat -> bool)
    ensures Number(0, p) == 0 && Number(k + 1, p) == Number(k, p) + if p(k) then 1 else 0
  {
    var before, after := (set i: nat | i < k && p(i)), (set i: nat | i < k + 1 && p(i));
    assert k !in before;
    assert after == if p(k) then before + {k} else before;
    assert (set i: nat | i < 0 && p(i)) == {};
  }

  lemma {:induction false} LatestIsLog(stream: seq<Operation>, k: nat)
    requires k <= |stream|
    ensures LatestAt(stream, k) == |Log(stream[..k])|
    decreases k
  {
    hide Number;
    if k == 0 {
      NumberNext(0, IsUpdate(stream));
    } else {
      LatestIsLog(stream, k - 1);
      assert stream[..k][..k - 1] == stream[..k - 1];
      NumberNext(k - 1, IsUpdate(stream));
    }
  }

  lemma {:induction false} UpdateTotals(stream: seq<Operation>, xs: seq<int>, interval: nat, k: nat)
    requires xs != [] && k <= |stream|
    ensures var n, part := |xs|, stream[..k];
            && SumVisits(n, Log(part)) == Sigma(k, VisitsAt(stream, n))
            && SumCheckpointVisits(n, part, interval) == Sigma(k, CheckpointVisitsAt(stream, n, interval))
            && SumPushes(xs, Log(part)) == Sigma(k, PushesAt(stream, xs))
            && PointGrowth(SumAddPolicy(), n, Log(part)) == Sigma(k, IntersectingAt(stream, n))
    decreases k
  {
    hide SumVisits, SumCheckpointVisits, SumPushes, PointGrowth, Visited, PushCount, Intersecting, Run, SumAddPolicy;
    if k == 0 {
      NothingTotalled(xs, interval);
      assert stream[..0] == [];
    } else {
      var before, op := stream[..k - 1], stream[k - 1];
      assert stream[..k] == before + [op];
      UpdateTotals(stream, xs, interval, k - 1);
      LatestIsLog(stream, k - 1);
      StreamNext(before, op, |xs|, interval);
      LogAfter(before, op);
      LogNext(Log(before), Entry(op.left, op.right, if op.Update? then op.delta else 0), xs);
    }
  }

  lemma NothingTotalled(xs: seq<int>, interval: nat)
    requires xs != []
    ensures Log([]) == [] && SumVisits(|xs|, []) == 0 && SumCheckpointVisits(|xs|, [], interval) == 0
    ensures SumPushes(xs, []) == 0 && PointGrowth(SumAddPolicy(), |xs|, []) == 0
    ensures SumQueryVisits(|xs|, []) == 0 && SumReplays([], interval) == 0 && SumDistances([]) == 0
    ensures CountNonzero([]) == 0 && CountWholeUpdates(|xs|, []) == 0 && CountWholeQueries(|xs|, []) == 0
    ensures CountLatest([]) == 0
  {
  }

  lemma {:induction false} QueryTotals(stream: seq<Operation>, xs: seq<int>, interval: nat, k: nat)
    requires xs != [] && k <= |stream|
    ensures var n, part := |xs|, stream[..k];
            && SumQueryVisits(n, part) == Sigma(k, QueryVisitsAt(stream, n))
            && SumReplays(part, interval) == Sigma(k, ReplayAt(stream, interval))
            && SumDistances(part) == Sigma(k, DistanceAt(stream))
    decreases k
  {
    hide SumQueryVisits, SumReplays, SumDistances, Visited;
    if k == 0 {
      NothingTotalled(xs, interval);
      assert stream[..0] == [];
    } else {
      var before, op := stream[..k - 1], stream[k - 1];
      assert stream[..k] == before + [op];
      QueryTotals(stream, xs, interval, k - 1);
      LatestIsLog(stream, k - 1);
      QueriesNext(before, op, |xs|, interval);
    }
  }

  lemma {:induction false} UpdateNumbers(stream: seq<Operation>, xs: seq<int>, interval: nat, k: nat)
    requires xs != [] && k <= |stream|
    ensures var n, part := |xs|, stream[..k];
            && |Log(part)| == Number(k, IsUpdate(stream)) && k - |Log(part)| == Number(k, IsQuery(stream))
            && CountNonzero(part) == Number(k, IsNonzeroUpdate(stream))
            && CountWholeUpdates(n, part) == Number(k, IsWholeUpdate(stream, n))
    decreases k
  {
    hide CountNonzero, CountWholeUpdates, Number;
    if k == 0 {
      NothingTotalled(xs, interval);
      assert stream[..0] == [];
      NumberNext(0, IsUpdate(stream));
      NumberNext(0, IsQuery(stream));
      NumberNext(0, IsNonzeroUpdate(stream));
      NumberNext(0, IsWholeUpdate(stream, |xs|));
    } else {
      var n, at, before, op := |xs|, k - 1, stream[..k - 1], stream[k - 1];
      assert stream[..k] == before + [op];
      UpdateNumbers(stream, xs, interval, at);
      StreamNext(before, op, n, interval);
      LogAfter(before, op);
      NumberNext(at, IsUpdate(stream));
      NumberNext(at, IsQuery(stream));
      NumberNext(at, IsNonzeroUpdate(stream));
      NumberNext(at, IsWholeUpdate(stream, n));
    }
  }

  lemma {:induction false} QueryNumbers(stream: seq<Operation>, xs: seq<int>, interval: nat, k: nat)
    requires xs != [] && k <= |stream|
    ensures var n, part := |xs|, stream[..k];
            && CountWholeQueries(n, part) == Number(k, IsWholeQuery(stream, n))
            && CountLatest(part) == Number(k, IsLatestQuery(stream))
    decreases k
  {
    hide CountWholeQueries, CountLatest, LatestAt, Number;
    if k == 0 {
      NothingTotalled(xs, interval);
      assert stream[..0] == [];
      NumberNext(0, IsWholeQuery(stream, |xs|));
      NumberNext(0, IsLatestQuery(stream));
    } else {
      var n, at, before, op := |xs|, k - 1, stream[..k - 1], stream[k - 1];
      assert stream[..k] == before + [op];
      QueryNumbers(stream, xs, interval, at);
      LatestIsLog(stream, at);
      QueriesNext(before, op, n, interval);
      NumberNext(at, IsWholeQuery(stream, n));
      NumberNext(at, IsLatestQuery(stream));
    }
  }

  /** Every range lies inside the array, and no query asks for a version later than the latest one at its position. */
  ghost predicate ValidByPosition(stream: seq<Operation>, size: nat) {
    forall k :: 0 <= k < |stream| ==>
      && stream[k].left <= stream[k].right < size
      && (stream[k].Query? ==> stream[k].version <= LatestAt(stream, k))
  }

  lemma {:induction false} ValidPositions(size: nat, stream: seq<Operation>)
    ensures ValidStream(size, stream) <==> ValidByPosition(stream, size)
  {
    hide LatestAt, Log;
    if stream != [] {
      var last := |stream| - 1;
      var before := stream[..last];
      ValidPositions(size, before);
      forall k | 0 <= k <= last ensures LatestAt(stream, k) == |Log(stream[..k])| {
        LatestIsLog(stream, k);
      }
      forall k | 0 <= k < last ensures before[k] == stream[k] && LatestAt(before, k) == LatestAt(stream, k) {
        LatestIsLog(before, k);
        assert before[..k] == stream[..k];
      }
      assert ValidByPosition(stream, size) ==> ValidByPosition(before, size) by {
        assert forall k :: 0 <= k < last ==> before[k] == stream[k];
      }
    }
  }

  /** The totals that the loop keeps are, field by field, the numbers and sums over the positions of the stream. */
  lemma {:induction false} TotalsByField(stream: seq<Operation>, xs: seq<int>, interval: nat)
    requires xs != []
    ensures FieldByField(Meaning(stream, xs, interval), stream, xs, interval)
  {
    hide Sigma, LatestAt, SumVisits, SumPushes, PointGrowth, SumCheckpointVisits, SumQueryVisits, SumReplays,
         SumDistances, CountNonzero, CountWholeUpdates, CountWholeQueries, CountLatest, Log, VisitsAt, PushesAt,
         CheckpointVisitsAt, IntersectingAt, QueryVisitsAt, ReplayAt, DistanceAt, SumAddPolicy, Number, IsUpdate,
         IsNonzeroUpdate, IsQuery, IsWholeUpdate, IsWholeQuery, IsLatestQuery;
    assert stream[..|stream|] == stream;
    UpdateTotals(stream, xs, interval, |stream|);
    QueryTotals(stream, xs, interval, |stream|);
    UpdateNumbers(stream, xs, interval, |stream|);
    QueryNumbers(stream, xs, interval, |stream|);
  }

  // ---------------------------------------------------------------- the loop

  /** The model's tree is the run's: an update by the identity is a step that changes nothing. */
  lemma {:induction false} SameTree(xs: seq<int>, log: seq<Entry<int>>, modelLog: seq<Entry<int>>, e: Entry<int>)
    requires xs != [] && Run(SumAddPolicy(), true, xs, modelLog) == Run(SumAddPolicy(), true, xs, log)
    ensures e.action == 0 ==> Run(SumAddPolicy(), true, xs, modelLog) == Run(SumAddPolicy(), true, xs, log + [e])
    ensures Run(SumAddPolicy(), true, xs, modelLog + [e]) == Run(SumAddPolicy(), true, xs, log + [e])
  {
    assert (log + [e])[..|log|] == log && (modelLog + [e])[..|modelLog|] == modelLog;
  }

  /** An update counted; one that adds nothing is only a version. */
  method CountUpdate(c: Counts, op: Operation, size: nat, interval: nat, latestVersion: nat,
                     pushes: PushCountingModel<int, int>, ghost before: seq<Operation>, ghost xs: seq<int>)
    returns (next: Option<Counts>)
    requires size == |xs| > 0 && op.Update? && ValidRange(size, op.left, op.right) && c == Meaning(before, xs, interval)
    requires latestVersion == |Log(before)|
    requires pushes.Valid() && pushes.policy == SumAddPolicy() && pushes.initial == xs
    requires Run(SumAddPolicy(), true, xs, pushes.log) == Run(SumAddPolicy(), true, xs, Log(before))
    requires TagsStayFit(xs, Log(before))
    modifies pushes
    ensures next.Some? <==> TagsStayFit(xs, Log(before + [op])) && Sized(Meaning(before + [op], xs, interval))
    ensures next.Some? ==> next.value == Meaning(before + [op], xs, interval) && pushes.Valid()
    ensures next.Some? ==>
              var some := if op.delta != 0 then 1 else 0;
              var visited := if op.delta != 0 then Visited(0, size - 1, op.left, op.right) else 0;
              && next.value.updates == c.updates + 1 && next.value.nonZeroUpdates == c.nonZeroUpdates + some
              && next.value.updateVisits == c.updateVisits + visited
              && next.value.checkpointUpdateVisits
                 == c.checkpointUpdateVisits
                    + (if interval != 0 && (latestVersion + 1) % interval == 0 then visited else 0)
              && next.value.intersecting
                 == c.intersecting + (if op.delta != 0 then Intersecting(0, size - 1, op.left, op.right) else 0)
              && next.value.fullCoverageUpdates
                 == c.fullCoverageUpdates + (if op.left == 0 && op.right == size - 1 then some else 0)
    ensures next.Some? ==>
              Run(SumAddPolicy(), true, xs, pushes.log) == Run(SumAddPolicy(), true, xs, Log(before + [op]))
  {
    hide Log, Total, SumVisits, SumPushes, PointGrowth, Run, PushCount, Partial, Decomposition, Intersecting,
         SumAddPolicy, HeapLayout.Laid, CountNonzero, SumCheckpointVisits, CountWholeUpdates, SumQueryVisits,
         SumReplays, SumDistances, CountWholeQueries, CountLatest, TagsStayFit, ComposesFit;
    ghost var e := Entry(op.left, op.right, op.delta);
    LogAfter(before, op);
    LogNext(Log(before), e, xs);
    TagsNext(Log(before), e, xs);
    StreamNext(before, op, size, interval);
    QueriesNext(before, op, size, interval);
    ZeroIsIdentity();
    SameTree(xs, Log(before), pushes.log, e);
    var frontier := CountFrontier(0, size - 1, op.left, op.right, FrontierCounts(0, 0));
    var visited := frontier.partial + frontier.decomposition;
    var n := c.(updates := c.updates + 1);
    if op.delta == 0 {
      return if Sized(n) then Some(n) else None;
    }
    n := n.(nonZeroUpdates := n.nonZeroUpdates + 1, updateVisits := n.updateVisits + visited);
    if interval != 0 && (latestVersion + 1) % interval == 0 {
      n := n.(checkpointUpdateVisits := n.checkpointUpdateVisits + visited);
    }
    var p := pushes.Apply(op.left, op.right, op.delta);
    if p.None? {
      return None;
    }
    var meeting := IntersectingNodes(size, op.left, op.right);
    n := n.(pushes := n.pushes + p.value, intersecting := n.intersecting + meeting.value);
    if op.left == 0 && op.right == size - 1 {
      n := n.(fullCoverageUpdates := n.fullCoverageUpdates + 1);
    }
    return if Sized(n) then Some(n) else None;
  }

  /** A query counted, with the entries its replay goes through. */
  method CountQuery(c: Counts, op: Operation, size: nat, interval: nat, latestVersion: nat,
                    ghost before: seq<Operation>, ghost xs: seq<int>)
    returns (next: Option<Counts>)
    requires size == |xs| > 0 && op.Query? && ValidRange(size, op.left, op.right) && c == Meaning(before, xs, interval)
    requires latestVersion == |Log(before)|
    ensures next.Some? <==> op.version <= latestVersion && Sized(Meaning(before + [op], xs, interval))
    ensures next.Some? ==> next.value == Meaning(before + [op], xs, interval)
    ensures next.Some? ==>
              var whole := if op.left == 0 && op.right == size - 1 then 1 else 0;
              && next.value.queries == c.queries + 1
              && next.value.queryVisits == c.queryVisits + Visited(0, size - 1, op.left, op.right)
              && next.value.queryVersionDistance == c.queryVersionDistance + (latestVersion - op.version)
              && next.value.fullCoverageQueries == c.fullCoverageQueries + whole
              && next.value.latestVersionQueries
                 == c.latestVersionQueries + (if op.version == latestVersion then 1 else 0)
              && next.value.replayEntries
                 == c.replayEntries + (if op.version == latestVersion then 0
                                       else if interval == 0 then op.version else op.version % interval)
  {
    hide Log, Total, SumVisits, SumPushes, PointGrowth, Partial, Decomposition, CountNonzero, SumCheckpointVisits,
         CountWholeUpdates, SumQueryVisits, SumReplays, SumDistances, CountWholeQueries, CountLatest, SumAddPolicy;
    LogAfter(before, op);
    StreamNext(before, op, size, interval);
    QueriesNext(before, op, size, interval);
    var frontier := CountFrontier(0, size - 1, op.left, op.right, FrontierCounts(0, 0));
    if op.version > latestVersion {
      return None;
    }
    var n := c.(queries := c.queries + 1,
                queryVisits := c.queryVisits + (frontier.partial + frontier.decomposition));
    if op.left == 0 && op.right == size - 1 {
      n := n.(fullCoverageQueries := n.fullCoverageQueries + 1);
    }
    n := n.(queryVersionDistance := n.queryVersionDistance + (latestVersion - op.version));
    if op.version == latestVersion {
      n := n.(latestVersionQueries := n.latestVersionQueries + 1);
      return if Sized(n) then Some(n) else None;
    }
    n := n.(replayEntries := n.replayEntries + if interval == 0 then op.version else op.version % interval);
    return if Sized(n) then Some(n) else None;
  }

  /** No total shrinks when an operation is added, so every prefix of a stream has representable totals if it has. */
  lemma {:induction false} PrefixSized(stream: seq<Operation>, xs: seq<int>, interval: nat, k: nat)
    requires k <= |stream| && xs != [] && Sized(Meaning(stream, xs, interval))
    ensures Sized(Meaning(stream[..k], xs, interval))
  {
    hide Meaning, Sized;
    if k < |stream| {
      var before, op := stream[..|stream| - 1], stream[|stream| - 1];
      assert stream == before + [op];
      MeaningGrows(before, op, xs, interval);
      PrefixSized(before, xs, interval, k);
      assert before[..k] == stream[..k];
    } else {
      assert stream[..k] == stream;
    }
  }

  lemma {:induction false} MeaningGrows(before: seq<Operation>, op: Operation, xs: seq<int>, interval: nat)
    requires xs != []
    ensures Sized(Meaning(before + [op], xs, interval)) ==> Sized(Meaning(before, xs, interval))
  {
    hide Log, Total, SumVisits, SumPushes, PointGrowth, Partial, Decomposition, CountNonzero, SumCheckpointVisits,
         CountWholeUpdates, SumQueryVisits, SumReplays, SumDistances, CountWholeQueries, CountLatest, SumAddPolicy,
         PushCount, Intersecting, Visited, Run, Due, ReplayLength;
    LogAfter(before, op);
    StreamNext(before, op, |xs|, interval);
    QueriesNext(before, op, |xs|, interval);
    LogNext(Log(before), Entry(op.left, op.right, if op.Update? then op.delta else 0), xs);
  }

  /** Copy-on-push applies update k of the log. */
  ghost predicate AppliedAt(xs: seq<int>, log: seq<Entry<int>>, k: nat)
    requires xs != [] && k < |log|
  {
    log[k].action != 0 ==>
      TryUpdate(SumAddPolicy(), true, Run(SumAddPolicy(), true, xs, log[..k]), 0, |xs| - 1,
                log[k].left, log[k].right, log[k].action).Some?
  }

  /** A stream whose updates copy-on-push applies, every one, is counted. */
  lemma {:induction false} AppliedIsCountable(xs: seq<int>, stream: seq<Operation>)
    requires xs != [] && ValidStream(|xs|, stream)
    requires forall k :: 0 <= k < |Log(stream)| ==> AppliedAt(xs, Log(stream), k)
    ensures Countable(xs, stream)
  {
    hide ValidStream, Run;
    StreamRanges(|xs|, stream);
    AppliedTagsFit(xs, Log(stream));
  }

  lemma {:induction false} StreamRanges(n: nat, stream: seq<Operation>)
    requires ValidStream(n, stream)
    ensures RangesIn(n, Log(stream))
  {
    if stream != [] {
      var before, op := stream[..|stream| - 1], stream[|stream| - 1];
      StreamRanges(n, before);
    }
  }

  lemma {:induction false} AppliedTagsFit(xs: seq<int>, log: seq<Entry<int>>)
    requires xs != [] && RangesIn(|xs|, log) && forall k :: 0 <= k < |log| ==> AppliedAt(xs, log, k)
    ensures TagsStayFit(xs, log)
  {
    if log != [] {
      var before, e := log[..|log| - 1], log[|log| - 1];
      forall k | 0 <= k < |before| ensures AppliedAt(xs, before, k) {
        assert before[..k] == log[..k] && AppliedAt(xs, log, k);
      }
      AppliedTagsFit(xs, before);
      assert AppliedAt(xs, log, |log| - 1);
      RunShaped(SumAddPolicy(), true, xs, before);
      hide Run, Shaped;
      ZeroIsIdentity();
      if e.action != 0 {
        hide TryUpdate, ComposesFit, AppliedAt;
        CountedWhenApplied(SumAddPolicy(), Run(SumAddPolicy(), true, xs, before), 0, |xs| - 1, e.left, e.right,
                           e.action);
      }
    }
  }

  /** A valid stream whose tags stay representable: every one of its prefixes is one. */
  ghost predicate Countable(xs: seq<int>, stream: seq<Operation>) {
    xs != [] && ValidStream(|xs|, stream) && TagsStayFit(xs, Log(stream))
  }

  lemma {:induction false} PrefixCountable(xs: seq<int>, stream: seq<Operation>, k: nat)
    requires k <= |stream| && Countable(xs, stream)
    ensures Countable(xs, stream[..k])
  {
    if k < |stream| {
      var before, op := stream[..|stream| - 1], stream[|stream| - 1];
      assert stream == before + [op];
      LogAfter(before, op);
      assert Log(stream)[..|Log(before)|] == Log(before);
      PrefixCountable(xs, before, k);
      assert before[..k] == stream[..k];
    } else {
      assert stream[..k] == stream;
    }
  }

  /** ... and so is every one of its totals. */
  ghost predicate Counted(xs: seq<int>, stream: seq<Operation>, interval: nat) {
    Countable(xs, stream) && Sized(Meaning(stream, xs, interval))
  }

  lemma {:induction false} PrefixCounted(xs: seq<int>, stream: seq<Operation>, interval: nat, k: nat)
    requires k <= |stream| && Counted(xs, stream, interval)
    ensures Counted(xs, stream[..k], interval)
  {
    hide Meaning, Sized, ValidStream, TagsStayFit;
    PrefixCountable(xs, stream, k);
    PrefixSized(stream, xs, interval, k);
  }

  /** Where the loop stands after a valid prefix: its totals, the latest version, the tags of copy-on-push. */
  ghost predicate InStep(
      c: Counts, before: seq<Operation>, xs: seq<int>, interval: nat, latestVersion: nat,
      pushes: PushCountingModel<int, int>)
    reads pushes
  {
    && CountsOf(c, before, xs, interval) && Counted(xs, before, interval)
    && latestVersion == |Log(before)|
    && pushes.Valid() && pushes.policy == SumAddPolicy() && pushes.initial == xs
    && Run(SumAddPolicy(), true, xs, pushes.log) == Run(SumAddPolicy(), true, xs, Log(before))
  }

  /** One operation counted. */
  method CountOne(c: Counts, op: Operation, size: nat, interval: nat, latestVersion: nat,
                  pushes: PushCountingModel<int, int>, ghost before: seq<Operation>, ghost xs: seq<int>)
    returns (next: Option<Counts>)
    requires size == |xs| && InStep(c, before, xs, interval, latestVersion, pushes)
    modifies pushes
    ensures next.Some? <==> Counted(xs, before + [op], interval)
    ensures next.Some? ==>
              InStep(next.value, before + [op], xs, interval, latestVersion + (if op.Update? then 1 else 0), pushes)
  {
    hide Meaning, Log, Run, ValidStream, SumAddPolicy, HeapLayout.Laid, TagsStayFit;
    LogAfter(before, op);
    ValidNext(size, before + [op], |before|);
    assert (before + [op])[..|before|] == before && (before + [op])[..|before| + 1] == before + [op];
    if !ValidRange(size, op.left, op.right) {
      return None;
    }
    if op.Update? {
      next := CountUpdate(c, op, size, interval, latestVersion, pushes, before, xs);
    } else {
      next := CountQuery(c, op, size, interval, latestVersion, before, xs);
    }
  }

  /**
   `structuralCounts`: one pass over the stream; each total means what `Meaning` says, for every array of that size.  It
   fails exactly on an invalid stream, when a tag of copy-on-push would not be representable, or when a total is no
   size.
   */
  method Count(stream: seq<Operation>, size: nat, interval: nat, ghost xs: seq<int>) returns (counts: Option<Counts>)
    requires size == |xs|
    ensures counts.Some? <==> Counted(xs, stream, interval)
    ensures counts.Some? ==> CountsOf(counts.value, stream, xs, interval)
    ensures counts.Some? ==> xs != [] && FieldByField(counts.value, stream, xs, interval)
    ensures counts.Some? ==> ValidByPosition(stream, size)
  {
    if size == 0 {
      return None;
    }
    ValidPositions(size, stream);
    hide InStep, Log, ValidStream, ValidByPosition, TagsStayFit, Meaning, FieldByField;
    TotalsByField(stream, xs, interval);
    var pushes := new PushCountingModel<int, int>(SumAddPolicy(), size, xs);
    NothingCounted(xs, interval, pushes);
    assert stream[..0] == [];
    counts := CountRest(ZERO, stream, size, interval, pushes, xs);
  }

  /** The loop. */
  method CountRest(zero: Counts, stream: seq<Operation>, size: nat, interval: nat, pushes: PushCountingModel<int, int>,
                   ghost xs: seq<int>)
    returns (counts: Option<Counts>)
    requires size == |xs| && InStep(zero, stream[..0], xs, interval, 0, pushes)
    modifies pushes
    ensures counts.Some? <==> Counted(xs, stream, interval)
    ensures counts.Some? ==> CountsOf(counts.value, stream, xs, interval)
  {
    hide InStep, CountsOf, Log, Counted;
    var c, latestVersion, k := zero, 0, 0;
    while k < |stream|
      invariant k <= |stream| && InStep(c, stream[..k], xs, interval, latestVersion, pushes)
    {
      var op := stream[k];
      assert stream[..k + 1] == stream[..k] + [op];
      var next := CountOne(c, op, size, interval, latestVersion, pushes, stream[..k], xs);
      if next.None? {
        if Counted(xs, stream, interval) {
          PrefixCounted(xs, stream, interval, k + 1);
        }
        return None;
      }
      c := next.value;
      latestVersion := latestVersion + if op.Update? then 1 else 0;
      k := k + 1;
    }
    assert stream[..k] == stream;
    LastStep(c, stream, xs, interval, latestVersion, pushes);
    return Some(c);
  }

  lemma NothingCounted(xs: seq<int>, interval: nat, pushes: PushCountingModel<int, int>)
    requires xs != [] && pushes.Valid() && pushes.policy == SumAddPolicy() && pushes.initial == xs && pushes.log == []
    ensures InStep(ZERO, [], xs, interval, 0, pushes)
  {
    hide Run, HeapLayout.Laid;
  }

  lemma LastStep(
      c: Counts, stream: seq<Operation>, xs: seq<int>, interval: nat, latestVersion: nat,
      pushes: PushCountingModel<int, int>)
    requires InStep(c, stream, xs, interval, latestVersion, pushes)
    ensures CountsOf(c, stream, xs, interval) && Counted(xs, stream, interval)
  {
    hide CountsOf, Counted, Run, HeapLayout.Laid;
  }
}
