/**
 The counts of a stream against the structures themselves (bench/analysis/confirm.py:478-508): every structure goes
 through the stream, and its arena growth, or its replayed log entries, are what the counts say.
 */
module StreamRuns {
  import opened Wrappers
  import opened Canonical
  import opened Checked
  import opened Policies
  import opened TagTrees
  import opened Histories
  import opened CheckedUpdates
  import opened SumAdd
  import opened RangeSum
  import opened NumericDomain
  import opened Acceptance
  import opened AcceptedRuns
  import opened PushCounting
  import opened PolicyTrees
  import opened GuardedTrees
  import opened PointTrees
  import opened PointSums
  import opened Checkpoints
  import opened StructuralCounts

  /** A stream over an array, every element and delta of which is a word. */
  predicate Runnable(values: seq<int>, stream: seq<Operation>) {
    && values != [] && (forall i :: 0 <= i < |values| ==> Fits(values[i]))
    && ValidStream(|values|, stream)
    && forall k :: 0 <= k < |stream| && stream[k].Update? ==> Fits(stream[k].delta)
  }

  /** What the next operation of a runnable stream is. */
  lemma {:induction false} NextOperation(values: seq<int>, stream: seq<Operation>, k: nat)
    requires Runnable(values, stream) && k < |stream|
    ensures var op, log := stream[k], Log(stream[..k]);
            && ValidRange(|values|, op.left, op.right)
            && (op.Update? ==> Fits(op.delta) && Log(stream[..k + 1]) == log + [Entry(op.left, op.right, op.delta)])
            && (op.Query? ==> op.version <= |log| && Log(stream[..k + 1]) == log)
    ensures stream[..k + 1] == stream[..k] + [stream[k]]
  {
    assert stream[..k + 1] == stream[..k] + [stream[k]];
    LogAfter(stream[..k], stream[k]);
    ValidPrefix(|values|, stream, k);
    ValidPrefix(|values|, stream, k + 1);
    ValidNext(|values|, stream, k);
  }

  lemma {:induction false} ValidPrefix(n: nat, stream: seq<Operation>, k: nat)
    requires k <= |stream| && ValidStream(n, stream)
    ensures ValidStream(n, stream[..k])
  {
    if k < |stream| {
      var before := stream[..|stream| - 1];
      ValidPrefix(n, before, k);
      assert before[..k] == stream[..k];
    } else {
      assert stream[..k] == stream;
    }
  }

  /** An update that copy-on-push accepts keeps the tags countable. */
  lemma {:induction false} AcceptedTagsFit(xs: seq<int>, log: seq<Entry<int>>, bound: nat, e: Entry<int>)
    requires RangesIn(|xs|, log) && ValidRange(|xs|, e.left, e.right)
    requires Accepted(true, xs, log, bound, e.left, e.right, e.action)
    requires TagsStayFit(xs, log)
    ensures TagsStayFit(xs, log + [e])
  {
    hide Run, TryUpdate, ComposesFit, OperationsFit, GuardAccepts, TagsStayFit;
    TagsNext(log, e, xs);
    if e.action != 0 {
      UpdateDecides(true, xs, log, e.left, e.right, e.action);
      RunShaped(SumAddPolicy(), true, xs, log);
      CountedWhenApplied(SumAddPolicy(), Run(SumAddPolicy(), true, xs, log), 0, |xs| - 1, e.left, e.right, e.action);
    }
  }

  /** The log of a prefix is a prefix of the log. */
  lemma {:induction false} LogPrefix(stream: seq<Operation>, k: nat)
    requires k <= |stream|
    ensures Log(stream[..k]) <= Log(stream)
  {
    if k < |stream| {
      var before := stream[..|stream| - 1];
      LogPrefix(before, k);
      assert before[..k] == stream[..k];
    } else {
      assert stream[..k] == stream;
    }
  }

  /** Where the whole stream goes through, so does every prefix. */
  lemma {:induction false} GoesThrough(push: bool, values: seq<int>, stream: seq<Operation>, k: nat)
    requires k <= |stream|
    ensures BoundAfter(push, values, Log(stream)).Some? ==> BoundAfter(push, values, Log(stream[..k])).Some?
  {
    hide BoundAfter, Log;
    LogPrefix(stream, k);
    assert Log(stream)[..|Log(stream[..k])|] == Log(stream[..k]);
    if BoundAfter(push, values, Log(stream)).Some? {
      PrefixGoes(push, values, Log(stream), |Log(stream[..k])|);
    }
  }

  /** The growth of a path-copying tree over a stream, which it goes through exactly when every update is accepted. */
  method GrowTree(stream: seq<Operation>, values: seq<int>, push: bool) returns (growth: Option<nat>)
    requires Runnable(values, stream)
    ensures growth.Some? <==> BoundAfter(push, values, Log(stream)).Some?
    ensures growth.Some? ==> growth.value == RunGrowth(SumAddPolicy(), push, values, Log(stream))
    ensures growth.Some? && push ==> Countable(values, stream)
  {
    hide Runnable, Guarded, PolicyTrees.Coherent, Accepted, Commits, RunGrowth, Log, CanonicalSumsFit, TagsStayFit,
         ArrayAfter, ProposalFits, BoundAfter, Largest;
    var tree := new SumAddSegmentTree(push);
    RunnableParts(values, stream);
    var built := tree.Initialize(values, false);
    assert stream[..0] == [];
    NothingLogged(values);
    BoundInitially(push, values, tree.magnitudeBound);
    if !built {
      GoesThrough(push, values, stream, 0);
      return None;
    }
    var k := 0;
    while k < |stream|
      invariant k <= |stream| && tree.Valid() && tree.tree.push == push && tree.tree.roots != []
      invariant tree.tree.initial == values && tree.tree.log == Log(stream[..k])
      invariant BoundAfter(push, values, Log(stream[..k])) == Some(tree.magnitudeBound)
      invariant push ==> TagsStayFit(values, Log(stream[..k]))
    {
      var op := stream[k];
      NextOperation(values, stream, k);
      tree.tree.Facts();
      if op.Update? {
        ghost var log, bound := tree.tree.log, tree.magnitudeBound;
        var version := tree.RangeAdd(op.left, op.right, op.delta, false);
        BoundNext(push, values, log, Entry(op.left, op.right, op.delta), tree.magnitudeBound);
        if version.None? {
          GoesThrough(push, values, stream, k + 1);
          return None;
        }
        CommitsSum(values, log, bound, op.left, op.right, op.delta, tree.magnitudeBound);
        if push {
          AcceptedTagsFit(values, log, bound, Entry(op.left, op.right, op.delta));
        }
      }
      k := k + 1;
    }
    assert stream[..k] == stream;
    var nodes := tree.tree.NodeCount();
    return Some(nodes - (2 * |values| - 1));
  }

  /** What the tree commits, over the array its update leaves. */
  lemma {:induction false} CommitsSum(
      xs: seq<int>, log: seq<Entry<int>>, bound: nat, l: nat, r: nat, value: int, next: nat)
    requires if value == 0 then next == bound
             else Committed(bound, value, ArrayAfter(xs, log + [Entry(l, r, value)]), next)
    ensures Commits(xs, log, bound, l, r, value, next)
  {
    hide Committed;
    assert (log + [Entry(l, r, value)])[..|log|] == log;
  }

  lemma RunnableParts(values: seq<int>, stream: seq<Operation>)
    requires Runnable(values, stream)
    ensures values != [] && (forall i :: 0 <= i < |values| ==> Fits(values[i])) && ValidStream(|values|, stream)
  {
  }

  lemma NothingLogged(xs: seq<int>)
    requires xs != []
    ensures Log([]) == [] && TagsStayFit(xs, [])
  {
  }

  /** The plain array can be stored and admits every update of the log in its turn. */
  ghost predicate PlainlyGoes(values: seq<int>, log: seq<Entry<int>>) {
    && CanonicalSumsFit(values)
    && forall k :: 0 <= k < |log| ==> PlainlyAccepted(values, log, k)
  }

  ghost predicate PlainlyAccepted(values: seq<int>, log: seq<Entry<int>>, k: nat)
    requires k < |log|
  {
    ProposalFits(ArrayAfter(values, log[..k]), log[k].left, log[k].right, log[k].action)
  }

  /** The point-materialized tree goes through exactly the logs that the plain array does. */
  lemma {:induction false} PointsGo(values: seq<int>, log: seq<Entry<int>>)
    requires values != [] && RangesIn(|values|, log) && forall i :: 0 <= i < |values| ==> Fits(values[i])
    requires forall k :: 0 <= k < |log| ==> Fits(log[k].action)
    ensures TryPointRun(SumAddPolicy(), values, log).Some? <==> PlainlyGoes(values, log)
    ensures TryPointRun(SumAddPolicy(), values, log).Some? ==>
              forall i :: 0 <= i < |values| ==> Fits(ArrayAfter(values, log)[i])
  {
    hide CanonicalSumsFit, ProposalFits, TryGrow, TryPoint, SumAddPolicy, Sum;
    ZeroIsIdentity();
    if log == [] {
      GrownSums(values);
    } else {
      var last := |log| - 1;
      var before, e := log[..last], log[last];
      PointsGo(values, before);
      PlainPrefix(values, log);
      if TryPointRun(SumAddPolicy(), values, before).Some? {
        RefusedIsUnrepresentable(values, before, e.left, e.right, e.action);
        PointTrees.RefusedBy(SumAddPolicy(), values, before, e.left, e.right, e.action);
        ProposedElements(ArrayAfter(values, before), e.left, e.right, e.action);
      }
    }
  }

  lemma GrownSums(values: seq<int>)
    requires values != []
    ensures TryGrow(SumAddPolicy(), values, 0, |values| - 1).Some? <==> CanonicalSumsFit(values)
  {
    hide TryGrow, CanonicalSum;
    GrownHoldsSums(values, 0, |values| - 1);
  }

  lemma ProposedElements(xs: seq<int>, l: nat, r: nat, d: int)
    requires forall i :: 0 <= i < |xs| ==> Fits(xs[i])
    ensures ProposalFits(xs, l, r, d) ==> forall i :: 0 <= i < |xs| ==> Fits(AddRange(xs, l, r, d)[i])
  {
    hide CanonicalSumsFit;
  }

  lemma {:induction false} PlainPrefix(values: seq<int>, log: seq<Entry<int>>)
    requires log != []
    ensures PlainlyGoes(values, log) <==>
              PlainlyGoes(values, log[..|log| - 1]) && PlainlyAccepted(values, log, |log| - 1)
  {
    hide CanonicalSumsFit, ProposalFits, ArrayAfter;
    var before := log[..|log| - 1];
    forall k | 0 <= k < |before| ensures PlainlyAccepted(values, before, k) <==> PlainlyAccepted(values, log, k) {
      assert before[..k] == log[..k];
    }
  }

  lemma {:induction false} StreamLog(values: seq<int>, stream: seq<Operation>)
    requires Runnable(values, stream)
    ensures RangesIn(|values|, Log(stream)) && forall k :: 0 <= k < |Log(stream)| ==> Fits(Log(stream)[k].action)
  {
    StreamRanges(|values|, stream);
    DeltasFitAll(stream);
  }

  lemma {:induction false} DeltasFitAll(stream: seq<Operation>)
    requires forall k :: 0 <= k < |stream| && stream[k].Update? ==> Fits(stream[k].delta)
    ensures forall k :: 0 <= k < |Log(stream)| ==> Fits(Log(stream)[k].action)
  {
    if stream != [] {
      DeltasFitAll(stream[..|stream| - 1]);
    }
  }

  lemma {:induction false} PointPrefix(values: seq<int>, stream: seq<Operation>, k: nat)
    requires values != [] && k <= |stream|
    ensures TryPointRun(SumAddPolicy(), values, Log(stream)).Some? ==>
              TryPointRun(SumAddPolicy(), values, Log(stream[..k])).Some?
  {
    hide TryPointRun;
    LogPrefix(stream, k);
    assert Log(stream)[..|Log(stream[..k])|] == Log(stream[..k]);
    PointRunPrefix(values, Log(stream), |Log(stream[..k])|);
  }

  lemma {:induction false} PointRunPrefix(values: seq<int>, log: seq<Entry<int>>, k: nat)
    requires values != [] && k <= |log|
    ensures TryPointRun(SumAddPolicy(), values, log).Some? ==> TryPointRun(SumAddPolicy(), values, log[..k]).Some?
  {
    hide TryPoint, TryGrow, SumAddPolicy;
    if k < |log| {
      PointRunPrefix(values, log[..|log| - 1], k);
      assert log[..|log| - 1][..k] == log[..k];
    } else {
      assert log[..k] == log;
    }
  }

  lemma {:induction false} PointNext(values: seq<int>, log: seq<Entry<int>>, e: Entry<int>)
    requires values != [] && TryPointRun(SumAddPolicy(), values, log).Some?
    ensures TryPointRun(SumAddPolicy(), values, log + [e]).Some?
       <==> !PointTrees.Refused(SumAddPolicy(), values, log, e.left, e.right, e.action)
  {
    assert (log + [e])[..|log|] == log;
    hide TryPoint, TryGrow, SumAddPolicy;
  }

  /** The growth of the point-materialized tree over a stream: it goes through exactly when the plain array does. */
  method GrowPoints(stream: seq<Operation>, values: seq<int>) returns (growth: Option<nat>)
    requires Runnable(values, stream)
    ensures growth.Some? <==> PlainlyGoes(values, Log(stream))
    ensures growth.Some? ==> growth.value == PointGrowth(SumAddPolicy(), |values|, Log(stream))
  {
    hide Runnable, PointTrees.Coherent, PointTrees.Refused, PointGrowth, Log, TagsStayFit, TryGrow, NeverFails,
         TryPointRun, PlainlyGoes, SumAddPolicy;
    RunnableParts(values, stream);
    StreamLog(values, stream);
    PointsGo(values, Log(stream));
    var tree := new PointMaterializedPersistentTree<int, int>(SumAddPolicy());
    var built := tree.Initialize(values, false);
    assert stream[..0] == [];
    NothingLogged(values);
    PointInitially(values);
    if !built {
      PointPrefix(values, stream, 0);
      return None;
    }
    var k := 0;
    while k < |stream|
      invariant k <= |stream| && tree.Valid() && tree.policy == SumAddPolicy() && tree.roots != []
      invariant tree.initial == values && tree.log == Log(stream[..k])
      invariant TryPointRun(SumAddPolicy(), values, Log(stream[..k])).Some?
    {
      var op := stream[k];
      NextOperation(values, stream, k);
      tree.Facts();
      if op.Update? {
        PointNext(values, tree.log, Entry(op.left, op.right, op.delta));
        var version := tree.RangeApply(op.left, op.right, op.delta, false);
        if version.None? {
          PointPrefix(values, stream, k + 1);
          return None;
        }
      }
      k := k + 1;
    }
    assert stream[..k] == stream;
    var nodes := tree.NodeCount();
    return Some(nodes - (2 * |values| - 1));
  }

  lemma PointInitially(values: seq<int>)
    requires values != []
    ensures TryPointRun(SumAddPolicy(), values, []) == TryGrow(SumAddPolicy(), values, 0, |values| - 1)
  {
  }

  /** Every query of the first k operations is answered by the checkpointing tree of its moment. */
  ghost predicate QueriesAnswered(stream: seq<Operation>, values: seq<int>, interval: nat, k: nat) {
    && values != [] && interval > 0
    && forall i :: 0 <= i < k && i < |stream| && stream[i].Query? ==> AnsweredAt(stream, values, interval, i)
  }

  ghost predicate AnsweredAt(stream: seq<Operation>, values: seq<int>, interval: nat, i: nat)
    requires values != [] && interval > 0 && i < |stream| && stream[i].Query?
  {
    var log := Log(stream[..i]);
    stream[i].version <= |log| && Answerable(values, log, interval, stream[i].version, stream[i].left, stream[i].right)
  }

  /**
   The log entries a checkpointing tree replays over a stream, which it goes through exactly when the interval is not
   zero, every update is accepted, and every query is answered.
   */
  method ReplayStream(stream: seq<Operation>, values: seq<int>, interval: nat) returns (done: bool, ghost replayed: nat)
    requires Runnable(values, stream)
    ensures done <==>
              BoundAfter(false, values, Log(stream)).Some? && QueriesAnswered(stream, values, interval, |stream|)
    ensures done ==> replayed == SumReplays(stream, interval)
  {
    hide Runnable, Checkpoints.Coherent, Accepted, Commits, Log, CanonicalSumsFit, TagsStayFit, ArrayAfter, SumReplays,
         Answerable, EventsAfter, Sum, BoundAfter, Largest;
    replayed := 0;
    var tree := new CheckpointingSegmentTree();
    RunnableParts(values, stream);
    var built := tree.Initialize(values, interval, false);
    assert stream[..0] == [];
    NothingLogged(values);
    NothingReplayed(interval);
    BoundInitially(false, values, tree.magnitudeBound);
    if !built {
      GoesThrough(false, values, stream, 0);
      return false, 0;
    }
    var k := 0;
    while k < |stream|
      invariant k <= |stream| && tree.Valid() && tree.interval == interval > 0 && tree.checkpoints != []
      invariant tree.initial == values && tree.events == Log(stream[..k])
      invariant BoundAfter(false, values, Log(stream[..k])) == Some(tree.magnitudeBound)
      invariant QueriesAnswered(stream, values, interval, k)
      invariant replayed == SumReplays(stream[..k], interval)
    {
      var op := stream[k];
      NextOperation(values, stream, k);
      QueriesNext(stream[..k], op, |values|, interval);
      if op.Update? {
        ghost var log := tree.events;
        var version := tree.RangeAdd(op.left, op.right, op.delta, false);
        BoundNext(false, values, log, Entry(op.left, op.right, op.delta), tree.magnitudeBound);
        if version.None? {
          GoesThrough(false, values, stream, k + 1);
          return false, replayed;
        }
      } else {
        RemainderIs(op.version, interval);
        var answer, entries := tree.RangeSum(op.version, op.left, op.right);
        assert answer.Some? <==> AnsweredAt(stream, values, interval, k);
        if answer.None? {
          return false, replayed;
        }
        replayed := replayed + entries;
      }
      k := k + 1;
    }
    assert stream[..k] == stream;
    return true, replayed;
  }

  lemma NothingReplayed(interval: nat)
    ensures SumReplays([], interval) == 0
  {
  }

  /**
   The identities of the registered analysis, structure by structure: where a structure goes through the whole stream,
   what it appended, or replayed, is the count; and where copy-on-push does, the stream is counted, if its totals are
   sizes.
   */
  method CountsAreMeasured(stream: seq<Operation>, values: seq<int>, interval: nat)
    returns (counts: Option<Counts>, retained: Option<nat>, pushed: Option<nat>, points: Option<nat>, replays: bool,
             ghost replayed: nat)
    requires Runnable(values, stream)
    ensures pushed.Some? && Sized(Meaning(stream, values, interval)) ==> counts.Some?
    ensures retained.Some? <==> BoundAfter(false, values, Log(stream)).Some?
    ensures pushed.Some? <==> BoundAfter(true, values, Log(stream)).Some?
    ensures points.Some? <==> PlainlyGoes(values, Log(stream))
    ensures replays <==> retained.Some? && QueriesAnswered(stream, values, interval, |stream|)
    ensures counts.Some? && retained.Some? ==> retained.value == counts.value.updateVisits
    ensures counts.Some? && pushed.Some? ==> pushed.value == counts.value.updateVisits + 2 * counts.value.pushes
    ensures counts.Some? && points.Some? ==> points.value == counts.value.intersecting
    ensures counts.Some? && replays ==> replayed == counts.value.replayEntries
  {
    hide Runnable, Countable, RunGrowth, PointGrowth, Log, SumReplays, BoundAfter, PlainlyGoes, QueriesAnswered,
         Meaning, FieldByField, ValidByPosition, Sized;
    RunnableParts(values, stream);
    CountsPredictGrowth(stream, values, interval);
    MeaningOfReplays(stream, values, interval);
    counts := Count(stream, |values|, interval, values);
    retained := GrowTree(stream, values, false);
    pushed := GrowTree(stream, values, true);
    points := GrowPoints(stream, values);
    replays, replayed := ReplayStream(stream, values, interval);
  }

  lemma MeaningOfReplays(stream: seq<Operation>, xs: seq<int>, interval: nat)
    requires xs != []
    ensures Meaning(stream, xs, interval).replayEntries == SumReplays(stream, interval)
  {
  }
}
