/** FatNodePersistentSegmentTree (src/fat_node_persistent_segment_tree.cpp). */
module FatNodes {
  import opened Wrappers
  import opened Canonical
  import opened Policies
  import opened TagTrees
  import opened Histories
  import opened Frontier
  import opened Visits
  import opened Arenas
  import opened Placements
  import opened CheckedUpdates
  import opened Heights
  import opened Checked
  import opened SumAdd
  import opened RangeSum
  import opened SumAddRuns
  import opened NumericDomain
  import opened Acceptance
  import opened Reads

  const HISTORY_CAPACITY: nat := 3

  /** One version-stamped state of a node. */
  datatype Modification = Modification(version: nat, left: nat, right: nat, sum: int, lazy: int)

  /** The first `count` slots of a node's history. */
  datatype FatNode = FatNode(history: seq<Modification>)

  /** `stateAt`: the last state stamped at most `version`. */
  function StateAt(history: seq<Modification>, version: nat): Option<Modification> {
    if history == [] then None
    else if history[|history| - 1].version <= version then Some(history[|history| - 1])
    else StateAt(history[..|history| - 1], version)
  }

  function CellOf(state: Option<Modification>): Cell<int, int> {
    match state
    case None => Dead
    case Some(m) => Cell(m.left, m.right, m.sum, m.lazy)
  }

  /** The arena as read at one version. */
  function Slice(nodes: seq<FatNode>, version: nat): (arena: seq<Cell<int, int>>)
    ensures |arena| == |nodes|
  {
    seq(|nodes|, i requires 0 <= i < |nodes| => CellOf(StateAt(nodes[i].history, version)))
  }

  /** `latestState` */
  function LatestState(node: FatNode): Modification
    requires node.history != []
  {
    node.history[|node.history| - 1]
  }

  /** The arena as the next update reads it. */
  function Latest(nodes: seq<FatNode>): (arena: seq<Cell<int, int>>)
    ensures |arena| == |nodes|
  {
    seq(|nodes|, i requires 0 <= i < |nodes| =>
      if nodes[i].history == [] then Dead else CellOf(Some(LatestState(nodes[i]))))
  }

  /** The latest tree again, now reading how many states each node holds beyond its creation. */
  function Fill(nodes: seq<FatNode>): (arena: seq<Cell<nat, nat>>)
    ensures |arena| == |nodes|
  {
    seq(|nodes|, i requires 0 <= i < |nodes| =>
      if nodes[i].history == [] then Dead
      else Cell(LatestState(nodes[i]).left, LatestState(nodes[i]).right, |nodes[i].history| - 1, 0))
  }

  // ---------------------------------------------------------------- stamps

  ghost predicate Increasing(history: seq<Modification>) {
    forall j, k :: 0 <= j < k < |history| ==> history[j].version < history[k].version
  }

  /** Every node holds one to three states with increasing stamps, the last one at most `bound`. */
  ghost predicate Stamped(nodes: seq<FatNode>, bound: nat) {
    forall i :: 0 <= i < |nodes| ==>
      && 0 < |nodes[i].history| <= 3
      && Increasing(nodes[i].history)
      && LatestState(nodes[i]).version <= bound
  }

  /** Nodes only gained states stamped `version`, and new nodes hold nothing older. */
  ghost predicate Appended(before: seq<FatNode>, after: seq<FatNode>, version: nat) {
    && |before| <= |after|
    && (forall i :: 0 <= i < |before| ==>
          && before[i].history <= after[i].history
          && forall k :: |before[i].history| <= k < |after[i].history| ==> after[i].history[k].version == version)
    && forall i, k :: |before| <= i < |after| && 0 <= k < |after[i].history| ==> after[i].history[k].version == version
  }

  lemma {:induction false} StateAtIgnoresNewer(history: seq<Modification>, longer: seq<Modification>, version: nat)
    requires history <= longer
    requires forall k :: |history| <= k < |longer| ==> longer[k].version > version
    ensures StateAt(longer, version) == StateAt(history, version)
    decreases |longer|
  {
    if |history| < |longer| {
      StateAtIgnoresNewer(history, longer[..|longer| - 1], version);
    } else {
      assert history == longer;
    }
  }

  /** States appended to shared nodes are invisible to every older version. */
  lemma {:induction false} OlderSlicesGrow(before: seq<FatNode>, after: seq<FatNode>, version: nat, v: nat)
    requires Appended(before, after, version) && v < version
    ensures Slice(before, v) <= Slice(after, v)
  {
    forall i | 0 <= i < |before| ensures Slice(after, v)[i] == Slice(before, v)[i] {
      StateAtIgnoresNewer(before[i].history, after[i].history, v);
    }
  }

  lemma {:induction false} OlderSlicesAllGrow(before: seq<FatNode>, after: seq<FatNode>, version: nat)
    requires Appended(before, after, version)
    ensures forall v :: 0 <= v < version ==> Slice(before, v) <= Slice(after, v)
  {
    forall v | 0 <= v < version ensures Slice(before, v) <= Slice(after, v) {
      OlderSlicesGrow(before, after, version, v);
    }
  }

  /** A reader at least as new as every stamp sees the latest states. */
  lemma {:induction false} NewestSliceIsLatest(nodes: seq<FatNode>, version: nat)
    requires Stamped(nodes, version)
    ensures Slice(nodes, version) == Latest(nodes)
  {
  }

  lemma {:induction false} AppendedTransitive(a: seq<FatNode>, b: seq<FatNode>, c: seq<FatNode>, version: nat)
    requires Appended(a, b, version) && Appended(b, c, version)
    ensures Appended(a, c, version)
  {
    forall i, k | 0 <= i < |a| && |a[i].history| <= k < |c[i].history|
      ensures c[i].history[k].version == version
    {
      if k < |b[i].history| {
        assert c[i].history[k] == b[i].history[k];
      }
    }
    forall i, k | |a| <= i < |c| && 0 <= k < |c[i].history| ensures c[i].history[k].version == version {
      if i < |b| && k < |b[i].history| {
        assert c[i].history[k] == b[i].history[k];
      }
    }
  }

  // ---------------------------------------------------------------- what one update leaves

  /** No node inside [lo, hi] has been written by the update in progress. */
  ghost predicate Untouched(nodes: seq<FatNode>, labels: seq<Interval>, lo: nat, hi: nat, version: nat) {
    && |labels| == |nodes|
    && forall j :: 0 <= j < |nodes| && Inside(labels[j], lo, hi) ==>
         nodes[j].history != [] && LatestState(nodes[j]).version < version
  }

  /** The update in progress wrote only inside [lo, hi], by appending states stamped with its version. */
  ghost predicate Confined(
      before: seq<FatNode>, oldLabels: seq<Interval>, after: seq<FatNode>, labels: seq<Interval>,
      lo: nat, hi: nat, version: nat)
  {
    && |oldLabels| == |before| && |labels| == |after| && oldLabels <= labels && Proper(labels)
    && Appended(before, after, version)
    && Stamped(after, version)
    && (forall j :: 0 <= j < |before| && !Inside(labels[j], lo, hi) ==> after[j] == before[j])
    && (forall j :: |before| <= j < |after| ==> Inside(labels[j], lo, hi))
  }

  lemma {:induction false} ConfinedStart(nodes: seq<FatNode>, labels: seq<Interval>, lo: nat, hi: nat, version: nat)
    requires |labels| == |nodes| && Stamped(nodes, version) && Proper(labels)
    ensures Confined(nodes, labels, nodes, labels, lo, hi, version)
  {
  }

  lemma {:induction false} ConfinedThen(
      a: seq<FatNode>, la: seq<Interval>, b: seq<FatNode>, lb: seq<Interval>, c: seq<FatNode>, lc: seq<Interval>,
      lo: nat, hi: nat, innerLo: nat, innerHi: nat, version: nat)
    requires Confined(a, la, b, lb, lo, hi, version) && Confined(b, lb, c, lc, innerLo, innerHi, version)
    requires lo <= innerLo && innerHi <= hi
    ensures Confined(a, la, c, lc, lo, hi, version)
  {
    AppendedTransitive(a, b, c, version);
  }

  /** Writing inside both halves is writing inside the whole, and leaves the node above them as it was. */
  lemma {:induction false} ConfinedChildren(
      a: seq<FatNode>, la: seq<Interval>, b: seq<FatNode>, lb: seq<Interval>, c: seq<FatNode>, lc: seq<Interval>,
      lo: nat, hi: nat, version: nat)
    requires lo < hi
    requires Confined(a, la, b, lb, lo, Midpoint(lo, hi), version)
    requires Confined(b, lb, c, lc, Midpoint(lo, hi) + 1, hi, version)
    ensures Confined(a, la, c, lc, lo, hi, version)
    ensures forall i :: 0 <= i < |a| && la[i] == (lo, hi) ==> c[i] == a[i] && lc[i] == la[i]
    ensures Stamped(b, version) && Stamped(c, version)
  {
    assert Confined(a, la, b, lb, lo, hi, version);
    ConfinedThen(a, la, b, lb, c, lc, lo, hi, Midpoint(lo, hi) + 1, hi, version);
  }

  /** Writing inside one interval leaves a disjoint one untouched, and its trees where they were. */
  lemma {:induction false} ElsewhereUndisturbed(
      before: seq<FatNode>, oldLabels: seq<Interval>, after: seq<FatNode>, labels: seq<Interval>,
      lo: nat, hi: nat, version: nat, otherLo: nat, otherHi: nat)
    requires Confined(before, oldLabels, after, labels, lo, hi, version)
    requires hi < otherLo || otherHi < lo
    ensures AgreeInside(Latest(before), Latest(after), oldLabels, otherLo, otherHi)
    ensures AgreeInside(Fill(before), Fill(after), oldLabels, otherLo, otherHi)
    ensures Untouched(before, oldLabels, otherLo, otherHi, version) ==>
              Untouched(after, labels, otherLo, otherHi, version)
  {
  }

  // ---------------------------------------------------------------- record

  predicate Full(node: FatNode) {
    |node.history| >= HISTORY_CAPACITY
  }

  /** `record`: append the state in place, or start a fresh node with it. */
  function Recorded(nodes: seq<FatNode>, i: nat, state: Modification): seq<FatNode>
    requires i < |nodes|
  {
    if Full(nodes[i]) then nodes + [FatNode([state])]
    else nodes[i := FatNode(nodes[i].history + [state])]
  }

  function RecordedAt(nodes: seq<FatNode>, i: nat): nat
    requires i < |nodes|
  {
    if Full(nodes[i]) then |nodes| else i
  }

  ghost function RecordedLabels(nodes: seq<FatNode>, labels: seq<Interval>, i: nat): seq<Interval>
    requires i < |nodes| == |labels|
  {
    if Full(nodes[i]) then labels + [labels[i]] else labels
  }

  lemma {:induction false} RecordConfined(
      nodes: seq<FatNode>, labels: seq<Interval>, i: nat, state: Modification, version: nat)
    requires i < |nodes| == |labels| && Proper(labels) && Stamped(nodes, version)
    requires state.version == version && LatestState(nodes[i]).version < version
    ensures Confined(nodes, labels, Recorded(nodes, i, state), RecordedLabels(nodes, labels, i),
                     labels[i].0, labels[i].1, version)
  {
    RecordStamped(nodes, i, state, version);
    RecordAppends(nodes, i, state, version);
    hide Stamped, Appended, Full;
  }

  lemma {:induction false} RecordStamped(nodes: seq<FatNode>, i: nat, state: Modification, version: nat)
    requires i < |nodes| && Stamped(nodes, version)
    requires state.version == version && LatestState(nodes[i]).version < version
    ensures Stamped(Recorded(nodes, i, state), version)
  {
    var after := Recorded(nodes, i, state);
    forall j | 0 <= j < |after|
      ensures 0 < |after[j].history| <= 3 && Increasing(after[j].history)
      ensures LatestState(after[j]).version <= version
    {
      if j == i && !Full(nodes[i]) {
        var h := nodes[i].history;
        forall k | 0 <= k < |h| ensures h[k].version < version {
          assert k == |h| - 1 || h[k].version < h[|h| - 1].version;
        }
      }
    }
  }

  lemma {:induction false} RecordAppends(nodes: seq<FatNode>, i: nat, state: Modification, version: nat)
    requires i < |nodes| && state.version == version
    ensures Appended(nodes, Recorded(nodes, i, state), version)
  {
  }

  /** A record at [lo, hi] is no write inside a proper part of it. */
  lemma {:induction false} RecordElsewhere(
      nodes: seq<FatNode>, labels: seq<Interval>, i: nat, state: Modification, lo: nat, hi: nat)
    requires i < |nodes| == |labels| && !Inside(labels[i], lo, hi)
    ensures AgreeInside(Latest(nodes), Latest(Recorded(nodes, i, state)), labels, lo, hi)
    ensures AgreeInside(Fill(nodes), Fill(Recorded(nodes, i, state)), labels, lo, hi)
  {
  }

  /** Recording above two placed children places the new state above them. */
  lemma {:induction false} RecordPlaces(
      nodes: seq<FatNode>, labels: seq<Interval>, i: nat, state: Modification, lo: nat, hi: nat, u: Tree<int, int>)
    requires i < |nodes| == |labels| && labels[i] == (lo, hi) && lo <= hi && (u.Leaf? <==> lo == hi)
    requires u.agg == state.sum && u.tag == state.lazy
    requires u.Node? ==>
               && Placed(Latest(nodes), labels, state.left, u.left, lo, Midpoint(lo, hi))
               && Placed(Latest(nodes), labels, state.right, u.right, Midpoint(lo, hi) + 1, hi)
    ensures Placed(Latest(Recorded(nodes, i, state)), RecordedLabels(nodes, labels, i), RecordedAt(nodes, i), u, lo, hi)
  {
    hide Placed;
    if lo < hi {
      RecordElsewhere(nodes, labels, i, state, lo, Midpoint(lo, hi));
      RecordElsewhere(nodes, labels, i, state, Midpoint(lo, hi) + 1, hi);
    }
    PlacedAbove(Latest(nodes), labels, Latest(Recorded(nodes, i, state)), RecordedLabels(nodes, labels, i),
                state.left, state.right, RecordedAt(nodes, i), u, lo, hi);
  }

  /** ... and the node holds one more state, or is a fresh one. */
  lemma {:induction false} RecordFills(
      nodes: seq<FatNode>, labels: seq<Interval>, i: nat, state: Modification, lo: nat, hi: nat, fill: Tree<nat, nat>)
    requires i < |nodes| == |labels| && labels[i] == (lo, hi) && lo <= hi && (fill.Leaf? <==> lo == hi)
    requires 0 < |nodes[i].history| <= 3 && fill.agg == |nodes[i].history| - 1 && fill.tag == 0
    requires fill.Node? ==>
               && Placed(Fill(nodes), labels, state.left, fill.left, lo, Midpoint(lo, hi))
               && Placed(Fill(nodes), labels, state.right, fill.right, Midpoint(lo, hi) + 1, hi)
    ensures Placed(Fill(Recorded(nodes, i, state)), RecordedLabels(nodes, labels, i), RecordedAt(nodes, i),
                   Refilled(fill), lo, hi)
  {
    hide Placed;
    if lo < hi {
      RecordElsewhere(nodes, labels, i, state, lo, Midpoint(lo, hi));
      RecordElsewhere(nodes, labels, i, state, Midpoint(lo, hi) + 1, hi);
    }
    PlacedAbove(Fill(nodes), labels, Fill(Recorded(nodes, i, state)), RecordedLabels(nodes, labels, i),
                state.left, state.right, RecordedAt(nodes, i), Refilled(fill), lo, hi);
  }

  // ---------------------------------------------------------------- how full the nodes get

  /** A node's fill after one more state: one more, or a fresh node. */
  function Refilled(fill: Tree<nat, nat>): Tree<nat, nat> {
    var agg := if fill.agg + 1 >= 3 then 0 else fill.agg + 1;
    match fill
    case Leaf(_, tag) => Leaf(agg, tag)
    case Node(_, tag, left, right) => Node(agg, tag, left, right)
  }

  /** The fills after an update on [l, r]: every visited node holds one more state. */
  function FillAfter(fill: Tree<nat, nat>, lo: nat, hi: nat, l: nat, r: nat): Tree<nat, nat>
    decreases fill
  {
    if fill.Leaf? || Covered(lo, hi, l, r) then Refilled(fill)
    else
      var mid := Midpoint(lo, hi);
      var left := if l <= mid then FillAfter(fill.left, lo, mid, l, r) else fill.left;
      var right := if mid < r then FillAfter(fill.right, mid + 1, hi, l, r) else fill.right;
      Refilled(Node(fill.agg, fill.tag, left, right))
  }

  function Overflow(fill: Tree<nat, nat>): nat {
    if fill.agg + 1 >= 3 then 1 else 0
  }

  /** The arena nodes an update appends: one for each visited node that was full. */
  function Overflows(fill: Tree<nat, nat>, lo: nat, hi: nat, l: nat, r: nat): nat
    decreases fill
  {
    Overflow(fill)
    + if fill.Leaf? || Covered(lo, hi, l, r) then 0
      else
        var mid := Midpoint(lo, hi);
        (if l <= mid then Overflows(fill.left, lo, mid, l, r) else 0)
        + (if mid < r then Overflows(fill.right, mid + 1, hi, l, r) else 0)
  }

  /** Both readings of the latest tree: its records, and how full they are. */
  ghost predicate Holds(nodes: seq<FatNode>, labels: seq<Interval>, i: nat,
                        t: Tree<int, int>, fill: Tree<nat, nat>, lo: nat, hi: nat) {
    && Placed(Latest(nodes), labels, i, t, lo, hi)
    && Placed(Fill(nodes), labels, i, fill, lo, hi)
  }

  /** A tree outside the written interval is carried over. */
  lemma {:induction false} CarryOver(
      before: seq<FatNode>, oldLabels: seq<Interval>, after: seq<FatNode>, labels: seq<Interval>,
      lo: nat, hi: nat, version: nat, i: nat, t: Tree<int, int>, fill: Tree<nat, nat>, otherLo: nat, otherHi: nat)
    requires Confined(before, oldLabels, after, labels, lo, hi, version)
    requires (hi < otherLo || otherHi < lo) && Holds(before, oldLabels, i, t, fill, otherLo, otherHi)
    ensures Holds(after, labels, i, t, fill, otherLo, otherHi)
    ensures Untouched(before, oldLabels, otherLo, otherHi, version) ==>
              Untouched(after, labels, otherLo, otherHi, version)
  {
    ElsewhereUndisturbed(before, oldLabels, after, labels, lo, hi, version, otherLo, otherHi);
    PlacedAgrees(Latest(before), oldLabels, Latest(after), labels, i, t, otherLo, otherHi, otherLo, otherHi);
    PlacedAgrees(Fill(before), oldLabels, Fill(after), labels, i, fill, otherLo, otherHi, otherLo, otherHi);
  }

  lemma {:induction false} ConfinedFacts(
      before: seq<FatNode>, oldLabels: seq<Interval>, after: seq<FatNode>, labels: seq<Interval>,
      lo: nat, hi: nat, version: nat)
    requires Confined(before, oldLabels, after, labels, lo, hi, version)
    ensures Stamped(after, version) && Proper(labels) && |labels| == |after|
    ensures Appended(before, after, version)
  {
  }

  /** What a held, untouched node offers a partial descent. */
  lemma {:induction false} HeldChildren(
      nodes: seq<FatNode>, labels: seq<Interval>, i: nat, t: Tree<int, int>, fill: Tree<nat, nat>, lo: nat, hi: nat,
      version: nat)
    requires Holds(nodes, labels, i, t, fill, lo, hi) && lo < hi && Untouched(nodes, labels, lo, hi, version)
    requires Stamped(nodes, version)
    ensures t.Node? && fill.Node? && i < |nodes| == |labels| && labels[i] == (lo, hi)
    ensures var current, mid := LatestState(nodes[i]), Midpoint(lo, hi);
            && Holds(nodes, labels, current.left, t.left, fill.left, lo, mid)
            && Holds(nodes, labels, current.right, t.right, fill.right, mid + 1, hi)
            && current.version < version && current.lazy == t.tag && |nodes[i].history| - 1 == fill.agg
            && fill.tag == 0
    ensures Untouched(nodes, labels, lo, Midpoint(lo, hi), version)
    ensures Untouched(nodes, labels, Midpoint(lo, hi) + 1, hi, version)
  {
  }

  function FillIfMet(fill: Tree<nat, nat>, lo: nat, hi: nat, l: nat, r: nat): Tree<nat, nat> {
    if Meets(lo, hi, l, r) then FillAfter(fill, lo, hi, l, r) else fill
  }

  function OverflowsIfMet(fill: Tree<nat, nat>, lo: nat, hi: nat, l: nat, r: nat): nat {
    if Meets(lo, hi, l, r) then Overflows(fill, lo, hi, l, r) else 0
  }

  lemma {:induction false} HeldNode(
      nodes: seq<FatNode>, labels: seq<Interval>, i: nat, t: Tree<int, int>, fill: Tree<nat, nat>, lo: nat, hi: nat,
      version: nat)
    requires Holds(nodes, labels, i, t, fill, lo, hi) && Stamped(nodes, version)
    ensures i < |nodes| && i < |labels| && nodes[i].history != [] && labels[i] == (lo, hi) && lo <= hi
  {
  }

  /** The fills and the tree of an update at a covered node. */
  lemma {:induction false} CoveredCase(
      t: Tree<int, int>, fill: Tree<nat, nat>, lo: nat, hi: nat, l: nat, r: nat, value: int)
    requires Covered(lo, hi, l, r)
    ensures TryUpdate(SumAddPolicy(), false, t, lo, hi, l, r, value)
         == TryStamp(SumAddPolicy(), value, t, Length(lo, hi))
    ensures FillAfter(fill, lo, hi, l, r) == Refilled(fill) && Overflows(fill, lo, hi, l, r) == Overflow(fill)
  {
  }

  /** Whether a node overflows depends on the node alone. */
  lemma {:induction false} RefilledSame(fill: Tree<nat, nat>, left: Tree<nat, nat>, right: Tree<nat, nat>)
    requires fill.Node?
    ensures Overflow(Node(fill.agg, fill.tag, left, right)) == Overflow(fill)
  {
  }

  /** The fills of an update unfolded at a partially covered node. */
  lemma {:induction false} PartialFill(fill: Tree<nat, nat>, lo: nat, hi: nat, l: nat, r: nat)
    requires fill.Node? && lo < hi && Meets(lo, hi, l, r) && !Covered(lo, hi, l, r)
    ensures FillAfter(fill, lo, hi, l, r)
         == Refilled(Node(fill.agg, fill.tag, FillIfMet(fill.left, lo, Midpoint(lo, hi), l, r),
                          FillIfMet(fill.right, Midpoint(lo, hi) + 1, hi, l, r)))
    ensures Overflows(fill, lo, hi, l, r)
         == Overflow(fill)
            + OverflowsIfMet(fill.left, lo, Midpoint(lo, hi), l, r)
            + OverflowsIfMet(fill.right, Midpoint(lo, hi) + 1, hi, l, r)
  {
  }

  // ---------------------------------------------------------------- whole runs

  /** How full the latest nodes are after a log of updates. */
  function FillRun(n: nat, log: seq<Entry<int>>): Tree<nat, nat>
    requires n > 0
  {
    if log == [] then Zeros(0, n - 1)
    else
      var before, e := FillRun(n, log[..|log| - 1]), log[|log| - 1];
      if e.action == 0 then before else FillAfter(before, 0, n - 1, e.left, e.right)
  }

  /** The arena after a log of updates: the build and one node for every overflow. */
  function NodesRun(n: nat, log: seq<Entry<int>>): nat
    requires n > 0
  {
    if log == [] then 2 * n - 1
    else
      var before, e := log[..|log| - 1], log[|log| - 1];
      NodesRun(n, before)
      + if e.action == 0 then 0 else Overflows(FillRun(n, before), 0, n - 1, e.left, e.right)
  }

  /** Each node of the subtree has filled to its visits modulo 3: every third state went to a fresh node. */
  ghost predicate FilledBy(
      fill: Tree<nat, nat>, log: seq<Entry<int>>, above: nat, below: nat, lo: nat, hi: nat)
    decreases fill
  {
    && lo <= hi && (fill.Leaf? <==> lo == hi)
    && fill.agg == VisitsTo(log, above, below, lo, hi) % 3
    && (fill.Node? ==>
          && FilledBy(fill.left, log, lo, hi, lo, Midpoint(lo, hi))
          && FilledBy(fill.right, log, lo, hi, Midpoint(lo, hi) + 1, hi))
  }

  /** An update that does not reach the subtree fills nothing there. */
  lemma {:induction false} FillUnvisited(
      fill: Tree<nat, nat>, log: seq<Entry<int>>, e: Entry<int>, above: nat, below: nat, lo: nat, hi: nat)
    requires FilledBy(fill, log, above, below, lo, hi) && above <= lo && hi <= below
    requires e.action == 0 || !Meets(lo, hi, e.left, e.right) || Covered(above, below, e.left, e.right)
    ensures FilledBy(fill, log + [e], above, below, lo, hi)
    ensures Thirds(log + [e], above, below, lo, hi) == Thirds(log, above, below, lo, hi)
    decreases fill
  {
    hide VisitsTo;
    VisitsNext(log, e, above, below, lo, hi);
    if fill.Node? {
      FillUnvisited(fill.left, log, e, lo, hi, lo, Midpoint(lo, hi));
      FillUnvisited(fill.right, log, e, lo, hi, Midpoint(lo, hi) + 1, hi);
    }
  }

  /** One that does fills every node it visits by one, and overflows exactly where a third state arrives. */
  lemma {:induction false} FillVisited(
      fill: Tree<nat, nat>, log: seq<Entry<int>>, e: Entry<int>, above: nat, below: nat, lo: nat, hi: nat)
    requires FilledBy(fill, log, above, below, lo, hi) && above <= lo && hi <= below && e.left <= e.right
    requires e.action != 0 && Meets(lo, hi, e.left, e.right) && !Covered(above, below, e.left, e.right)
    ensures FilledBy(FillAfter(fill, lo, hi, e.left, e.right), log + [e], above, below, lo, hi)
    ensures Thirds(log + [e], above, below, lo, hi)
         == Thirds(log, above, below, lo, hi) + Overflows(fill, lo, hi, e.left, e.right)
    decreases fill, 0
  {
    hide VisitsTo;
    VisitsNext(log, e, above, below, lo, hi);
    ThirdOne(VisitsTo(log, above, below, lo, hi));
    if fill.Node? {
      FillBelow(fill.left, log, e, lo, hi, lo, Midpoint(lo, hi));
      FillBelow(fill.right, log, e, lo, hi, Midpoint(lo, hi) + 1, hi);
    }
  }

  lemma {:induction false} FillBelow(
      fill: Tree<nat, nat>, log: seq<Entry<int>>, e: Entry<int>, above: nat, below: nat, lo: nat, hi: nat)
    requires FilledBy(fill, log, above, below, lo, hi) && above <= lo && hi <= below
    requires e.action != 0 && e.left <= e.right
    ensures var entered := Meets(lo, hi, e.left, e.right) && !Covered(above, below, e.left, e.right);
            && FilledBy(if entered then FillAfter(fill, lo, hi, e.left, e.right) else fill, log + [e],
                        above, below, lo, hi)
            && Thirds(log + [e], above, below, lo, hi)
               == Thirds(log, above, below, lo, hi)
                  + if entered then Overflows(fill, lo, hi, e.left, e.right) else 0
    decreases fill, 1
  {
    if Meets(lo, hi, e.left, e.right) && !Covered(above, below, e.left, e.right) {
      FillVisited(fill, log, e, above, below, lo, hi);
    } else {
      FillUnvisited(fill, log, e, above, below, lo, hi);
    }
  }

  lemma ThirdOne(m: nat)
    ensures (m + 1) / 3 == m / 3 + if m % 3 + 1 >= 3 then 1 else 0
    ensures (m + 1) % 3 == if m % 3 + 1 >= 3 then 0 else m % 3 + 1
  {
  }

  /**
   The arena after any run holds exactly 2n - 1 nodes plus the sum over the canonical nodes v of floor(m_v / 3), m_v the
   nonzero updates that visited v, and the latest node of v holds m_v mod 3 states beyond its creation.
   */
  lemma {:induction false} ArenaIsThirds(n: nat, log: seq<Entry<int>>)
    requires n > 0 && RangesIn(n, log)
    ensures FilledBy(FillRun(n, log), log, 0, n, 0, n - 1)
    ensures NodesRun(n, log) == 2 * n - 1 + Thirds(log, 0, n, 0, n - 1)
  {
    hide VisitsTo, Thirds, FilledBy, FillAfter, Overflows;
    if log == [] {
      ZerosAreEmpty(0, n, 0, n - 1);
      NothingVisited(0, n, 0, n - 1);
    } else {
      var before, e := log[..|log| - 1], log[|log| - 1];
      assert log == before + [e];
      ArenaIsThirds(n, before);
      if e.action == 0 {
        FillUnvisited(FillRun(n, before), before, e, 0, n, 0, n - 1);
      } else {
        FillVisited(FillRun(n, before), before, e, 0, n, 0, n - 1);
      }
    }
  }

  lemma {:induction false} ZerosAreEmpty(above: nat, below: nat, lo: nat, hi: nat)
    requires lo <= hi
    ensures FilledBy(Zeros(lo, hi), [], above, below, lo, hi)
    decreases Length(lo, hi)
  {
    if lo < hi {
      ZerosAreEmpty(lo, hi, lo, Midpoint(lo, hi));
      ZerosAreEmpty(lo, hi, Midpoint(lo, hi) + 1, hi);
    }
  }

  /** Every root, read at its version, stands for the tree its prefix of the log produces. */
  ghost predicate Published(
      xs: seq<int>, log: seq<Entry<int>>, nodes: seq<FatNode>, labels: seq<Interval>, roots: seq<nat>)
  {
    && xs != []
    && |roots| == |log| + 1
    && forall v :: 0 <= v < |roots| ==>
         Placed(Slice(nodes, v), labels, roots[v], Run(SumAddPolicy(), false, xs, log[..v]), 0, |xs| - 1)
  }

  /** One more root after appending states: the older versions read what they read. */
  lemma {:induction false} PublishOne(
      xs: seq<int>, log: seq<Entry<int>>, nodes: seq<FatNode>, labels: seq<Interval>, roots: seq<nat>,
      after: seq<FatNode>, labels': seq<Interval>, newRoot: nat, e: Entry<int>)
    requires Published(xs, log, nodes, labels, roots) && |labels| == |nodes|
    requires Appended(nodes, after, |roots|) && labels <= labels' && Stamped(after, |roots|)
    requires Placed(Latest(after), labels', newRoot,
                    Step(SumAddPolicy(), false, Run(SumAddPolicy(), false, xs, log), |xs| - 1, e), 0, |xs| - 1)
    ensures Published(xs, log + [e], after, labels', roots + [newRoot])
  {
    hide SumAddPolicy, Run, Step, Placed, Slice, Latest, Appended, Stamped;
    var p := SumAddPolicy();
    var log', roots' := log + [e], roots + [newRoot];
    RunNext(xs, log, e);
    forall v | 0 <= v < |roots'|
      ensures Placed(Slice(after, v), labels', roots'[v], Run(p, false, xs, log'[..v]), 0, |xs| - 1)
    {
      if v < |roots| {
        assert log'[..v] == log[..v];
        OlderSlicesGrow(nodes, after, |roots|, v);
        GrownAgrees(Slice(nodes, v), Slice(after, v), labels, 0, |xs| - 1);
        PlacedAgrees(Slice(nodes, v), labels, Slice(after, v), labels', roots[v], Run(p, false, xs, log[..v]),
                     0, |xs| - 1, 0, |xs| - 1);
      } else {
        assert log'[..v] == log';
        NewestSliceIsLatest(after, v);
      }
    }
  }

  /** The latest root, read as updates read it. */
  lemma {:induction false} LatestHolds(
      xs: seq<int>, log: seq<Entry<int>>, nodes: seq<FatNode>, labels: seq<Interval>, roots: seq<nat>)
    requires Published(xs, log, nodes, labels, roots) && Stamped(nodes, |log|)
    ensures var t := Run(SumAddPolicy(), false, xs, log);
            && Placed(Latest(nodes), labels, roots[|log|], t, 0, |xs| - 1)
            && Stands(Latest(nodes), roots[|log|], t)
    ensures |labels| == |nodes| ==> Untouched(nodes, labels, 0, |xs| - 1, |log| + 1)
    ensures Stamped(nodes, |log| + 1)
  {
    hide SumAddPolicy, Placed, Run;
    assert log[..|log|] == log;
    NewestSliceIsLatest(nodes, |log|);
    PlacedStands(Latest(nodes), labels, roots[|log|], Run(SumAddPolicy(), false, xs, log), 0, |xs| - 1);
  }

  /** A zero delta publishes the latest root again: at the new version it reads the same states. */
  lemma {:induction false} PublishSame(
      xs: seq<int>, log: seq<Entry<int>>, nodes: seq<FatNode>, labels: seq<Interval>, roots: seq<nat>, e: Entry<int>)
    requires Published(xs, log, nodes, labels, roots) && Stamped(nodes, |log|) && |labels| == |nodes|
    requires e.action == 0
    ensures Published(xs, log + [e], nodes, labels, roots + [roots[|roots| - 1]])
  {
    LatestHolds(xs, log, nodes, labels, roots);
    PublishOne(xs, log, nodes, labels, roots, nodes, labels, roots[|roots| - 1], e);
  }

  /** No update appends more nodes than it visits, so never more than were reserved. */
  lemma {:induction false} OverflowsWithinReservation(fill: Tree<nat, nat>, lo: nat, hi: nat, l: nat, r: nat)
    requires Shaped(fill, lo, hi) && l <= r && Meets(lo, hi, l, r)
    ensures Overflows(fill, lo, hi, l, r) <= 4 * (Height(Length(lo, hi)) + 1)
  {
    OverflowsVisited(fill, lo, hi, l, r);
    FrontierBound(lo, hi, l, r);
  }

  lemma {:induction false} OverflowsVisited(fill: Tree<nat, nat>, lo: nat, hi: nat, l: nat, r: nat)
    requires Shaped(fill, lo, hi) && Meets(lo, hi, l, r)
    ensures Overflows(fill, lo, hi, l, r) <= Visited(lo, hi, l, r)
    decreases fill
  {
    if fill.Node? && !Covered(lo, hi, l, r) {
      var mid := Midpoint(lo, hi);
      VisitedSplits(lo, hi, l, r);
      if l <= mid {
        OverflowsVisited(fill.left, lo, mid, l, r);
      }
      if mid < r {
        OverflowsVisited(fill.right, mid + 1, hi, l, r);
      }
    }
  }

  /** The whole state after a log of accepted updates. */
  ghost predicate Coherent(
      xs: seq<int>, log: seq<Entry<int>>, nodes: seq<FatNode>, labels: seq<Interval>, roots: seq<nat>,
      height: nat, bound: nat)
  {
    && xs != [] && RangesIn(|xs|, log)
    && |roots| == |log| + 1
    && height == Height(|xs|)
    && |labels| == |nodes| && Proper(labels)
    && Published(xs, log, nodes, labels, roots)
    && Stamped(nodes, |log|)
    && Placed(Fill(nodes), labels, roots[|log|], FillRun(|xs|, log), 0, |xs| - 1)
    && |nodes| == NodesRun(|xs|, log)
    && Guards(bound, ArrayAfter(xs, log))
  }

  lemma {:induction false} HeldBelow(
      before: seq<FatNode>, oldLabels: seq<Interval>, after: seq<FatNode>, labels: seq<Interval>,
      i: nat, t: Tree<int, int>, fill: Tree<nat, nat>, lo: nat, hi: nat)
    requires Holds(before, oldLabels, i, t, fill, lo, hi)
    requires before <= after && oldLabels <= labels && |oldLabels| == |before|
    ensures Holds(after, labels, i, t, fill, lo, hi)
  {
    assert Latest(before) <= Latest(after) && Fill(before) <= Fill(after);
    PlacedAgrees(Latest(before), oldLabels, Latest(after), labels, i, t, lo, hi, lo, hi);
    PlacedAgrees(Fill(before), oldLabels, Fill(after), labels, i, fill, lo, hi, lo, hi);
  }

  /** What `build` has made of [lo, hi], on top of what it started from. */
  ghost predicate Built(
      values: seq<int>, arena: seq<FatNode>, labels: seq<Interval>, nodes: seq<FatNode>, labels': seq<Interval>,
      root: nat, lo: nat, hi: nat)
    requires lo <= hi < |values|
  {
    && |labels| == |arena|
    && |nodes| == |labels'| == |arena| + 2 * (hi - lo + 1) - 1
    && arena <= nodes && labels <= labels' && Stamped(nodes, 0) && Proper(labels')
    && Holds(nodes, labels', root, Build(SumAddPolicy(), values, lo, hi), Zeros(lo, hi), lo, hi)
    && CanonicalSum(values, lo, hi) == Some(Build(SumAddPolicy(), values, lo, hi).agg)
  }

  lemma {:induction false} BuiltLeaf(values: seq<int>, arena: seq<FatNode>, labels: seq<Interval>, at: nat)
    requires at < |values| && |labels| == |arena| && Stamped(arena, 0) && Proper(labels)
    ensures Built(values, arena, labels, arena + [FatNode([Modification(0, NO_NODE, NO_NODE, values[at], 0)])],
                  labels + [(at, at)], |arena|, at, at)
  {
  }

  lemma {:induction false} FreshCells(b: seq<FatNode>, state: Modification)
    ensures var after := b + [FatNode([state])];
            && Latest(after) == Latest(b) + [Cell(state.left, state.right, state.sum, state.lazy)]
            && Fill(after) == Fill(b) + [Cell(state.left, state.right, 0, 0)]
  {
  }

  /** The node `build` appends above two built halves. */
  lemma {:induction false} BuiltNode(
      values: seq<int>, arena: seq<FatNode>, labels: seq<Interval>, a: seq<FatNode>, la: seq<Interval>, left: nat,
      b: seq<FatNode>, lb: seq<Interval>, right: nat, lo: nat, hi: nat, sum: int)
    requires lo < hi < |values|
    requires Built(values, arena, labels, a, la, left, lo, Midpoint(lo, hi))
    requires Built(values, a, la, b, lb, right, Midpoint(lo, hi) + 1, hi)
    requires CanonicalSum(values, lo, hi) == Some(sum)
    ensures Built(values, arena, labels, b + [FatNode([Modification(0, left, right, sum, 0)])], lb + [(lo, hi)],
                  |b|, lo, hi)
  {
    hide Stamped, SumAddPolicy, Build, CanonicalSum, Placed, Latest, Fill;
    var t, fill, mid := Build(SumAddPolicy(), values, lo, hi), Zeros(lo, hi), Midpoint(lo, hi);
    var after, labels' := b + [FatNode([Modification(0, left, right, sum, 0)])], lb + [(lo, hi)];
    BuildSum(values, lo, hi);
    BuildNode(values, lo, hi);
    FreshCells(b, Modification(0, left, right, sum, 0));
    HeldBelow(a, la, b, lb, left, t.left, fill.left, lo, mid);
    PlacedAbove(Latest(b), lb, Latest(after), labels', left, right, |b|, t, lo, hi);
    PlacedAbove(Fill(b), lb, Fill(after), labels', left, right, |b|, fill, lo, hi);
    StampedOneMore(b, FatNode([Modification(0, left, right, sum, 0)]));
  }

  lemma {:induction false} BuiltFacts(
      values: seq<int>, arena: seq<FatNode>, labels: seq<Interval>, nodes: seq<FatNode>, labels': seq<Interval>,
      root: nat, lo: nat, hi: nat)
    requires lo <= hi < |values| && Built(values, arena, labels, nodes, labels', root, lo, hi)
    ensures |labels'| == |nodes| && Stamped(nodes, 0) && Proper(labels') && CanonicalSum(values, lo, hi).Some?
  {
  }

  lemma {:induction false} CanonicalSumSplits(values: seq<int>, lo: nat, hi: nat)
    requires lo < hi < |values|
    ensures CanonicalSum(values, lo, hi).Some? ==>
              CanonicalSum(values, lo, Midpoint(lo, hi)).Some? && CanonicalSum(values, Midpoint(lo, hi) + 1, hi).Some?
  {
  }

  lemma {:induction false} BuiltRoot(
      values: seq<int>, arena: seq<FatNode>, labels: seq<Interval>, nodes: seq<FatNode>, labels': seq<Interval>,
      root: nat, lo: nat, hi: nat)
    requires lo <= hi < |values| && Built(values, arena, labels, nodes, labels', root, lo, hi)
    ensures arena <= nodes && root < |nodes| && nodes[root].history != []
    ensures CanonicalSum(values, lo, hi) == Some(nodes[root].history[0].sum)
  {
    hide Build, CanonicalSum, Sum, SumAddPolicy;
  }

  /** The creation sums of two built halves are their canonical sums. */
  lemma {:induction false} BuiltSums(
      values: seq<int>, arena: seq<FatNode>, labels: seq<Interval>, a: seq<FatNode>, la: seq<Interval>, left: nat,
      b: seq<FatNode>, lb: seq<Interval>, right: nat, lo: nat, hi: nat)
    requires lo < hi < |values|
    requires Built(values, arena, labels, a, la, left, lo, Midpoint(lo, hi))
    requires Built(values, a, la, b, lb, right, Midpoint(lo, hi) + 1, hi)
    ensures CanonicalSum(values, lo, Midpoint(lo, hi)).Some? && CanonicalSum(values, Midpoint(lo, hi) + 1, hi).Some?
    ensures left < |b| && right < |b| && b[left].history != [] && b[right].history != []
    ensures CanonicalSum(values, lo, hi)
         == SumAddPolicy().TryCombine(b[left].history[0].sum, b[right].history[0].sum)
  {
    hide Built, CanonicalSum, Sum;
    BuiltRoot(values, arena, labels, a, la, left, lo, Midpoint(lo, hi));
    BuiltRoot(values, a, la, b, lb, right, Midpoint(lo, hi) + 1, hi);
    CanonicalSumUnfolds(values, lo, hi);
    assert b[left] == a[left];
  }

  lemma {:induction false} StampedOneMore(nodes: seq<FatNode>, node: FatNode)
    requires Stamped(nodes, 0) && |node.history| == 1 && node.history[0].version == 0
    ensures Stamped(nodes + [node], 0)
  {
  }

  lemma NothingStamped()
    ensures Stamped([], 0)
  {
  }

  /** A freshly built arena. */
  lemma {:induction false} CoherentInitial(
      values: seq<int>, nodes: seq<FatNode>, labels: seq<Interval>, root: nat, height: nat, bound: nat)
    requires values != [] && Built(values, [], [], nodes, labels, root, 0, |values| - 1)
    requires IsCeilLog2(height, |values|) && Guards(bound, values)
    ensures Coherent(values, [], nodes, labels, [root], height, bound)
  {
    hide SumAddPolicy, Placed, Guards;
    HeightIsCeilLog2(|values|);
    CeilLog2Unique(height, Height(|values|), |values|);
    NewestSliceIsLatest(nodes, 0);
  }

  /** What an update of the latest version starts from. */
  lemma {:induction false} CoherentStart(
      xs: seq<int>, log: seq<Entry<int>>, nodes: seq<FatNode>, labels: seq<Interval>, roots: seq<nat>,
      height: nat, bound: nat)
    requires Coherent(xs, log, nodes, labels, roots, height, bound)
    ensures xs != [] && |roots| == |log| + 1 && RangesIn(|xs|, log) && height == Height(|xs|)
    ensures |labels| == |nodes| && Proper(labels) && Published(xs, log, nodes, labels, roots)
    ensures Guards(bound, ArrayAfter(xs, log)) && |nodes| == NodesRun(|xs|, log)
    ensures Holds(nodes, labels, roots[|log|], Run(SumAddPolicy(), false, xs, log), FillRun(|xs|, log), 0, |xs| - 1)
    ensures Stands(Latest(nodes), roots[|log|], Run(SumAddPolicy(), false, xs, log))
    ensures Shaped(Run(SumAddPolicy(), false, xs, log), 0, |xs| - 1) && Shaped(FillRun(|xs|, log), 0, |xs| - 1)
    ensures Untouched(nodes, labels, 0, |xs| - 1, |log| + 1) && Stamped(nodes, |log| + 1)
  {
    hide SumAddPolicy, Placed, Run, FillRun, Guards, ArrayAfter, NodesRun, Published, Stamped, Proper, Shaped, Stands,
         Untouched;
    LatestHolds(xs, log, nodes, labels, roots);
    RunShaped(SumAddPolicy(), false, xs, log);
    PlacedStands(Fill(nodes), labels, roots[|log|], FillRun(|xs|, log), 0, |xs| - 1);
  }

  /** What a query of a published version reads. */
  lemma {:induction false} CoherentVersion(
      xs: seq<int>, log: seq<Entry<int>>, nodes: seq<FatNode>, labels: seq<Interval>, roots: seq<nat>,
      height: nat, bound: nat,
      version: nat)
    requires Coherent(xs, log, nodes, labels, roots, height, bound) && version < |roots|
    ensures version <= |log| && RangesIn(|xs|, log[..version])
    ensures var t := Run(SumAddPolicy(), false, xs, log[..version]);
            Stands(Slice(nodes, version), roots[version], t) && Shaped(t, 0, |xs| - 1)
  {
    hide Slice, Run, SumAddPolicy, Guards, Placed;
    PlacedStands(Slice(nodes, version), labels, roots[version], Run(SumAddPolicy(), false, xs, log[..version]),
                 0, |xs| - 1);
  }

  /** What an accepted nonzero update leaves. */
  lemma {:induction false} CoherentNext(
      xs: seq<int>, log: seq<Entry<int>>, nodes: seq<FatNode>, labels: seq<Interval>, roots: seq<nat>,
      height: nat, bound: nat, after: seq<FatNode>, labels': seq<Interval>, newRoot: nat, next: nat,
      e: Entry<int>, u: Tree<int, int>)
    requires Coherent(xs, log, nodes, labels, roots, height, bound)
    requires e.action != 0 && ValidRange(|xs|, e.left, e.right)
    requires Confined(nodes, labels, after, labels', 0, |xs| - 1, |log| + 1)
    requires Holds(after, labels', newRoot, u, FillAfter(FillRun(|xs|, log), 0, |xs| - 1, e.left, e.right), 0, |xs| - 1)
    requires u == Step(SumAddPolicy(), false, Run(SumAddPolicy(), false, xs, log), |xs| - 1, e)
    requires |after| == |nodes| + Overflows(FillRun(|xs|, log), 0, |xs| - 1, e.left, e.right)
    requires Guards(next, AddRange(ArrayAfter(xs, log), e.left, e.right, e.action))
    ensures Coherent(xs, log + [e], after, labels', roots + [newRoot], height, next)
  {
    hide Step, Run, FillAfter, Overflows, Guards, SumAddPolicy, Placed;
    PublishOne(xs, log, nodes, labels, roots, after, labels', newRoot, e);
    OneMore(false, xs, log, e);
    assert (log + [e])[..|log|] == log;
  }

  /** A zero delta shares the latest root. */
  lemma {:induction false} CoherentSame(
      xs: seq<int>, log: seq<Entry<int>>, nodes: seq<FatNode>, labels: seq<Interval>, roots: seq<nat>,
      height: nat, bound: nat, e: Entry<int>)
    requires Coherent(xs, log, nodes, labels, roots, height, bound)
    requires e.action == 0 && ValidRange(|xs|, e.left, e.right)
    ensures Coherent(xs, log + [e], nodes, labels, roots + [roots[|roots| - 1]], height, bound)
  {
    PublishSame(xs, log, nodes, labels, roots, e);
    OneMore(false, xs, log, e);
    LatestHolds(xs, log, nodes, labels, roots);
    assert (log + [e])[..|log|] == log;
  }

  // ---------------------------------------------------------------- the structure

  class FatNodePersistentSegmentTree {
    var nodes: seq<FatNode>
    var roots: seq<nat>
    var arraySize: nat
    var treeHeight: nat
    var magnitudeBound: nat
    /** Slots the node arena may fill without allocating. */
    var nodeCapacity: nat
    /** ... and the root list. */
    var rootCapacity: nat
    ghost var labels: seq<Interval>
    ghost var initial: seq<int>
    ghost var log: seq<Entry<int>>

    constructor ()
      ensures Valid() && roots == []
    {
      nodes, roots, labels, arraySize, treeHeight := [], [], [], 0, 0;
      magnitudeBound, nodeCapacity, rootCapacity := 0, 0, 0;
      initial, log := [], [];
    }

    /** The array of the latest version. */
    ghost function Current(): seq<int>
      reads this
    {
      ArrayAfter(initial, log)
    }

    ghost predicate Valid()
      reads this
    {
      && arraySize == |initial|
      && (roots == [] ==> arraySize == 0)
      && |nodes| <= nodeCapacity && |roots| <= rootCapacity
      && if arraySize > 0 then Coherent(initial, log, nodes, labels, roots, treeHeight, magnitudeBound)
         else log == [] && nodes == []
    }

    /** `build`: appends the 2m - 1 nodes of [lo, hi], each with its creation state. */
    static method BuildInto(values: seq<int>, arena: seq<FatNode>, ghost labels: seq<Interval>, lo: nat, hi: nat)
      returns (built: Option<(seq<FatNode>, nat)>, ghost labels': seq<Interval>)
      requires lo <= hi < |values| && |labels| == |arena| && Stamped(arena, 0) && Proper(labels)
      ensures built.Some? <==> CanonicalSum(values, lo, hi).Some?
      ensures built.Some? ==> Built(values, arena, labels, built.value.0, labels', built.value.1, lo, hi)
      decreases hi - lo
    {
      hide Built, Stamped, CanonicalSum, Build;
      labels' := labels;
      if lo == hi {
        BuiltLeaf(values, arena, labels, lo);
        var leaf := FatNode([Modification(0, NO_NODE, NO_NODE, values[lo], 0)]);
        return Some((arena + [leaf], |arena|)), labels + [(lo, hi)];
      }
      var mid := Midpoint(lo, hi);
      CanonicalSumSplits(values, lo, hi);
      var left, leftLabels := BuildInto(values, arena, labels, lo, mid);
      if left.None? {
        return None, labels';
      }
      BuiltFacts(values, arena, labels, left.value.0, leftLabels, left.value.1, lo, mid);
      var right, rightLabels := BuildInto(values, left.value.0, leftLabels, mid + 1, hi);
      if right.None? {
        return None, labels';
      }
      var nodes := right.value.0;
      BuiltSums(values, arena, labels, left.value.0, leftLabels, left.value.1, nodes, rightLabels, right.value.1,
                lo, hi);
      var sum := SumAddPolicy().TryCombine(nodes[left.value.1].history[0].sum, nodes[right.value.1].history[0].sum);
      if sum.None? {
        return None, labels';
      }
      BuiltNode(values, arena, labels, left.value.0, leftLabels, left.value.1, nodes, rightLabels, right.value.1,
                lo, hi, sum.value);
      return Some((nodes + [FatNode([Modification(0, left.value.1, right.value.1, sum.value, 0)])], |nodes|)),
             rightLabels + [(lo, hi)];
    }

    /** `initialize`: replaces the whole history, or fails and changes nothing. */
    method Initialize(values: seq<int>, mayExhaust: bool) returns (ok: bool)
      requires Valid() && forall i :: 0 <= i < |values| ==> Fits(values[i])
      modifies this
      ensures Valid()
      ensures ok ==> CanonicalSumsFit(values)
      ensures !ok ==> mayExhaust || !CanonicalSumsFit(values)
      ensures ok ==> initial == values && log == [] && |roots| == 1
      ensures !ok ==> unchanged(this)
    {
      hide Coherent, CanonicalSum, Guards;
      var exhausted := Exhausted(mayExhaust);
      if exhausted {
        return false;
      }
      var bound := MaxMagnitude(values);
      GuardsInitially(values, bound);
      if values == [] {
        Install([], [], NO_NODE, [], 0, bound);
        return true;
      }
      var built, height, labels' := BuildAll(values, bound);
      if built.None? {
        return false;
      }
      Install(values, built.value.0, built.value.1, labels', height, bound);
      return true;
    }

    /** The commit of a build: every field replaced at once. */
    method Install(values: seq<int>, built: seq<FatNode>, root: nat, ghost labels': seq<Interval>, height: nat,
                   bound: nat)
      requires values == [] ==> built == []
      requires values != [] ==> Coherent(values, [], built, labels', [root], height, bound)
      modifies this
      ensures Valid() && initial == values && log == [] && roots == [root]
    {
      hide Coherent;
      nodes, roots, labels := built, [root], labels';
      initial, log, magnitudeBound, treeHeight := values, [], bound, height;
      nodeCapacity, rootCapacity := |built|, 1;
      arraySize := |values|;
    }

    /** The whole tree of a nonempty array, and its height. */
    static method BuildAll(values: seq<int>, ghost bound: nat)
      returns (built: Option<(seq<FatNode>, nat)>, height: nat, ghost labels': seq<Interval>)
      requires values != [] && Guards(bound, values)
      ensures built.Some? <==> CanonicalSumsFit(values)
      ensures built.Some? ==> Coherent(values, [], built.value.0, labels', [built.value.1], height, bound)
    {
      hide Coherent, Built, IsCeilLog2, CanonicalSum, Stamped, Guards;
      NothingStamped();
      height := 0;
      built, labels' := BuildInto(values, [], [], 0, |values| - 1);
      if built.None? {
        return;
      }
      var levels := TreeHeight(|values|);
      height := levels.value;
      CoherentInitial(values, built.value.0, labels', built.value.1, height, bound);
    }

    /** `rangeSum`: an answer is the sum over the array of the version asked for. */
    method RangeSum(version: nat, l: nat, r: nat) returns (answer: Option<int>)
      requires Valid()
      ensures answer.Some? ==> version < |roots| && ValidRange(arraySize, l, r)
      ensures answer.Some? ==> answer.value == Sum(ArrayAfter(initial, log[..version])[l..r + 1])
      ensures version < |roots| && ValidRange(arraySize, l, r) ==>
                answer == TryQuery(SumAddPolicy(), Run(SumAddPolicy(), false, initial, log[..version]),
                                   0, arraySize - 1, l, r, 0)
    {
      if version >= |roots| || !ValidRange(arraySize, l, r) {
        return None;
      }
      hide Coherent, Run, Slice, Stands, Shaped, SumAddPolicy, ArrayAfter, TryQuery;
      ghost var t := Run(SumAddPolicy(), false, initial, log[..version]);
      CoherentVersion(initial, log, nodes, labels, roots, treeHeight, magnitudeBound, version);
      CheckedAnswerIsSum(false, initial, log[..version], l, r);
      answer := QueryArena(SumAddPolicy(), Slice(nodes, version), roots[version], 0, arraySize - 1, l, r, 0, t);
    }

    /** `nodeCount`: after m_v nonzero updates visited v, the build and floor(m_v / 3) fresh nodes for every v. */
    method NodeCount() returns (count: nat)
      requires Valid()
      ensures arraySize > 0 ==> count == 2 * arraySize - 1 + Thirds(log, 0, arraySize, 0, arraySize - 1)
      ensures arraySize > 0 && WholeUpdates(arraySize, log) ==> count == 2 * arraySize - 1 + Nonzeros(log) / 3
      ensures arraySize == 0 ==> count == 0
    {
      hide Published, Stamped, Placed, Guards, NodesRun, Thirds, FilledBy, Run, FillRun, WholeUpdates;
      if arraySize > 0 {
        ArenaIsThirds(arraySize, log);
        if WholeUpdates(arraySize, log) {
          WholeThirds(arraySize, log);
        }
      }
      count := |nodes|;
    }

    /** `record` */
    method Record(i: nat, state: Modification) returns (index: nat)
      requires i < |nodes| == |labels| && (Full(nodes[i]) ==> |nodes| < nodeCapacity)
      modifies this`nodes, this`labels
      ensures nodes == Recorded(old(nodes), i, state) && index == RecordedAt(old(nodes), i)
      ensures labels == RecordedLabels(old(nodes), old(labels), i)
      ensures if |old(nodes)[i].history| < 3
              then index == i && nodes == old(nodes)[i := FatNode(old(nodes)[i].history + [state])]
              else index == |old(nodes)| && nodes == old(nodes) + [FatNode([state])]
    {
      labels := RecordedLabels(nodes, labels, i);
      if |nodes[i].history| < HISTORY_CAPACITY {
        nodes := nodes[i := FatNode(nodes[i].history + [state])];
        return i;
      }
      nodes := nodes + [FatNode([state])];
      return |nodes| - 1;
    }

    /** Full coverage: the node's sum absorbs the delta and its tag defers it for the children. */
    method UpdateCovered(i: nat, version: nat, lo: nat, hi: nat, value: int,
                         ghost t: Tree<int, int>, ghost fill: Tree<nat, nat>)
      returns (index: nat, ghost u: Tree<int, int>)
      requires Holds(nodes, labels, i, t, fill, lo, hi)
      requires Stamped(nodes, version) && Proper(labels) && Untouched(nodes, labels, lo, hi, version)
      requires TryStamp(SumAddPolicy(), value, t, Length(lo, hi)).Some?
      requires |nodes| + Overflow(fill) <= nodeCapacity
      modifies this`nodes, this`labels
      ensures Confined(old(nodes), old(labels), nodes, labels, lo, hi, version)
      ensures Holds(nodes, labels, index, u, Refilled(fill), lo, hi)
      ensures TryStamp(SumAddPolicy(), value, t, Length(lo, hi)) == Some(u)
      ensures |nodes| == |old(nodes)| + Overflow(fill)
    {
      var next := LatestState(nodes[i]);
      var sum := SumAddPolicy().TryApply(value, next.sum, Length(lo, hi));
      var lazy := SumAddPolicy().TryCompose(value, next.lazy);
      next := Modification(version, next.left, next.right, sum.value, lazy.value);
      u := Stamp(SumAddPolicy(), value, t, Length(lo, hi));
      RecordConfined(nodes, labels, i, next, version);
      RecordPlaces(nodes, labels, i, next, lo, hi, u);
      RecordFills(nodes, labels, i, next, lo, hi, fill);
      index := Record(i, next);
    }

    /** The end of a partial descent: the node's sum recomputed from its children, its tag retained. */
    method Reassemble(i: nat, state: Modification, lo: nat, hi: nat, ghost lt: Tree<int, int>, ghost rt: Tree<int, int>,
                      ghost fill: Tree<nat, nat>)
      returns (index: nat, ghost u: Tree<int, int>)
      requires lo < hi && i < |nodes| == |labels| && labels[i] == (lo, hi) && fill.Node? && fill.tag == 0
      requires Stamped(nodes, state.version) && Proper(labels)
      requires LatestState(nodes[i]).version < state.version && |nodes[i].history| - 1 == fill.agg
      requires Holds(nodes, labels, state.left, lt, fill.left, lo, Midpoint(lo, hi))
      requires Holds(nodes, labels, state.right, rt, fill.right, Midpoint(lo, hi) + 1, hi)
      requires TryJoin(SumAddPolicy(), state.lazy, lt, rt, Length(lo, hi)).Some?
      requires |nodes| + Overflow(fill) <= nodeCapacity
      modifies this`nodes, this`labels
      ensures Confined(old(nodes), old(labels), nodes, labels, lo, hi, state.version)
      ensures Holds(nodes, labels, index, u, Refilled(fill), lo, hi)
      ensures TryJoin(SumAddPolicy(), state.lazy, lt, rt, Length(lo, hi)) == Some(u)
      ensures |nodes| == |old(nodes)| + Overflow(fill)
    {
      var children := SumAddPolicy().TryCombine(LatestState(nodes[state.left]).sum,
                                                LatestState(nodes[state.right]).sum);
      var sum := SumAddPolicy().TryApply(state.lazy, children.value, Length(lo, hi));
      var next := state.(sum := sum.value);
      u := Node(sum.value, state.lazy, lt, rt);
      RecordConfined(nodes, labels, i, next, state.version);
      RecordPlaces(nodes, labels, i, next, lo, hi, u);
      RecordFills(nodes, labels, i, next, lo, hi, fill);
      index := Record(i, next);
    }

    /** The guard of a recursive call. */
    method Descend(i: nat, version: nat, lo: nat, hi: nat, l: nat, r: nat, value: int,
                   ghost t: Tree<int, int>, ghost fill: Tree<nat, nat>)
      returns (index: nat, ghost u: Tree<int, int>)
      requires Holds(nodes, labels, i, t, fill, lo, hi)
      requires Stamped(nodes, version) && Proper(labels) && Untouched(nodes, labels, lo, hi, version)
      requires TryIfMet(t, lo, hi, l, r, value).Some?
      requires |nodes| + OverflowsIfMet(fill, lo, hi, l, r) <= nodeCapacity
      modifies this`nodes, this`labels
      ensures Confined(old(nodes), old(labels), nodes, labels, lo, hi, version)
      ensures Holds(nodes, labels, index, u, FillIfMet(fill, lo, hi, l, r), lo, hi)
      ensures TryIfMet(t, lo, hi, l, r, value) == Some(u)
      ensures |nodes| == |old(nodes)| + OverflowsIfMet(fill, lo, hi, l, r)
      decreases hi - lo, 2
    {
      if Meets(lo, hi, l, r) {
        index, u := Update(i, version, lo, hi, l, r, value, t, fill);
      } else {
        ConfinedStart(nodes, labels, lo, hi, version);
        index, u := i, t;
      }
    }

    /** `update`: the arithmetic cannot fail and the arena cannot reallocate, both having been checked before. */
    method Update(i: nat, version: nat, lo: nat, hi: nat, l: nat, r: nat, value: int,
                  ghost t: Tree<int, int>, ghost fill: Tree<nat, nat>)
      returns (index: nat, ghost u: Tree<int, int>)
      requires Holds(nodes, labels, i, t, fill, lo, hi) && Meets(lo, hi, l, r)
      requires Stamped(nodes, version) && Proper(labels) && Untouched(nodes, labels, lo, hi, version)
      requires TryUpdate(SumAddPolicy(), false, t, lo, hi, l, r, value).Some?
      requires |nodes| + Overflows(fill, lo, hi, l, r) <= nodeCapacity
      modifies this`nodes, this`labels
      ensures Confined(old(nodes), old(labels), nodes, labels, lo, hi, version)
      ensures Holds(nodes, labels, index, u, FillAfter(fill, lo, hi, l, r), lo, hi)
      ensures TryUpdate(SumAddPolicy(), false, t, lo, hi, l, r, value) == Some(u)
      ensures |nodes| == |old(nodes)| + Overflows(fill, lo, hi, l, r)
      decreases hi - lo, 1
    {
      hide TryUpdate, Overflows, FillAfter, TryJoin, FillIfMet, OverflowsIfMet, Stamped, Confined, Holds, Untouched,
           Overflow, Refilled, TryStamp, TryIfMet;
      HeldNode(nodes, labels, i, t, fill, lo, hi, version);
      if Covered(lo, hi, l, r) {
        CoveredCase(t, fill, lo, hi, l, r, value);
        index, u := UpdateCovered(i, version, lo, hi, value, t, fill);
        return;
      }
      var next := LatestState(nodes[i]).(version := version);
      HeldChildren(nodes, labels, i, t, fill, lo, hi, version);
      PartialRetained(t, lo, hi, l, r, value);
      PartialFill(fill, lo, hi, l, r);
      RefilledSame(fill, FillIfMet(fill.left, lo, Midpoint(lo, hi), l, r),
                   FillIfMet(fill.right, Midpoint(lo, hi) + 1, hi, l, r));
      var left, right, lt, rt := DescendBoth(next.left, next.right, version, lo, hi, l, r, value, t, fill);
      ghost var nodes2, labels2 := nodes, labels;
      ghost var lf := FillIfMet(fill.left, lo, Midpoint(lo, hi), l, r);
      ghost var rf := FillIfMet(fill.right, Midpoint(lo, hi) + 1, hi, l, r);
      index, u := Reassemble(i, next.(left := left, right := right), lo, hi, lt, rt, Node(fill.agg, fill.tag, lf, rf));
      ConfinedThen(old(nodes), old(labels), nodes2, labels2, nodes, labels, lo, hi, lo, hi, version);
    }

    /** The two guarded calls of a partial descent; neither disturbs the other's interval. */
    method DescendBoth(l0: nat, r0: nat, version: nat, lo: nat, hi: nat, l: nat, r: nat, value: int,
                       ghost t: Tree<int, int>, ghost fill: Tree<nat, nat>)
      returns (left: nat, right: nat, ghost lt: Tree<int, int>, ghost rt: Tree<int, int>)
      requires lo < hi && t.Node? && fill.Node? && Stamped(nodes, version) && Proper(labels)
      requires Holds(nodes, labels, l0, t.left, fill.left, lo, Midpoint(lo, hi))
      requires Holds(nodes, labels, r0, t.right, fill.right, Midpoint(lo, hi) + 1, hi)
      requires Untouched(nodes, labels, lo, Midpoint(lo, hi), version)
      requires Untouched(nodes, labels, Midpoint(lo, hi) + 1, hi, version)
      requires TryIfMet(t.left, lo, Midpoint(lo, hi), l, r, value).Some?
      requires TryIfMet(t.right, Midpoint(lo, hi) + 1, hi, l, r, value).Some?
      requires |nodes| + OverflowsIfMet(fill.left, lo, Midpoint(lo, hi), l, r)
               + OverflowsIfMet(fill.right, Midpoint(lo, hi) + 1, hi, l, r) <= nodeCapacity
      modifies this`nodes, this`labels
      ensures Confined(old(nodes), old(labels), nodes, labels, lo, hi, version)
      ensures Stamped(nodes, version) && |labels| == |nodes|
      ensures Proper(labels)
      ensures forall i :: 0 <= i < |old(nodes)| && old(labels)[i] == (lo, hi) ==>
                nodes[i] == old(nodes)[i] && labels[i] == old(labels)[i]
      ensures Holds(nodes, labels, left, lt, FillIfMet(fill.left, lo, Midpoint(lo, hi), l, r), lo, Midpoint(lo, hi))
      ensures Holds(nodes, labels, right, rt, FillIfMet(fill.right, Midpoint(lo, hi) + 1, hi, l, r),
                    Midpoint(lo, hi) + 1, hi)
      ensures TryIfMet(t.left, lo, Midpoint(lo, hi), l, r, value) == Some(lt)
      ensures TryIfMet(t.right, Midpoint(lo, hi) + 1, hi, l, r, value) == Some(rt)
      ensures |nodes| == |old(nodes)| + OverflowsIfMet(fill.left, lo, Midpoint(lo, hi), l, r)
                         + OverflowsIfMet(fill.right, Midpoint(lo, hi) + 1, hi, l, r)
      decreases hi - lo, 0
    {
      hide TryIfMet, FillIfMet, OverflowsIfMet, Stamped, Holds, Untouched;
      var mid := Midpoint(lo, hi);
      left, lt := Descend(l0, version, lo, mid, l, r, value, t.left, fill.left);
      ghost var nodes1, labels1 := nodes, labels;
      ConfinedFacts(old(nodes), old(labels), nodes, labels, lo, mid, version);
      CarryOver(old(nodes), old(labels), nodes, labels, lo, mid, version, r0, t.right, fill.right, mid + 1, hi);
      hide Confined;
      right, rt := Descend(r0, version, mid + 1, hi, l, r, value, t.right, fill.right);
      CarryOver(nodes1, labels1, nodes, labels, mid + 1, hi, version, left, lt, FillIfMet(fill.left, lo, mid, l, r),
                lo, mid);
      ConfinedChildren(old(nodes), old(labels), nodes1, labels1, nodes, labels, lo, hi, version);
      ConfinedFacts(nodes1, labels1, nodes, labels, mid + 1, hi, version);
    }

    /** `reserveForUpdate`: room for 4(h + 1) nodes and one root, or out of memory before anything was written. */
    method ReserveForUpdate(mayExhaust: bool) returns (ok: bool)
      requires |nodes| <= nodeCapacity && |roots| <= rootCapacity
      modifies this`nodeCapacity, this`rootCapacity
      ensures |nodes| <= nodeCapacity && |roots| <= rootCapacity
      ensures ok ==> |nodes| + 4 * (treeHeight + 1) <= nodeCapacity && |roots| < rootCapacity
      ensures !ok ==> mayExhaust
    {
      var visitLimit := 4 * (treeHeight + 1);
      if nodeCapacity - |nodes| < visitLimit {
        var exhausted := Exhausted(mayExhaust);
        if exhausted {
          return false;
        }
        var required, geometric := |nodes| + visitLimit, 2 * nodeCapacity;
        nodeCapacity := if geometric < required then required else geometric;
      }
      ok := ReserveRoot(mayExhaust);
    }

    /** Room for one more root, or out of memory. */
    method ReserveRoot(mayExhaust: bool) returns (ok: bool)
      requires |roots| <= rootCapacity
      modifies this`rootCapacity
      ensures |roots| <= rootCapacity
      ensures ok ==> |roots| < rootCapacity
      ensures !ok ==> mayExhaust
    {
      if |roots| == rootCapacity {
        var exhausted := Exhausted(mayExhaust);
        if exhausted {
          return false;
        }
        rootCapacity := if rootCapacity == 0 then 1 else 2 * rootCapacity;
      }
      return true;
    }

    /** `push_back` of a root that room was reserved for. */
    method PublishRoot(root: nat)
      requires |roots| < rootCapacity
      modifies this`roots
      ensures roots == old(roots) + [root]
    {
      roots := roots + [root];
    }

    /** Everything that can fail, before anything is written: the guard, the arithmetic, the reservation. */
    method Preflight(l: nat, r: nat, value: int, mayExhaust: bool) returns (bound: Option<nat>)
      requires arraySize == |initial| && Coherent(initial, log, nodes, labels, roots, treeHeight, magnitudeBound)
      requires ValidRange(arraySize, l, r) && Fits(value) && value != 0
      requires |nodes| <= nodeCapacity && |roots| <= rootCapacity
      modifies this`nodeCapacity, this`rootCapacity
      ensures |nodes| <= nodeCapacity && |roots| <= rootCapacity
      ensures bound.Some? ==> |nodes| + 4 * (treeHeight + 1) <= nodeCapacity && |roots| < rootCapacity
      ensures bound.Some? ==> Prepared(initial, log, l, r, value, bound.value)
      ensures bound.Some? ==> Commits(initial, log, magnitudeBound, l, r, value, bound.value)
      ensures bound.Some? ==> Accepted(false, initial, log, magnitudeBound, l, r, value)
      ensures bound.None? && !mayExhaust ==> !Accepted(false, initial, log, magnitudeBound, l, r, value)
    {
      hide Coherent, Published, Stands, Shaped, ProposalFits, Guards, TryUpdate, Run, SumAddPolicy, Holds, Untouched,
           Stamped, ArrayAfter, AddRange, TryMaterialize, Prepared, MaterializeArena, ValidateUpdate, Accepted,
           Committed, ProvesRepresentability;
      CoherentStart(initial, log, nodes, labels, roots, treeHeight, magnitudeBound);
      ghost var t := Run(SumAddPolicy(), false, initial, log);
      var root := roots[|roots| - 1];
      var leaves := MaterializeArena(SumAddPolicy(), Latest(nodes), root, 0, arraySize - 1, 0, t);
      LeavesAreCurrent(false, initial, log);
      bound := ValidateRangeAdd(magnitudeBound, arraySize, l, r, value, leaves, Current());
      PreflightDecides(false, initial, log, magnitudeBound, l, r, value, bound);
      if bound.None? {
        return;
      }
      var checked := ValidateUpdate(Latest(nodes), root, 0, arraySize - 1, l, r, value, t);
      if checked.None? {
        return None;
      }
      PreparedBy(initial, log, l, r, value, bound.value);
      var reserved := ReserveForUpdate(mayExhaust);
      if !reserved {
        return None;
      }
    }

    /**
     `rangeAdd`: publishes one version, or leaves every published answer and every node as it was.  States appended to
     nodes that older versions reach are invisible to those versions.
     */
    method RangeAdd(l: nat, r: nat, value: int, mayExhaust: bool) returns (version: Option<nat>)
      requires Valid() && Fits(value)
      modifies this
      ensures Valid() && initial == old(initial)
      ensures version.Some? ==> version.value == |old(roots)| && log == old(log) + [Entry(l, r, value)]
      ensures version.Some? ==>
                && ValidRange(arraySize, l, r)
                && Accepted(false, initial, old(log), old(magnitudeBound), l, r, value)
                && Commits(initial, old(log), old(magnitudeBound), l, r, value, magnitudeBound)
      ensures version.Some? && value == 0 ==>
                && nodes == old(nodes)
                && old(roots) != [] && roots == old(roots) + [old(roots)[|old(roots)| - 1]]
      ensures forall v :: 0 <= v < |old(roots)| ==> Slice(old(nodes), v) <= Slice(nodes, v)
      ensures version.None? ==> nodes == old(nodes) && roots == old(roots) && log == old(log)
                                && magnitudeBound == old(magnitudeBound)
      ensures version.None? && !mayExhaust ==>
                || old(roots) == [] || !ValidRange(|initial|, l, r)
                || !Accepted(false, initial, log, magnitudeBound, l, r, value)
    {
      hide Coherent, Run, SumAddPolicy, Prepared, Accepted, Commits;
      if roots == [] || !ValidRange(arraySize, l, r) {
        return None;
      }
      ghost var e, t := Entry(l, r, value), Run(SumAddPolicy(), false, initial, log);
      var newRoot := roots[|roots| - 1];
      if value == 0 {
        CoherentSame(initial, log, nodes, labels, roots, treeHeight, magnitudeBound, e);
        NothingAccepted(false, initial, log, magnitudeBound, l, r);
        var reserved := ReserveRoot(mayExhaust);
        if !reserved {
          return None;
        }
      } else {
        var bound := Preflight(l, r, value, mayExhaust);
        if bound.None? {
          return None;
        }
        newRoot := Apply(l, r, value, bound.value);
        magnitudeBound := bound.value;
      }
      PublishRoot(newRoot);
      log := log + [e];
      return Some(|roots| - 1);
    }

    /** The update of the latest version, with nothing left that could fail. */
    method Apply(l: nat, r: nat, value: int, ghost next: nat) returns (newRoot: nat)
      requires arraySize == |initial| && Coherent(initial, log, nodes, labels, roots, treeHeight, magnitudeBound)
      requires ValidRange(arraySize, l, r) && value != 0
      requires |nodes| + 4 * (treeHeight + 1) <= nodeCapacity
      requires Prepared(initial, log, l, r, value, next)
      modifies this`nodes, this`labels
      ensures |nodes| <= nodeCapacity
      ensures Coherent(initial, log + [Entry(l, r, value)], nodes, labels, roots + [newRoot], treeHeight, next)
      ensures forall v :: 0 <= v < |roots| ==> Slice(old(nodes), v) <= Slice(nodes, v)
    {
      hide Coherent, Published, Stands, Shaped, Guards, TryUpdate, Run, FillRun, FillAfter, SumAddPolicy, Holds,
           Untouched, Stamped, Overflows, Step, Slice, ArrayAfter, AddRange, Confined;
      ghost var t, fill := Run(SumAddPolicy(), false, initial, log), FillRun(arraySize, log);
      CoherentStart(initial, log, nodes, labels, roots, treeHeight, magnitudeBound);
      CheckedStep(false, t, arraySize - 1, l, r, value);
      OverflowsWithinReservation(fill, 0, arraySize - 1, l, r);
      ghost var u;
      newRoot, u := Update(roots[|roots| - 1], |roots|, 0, arraySize - 1, l, r, value, t, fill);
      ConfinedFacts(old(nodes), old(labels), nodes, labels, 0, arraySize - 1, |roots|);
      OlderSlicesAllGrow(old(nodes), nodes, |roots|);
      CoherentNext(initial, log, old(nodes), old(labels), roots, treeHeight, magnitudeBound, nodes, labels, newRoot,
                   next, Entry(l, r, value), u);
    }
  }
}
