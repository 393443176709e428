/** BufferedPathCopyingSegmentTree (src/buffered_path_copying_segment_tree.cpp). */
module BufferedNodes {
  import opened Wrappers
  import opened Canonical
  import opened Checked
  import opened Policies
  import opened TagTrees
  import opened Histories
  import opened Arenas
  import opened Placements
  import opened CheckedUpdates
  import opened SumAdd
  import opened RangeSum
  import opened SumAddRuns
  import opened NumericDomain
  import opened Acceptance
  import opened Reads
  import opened Frontier
  import opened Visits

  const BUFFER_CAPACITY: nat := 2

  /** One buffered modification: the version that made it and its deltas. */
  datatype Modification = Modification(version: nat, deltaSum: int, deltaLazy: int)

  /** A node with the first `bufferSize` slots of its buffer. */
  datatype BufferedNode = BufferedNode(left: nat, right: nat, baseSum: int, baseLazy: int, buffer: seq<Modification>)

  datatype Snapshot = Snapshot(sum: int, lazy: int)

  /** The base fields plus every entry tagged at most `version`, in exact arithmetic. */
  function Folded(base: Snapshot, buffer: seq<Modification>, version: nat): Snapshot {
    if buffer == [] then base
    else
      var m := buffer[|buffer| - 1];
      var before := Folded(base, buffer[..|buffer| - 1], version);
      if m.version <= version then Snapshot(before.sum + m.deltaSum, before.lazy + m.deltaLazy) else before
  }

  function SnapshotOf(node: BufferedNode, version: nat): Snapshot {
    Folded(Snapshot(node.baseSum, node.baseLazy), node.buffer, version)
  }

  predicate SnapshotFits(s: Snapshot) {
    Fits(s.sum) && Fits(s.lazy)
  }

  /** Every prefix of the buffer folds to representable values, and the tags increase up to `bound`. */
  ghost predicate Sound(node: BufferedNode, bound: nat) {
    && |node.buffer| <= 2
    && (forall j, k :: 0 <= j < k < |node.buffer| ==> node.buffer[j].version < node.buffer[k].version)
    && (forall k :: 0 <= k < |node.buffer| ==>
          node.buffer[k].version <= bound && Fits(node.buffer[k].deltaSum) && Fits(node.buffer[k].deltaLazy))
    && forall k :: 0 <= k <= |node.buffer| ==>
         SnapshotFits(Folded(Snapshot(node.baseSum, node.baseLazy), node.buffer[..k], bound))
  }

  ghost predicate AllSound(nodes: seq<BufferedNode>, bound: nat) {
    forall i :: 0 <= i < |nodes| ==> Sound(nodes[i], bound)
  }

  /** Entries with increasing tags that a reader skips come after those it folds. */
  lemma {:induction false} FoldedIsPrefix(base: Snapshot, buffer: seq<Modification>, version: nat, bound: nat)
    requires forall j, k :: 0 <= j < k < |buffer| ==> buffer[j].version < buffer[k].version
    requires forall k :: 0 <= k < |buffer| ==> buffer[k].version <= bound
    ensures exists k :: 0 <= k <= |buffer| && Folded(base, buffer[..k], bound) == Folded(base, buffer, version)
  {
    if buffer == [] {
      assert buffer[..0] == buffer;
    } else {
      var last := |buffer| - 1;
      if buffer[last].version <= version {
        assert buffer[..|buffer|] == buffer;
        FoldedAgrees(base, buffer, version, bound);
      } else {
        FoldedIsPrefix(base, buffer[..last], version, bound);
        var k :| 0 <= k <= last && Folded(base, buffer[..last][..k], bound) == Folded(base, buffer[..last], version);
        assert buffer[..last][..k] == buffer[..k];
      }
    }
  }

  lemma {:induction false} FoldedAgrees(base: Snapshot, buffer: seq<Modification>, version: nat, bound: nat)
    requires forall k :: 0 <= k < |buffer| ==> buffer[k].version <= version && buffer[k].version <= bound
    ensures Folded(base, buffer, bound) == Folded(base, buffer, version)
  {
    if buffer != [] {
      FoldedAgrees(base, buffer[..|buffer| - 1], version, bound);
    }
  }

  /** No reader of a sound node meets an unrepresentable snapshot. */
  lemma SnapshotsFit(node: BufferedNode, version: nat, bound: nat)
    requires Sound(node, bound)
    ensures SnapshotFits(SnapshotOf(node, version))
  {
    FoldedIsPrefix(Snapshot(node.baseSum, node.baseLazy), node.buffer, version, bound);
  }

  lemma PrefixFits(node: BufferedNode, i: nat, version: nat, bound: nat)
    requires Sound(node, bound) && i <= |node.buffer|
    ensures SnapshotFits(Folded(Snapshot(node.baseSum, node.baseLazy), node.buffer[..i], version))
  {
    var short := node.(buffer := node.buffer[..i]);
    assert forall k :: 0 <= k <= i ==> node.buffer[..i][..k] == node.buffer[..k];
    SnapshotsFit(short, version, bound);
  }

  /** `snapshotAt`: folds the visible entries; on a sound node no addition fails. */
  method SnapshotAt(node: BufferedNode, version: nat, ghost bound: nat) returns (snapshot: Snapshot)
    requires Sound(node, bound)
    ensures snapshot == SnapshotOf(node, version)
  {
    ghost var base := Snapshot(node.baseSum, node.baseLazy);
    snapshot := Snapshot(node.baseSum, node.baseLazy);
    var i := 0;
    while i < |node.buffer|
      invariant 0 <= i <= |node.buffer|
      invariant snapshot == Folded(base, node.buffer[..i], version)
    {
      var m := node.buffer[i];
      assert node.buffer[..i + 1][..i] == node.buffer[..i];
      if m.version <= version {
        PrefixFits(node, i, version, bound);
        PrefixFits(node, i + 1, version, bound);
        var sum := CheckedAdd(snapshot.sum, m.deltaSum);
        var lazy := CheckedAdd(snapshot.lazy, m.deltaLazy);
        snapshot := Snapshot(sum.value, lazy.value);
      }
      i := i + 1;
    }
    assert node.buffer[..|node.buffer|] == node.buffer;
  }

  // ---------------------------------------------------------------- the arena at one version

  function CellOf(node: BufferedNode, version: nat): Cell<int, int> {
    var snapshot := SnapshotOf(node, version);
    Cell(node.left, node.right, snapshot.sum, snapshot.lazy)
  }

  /** The arena as read at one version. */
  function Slice(nodes: seq<BufferedNode>, version: nat): (arena: seq<Cell<int, int>>)
    ensures |arena| == |nodes|
  {
    seq(|nodes|, i requires 0 <= i < |nodes| => CellOf(nodes[i], version))
  }

  /** How many entries each node has buffered. */
  function Fill(nodes: seq<BufferedNode>): (arena: seq<Cell<nat, nat>>)
    ensures |arena| == |nodes|
  {
    seq(|nodes|, i requires 0 <= i < |nodes| => Cell(nodes[i].left, nodes[i].right, |nodes[i].buffer|, 0))
  }

  /** Read at this version the tree t hangs off index i, and its nodes have buffered as many entries as `fill` says. */
  ghost predicate Holds(nodes: seq<BufferedNode>, labels: seq<Interval>, version: nat, i: nat,
                        t: Tree<int, int>, fill: Tree<nat, nat>, lo: nat, hi: nat)
  {
    Placed(Slice(nodes, version), labels, i, t, lo, hi) && Placed(Fill(nodes), labels, i, fill, lo, hi)
  }

  /** The node only gained entries tagged `version`. */
  ghost predicate Extends(before: BufferedNode, after: BufferedNode, version: nat) {
    && after == before.(buffer := after.buffer)
    && before.buffer <= after.buffer
    && forall k :: |before.buffer| <= k < |after.buffer| ==> after.buffer[k].version == version
  }

  ghost predicate Appended(before: seq<BufferedNode>, after: seq<BufferedNode>, version: nat) {
    && |before| <= |after|
    && forall i :: 0 <= i < |before| ==> Extends(before[i], after[i], version)
  }

  lemma {:induction false} FoldedIgnoresNewer(
      base: Snapshot, buffer: seq<Modification>, longer: seq<Modification>, version: nat)
    requires buffer <= longer && forall k :: |buffer| <= k < |longer| ==> longer[k].version > version
    ensures Folded(base, longer, version) == Folded(base, buffer, version)
    decreases |longer|
  {
    if |buffer| < |longer| {
      FoldedIgnoresNewer(base, buffer, longer[..|longer| - 1], version);
    } else {
      assert buffer == longer;
    }
  }

  /** Entries appended to shared nodes are invisible to every older version. */
  lemma {:induction false} OlderSlicesGrow(before: seq<BufferedNode>, after: seq<BufferedNode>, version: nat)
    requires Appended(before, after, version)
    ensures forall v :: 0 <= v < version ==> Slice(before, v) <= Slice(after, v)
  {
    forall v | 0 <= v < version ensures Slice(before, v) <= Slice(after, v) {
      forall i | 0 <= i < |before| ensures Slice(after, v)[i] == Slice(before, v)[i] {
        assert Extends(before[i], after[i], version);
        FoldedIgnoresNewer(Snapshot(before[i].baseSum, before[i].baseLazy), before[i].buffer, after[i].buffer, v);
      }
    }
  }

  /** Two readers at least as new as every entry read the same. */
  lemma {:induction false} NewestSlicesAgree(nodes: seq<BufferedNode>, v: nat, w: nat)
    requires AllSound(nodes, v) && v <= w
    ensures Slice(nodes, w) == Slice(nodes, v) && AllSound(nodes, w)
  {
    forall i | 0 <= i < |nodes| ensures CellOf(nodes[i], w) == CellOf(nodes[i], v) && Sound(nodes[i], w) {
      assert Sound(nodes[i], v);
      var base, buffer := Snapshot(nodes[i].baseSum, nodes[i].baseLazy), nodes[i].buffer;
      FoldedAgrees(base, buffer, w, v);
      forall k | 0 <= k <= |buffer| ensures SnapshotFits(Folded(base, buffer[..k], w)) {
        FoldedAgrees(base, buffer[..k], w, v);
      }
    }
  }

  // ---------------------------------------------------------------- undo

  /**
   Popping the last entry of a node once for every time it occurs in `buffered`, and dropping the copies, restores
   `start`.
   */
  ghost predicate Undoable(start: seq<BufferedNode>, nodes: seq<BufferedNode>, buffered: seq<nat>) {
    && |start| <= |nodes|
    && (forall k :: 0 <= k < |buffered| ==> buffered[k] < |start|)
    && forall i :: 0 <= i < |start| ==>
         && nodes[i] == start[i].(buffer := nodes[i].buffer)
         && start[i].buffer <= nodes[i].buffer
         && |nodes[i].buffer| == |start[i].buffer| + multiset(buffered)[i]
  }

  lemma {:induction false} PoppedOne(start: seq<BufferedNode>, nodes: seq<BufferedNode>, buffered: seq<nat>)
    requires Undoable(start, nodes, buffered) && buffered != []
    ensures var i := buffered[0];
            && i < |nodes| && nodes[i].buffer != []
            && Undoable(start, nodes[i := nodes[i].(buffer := nodes[i].buffer[..|nodes[i].buffer| - 1])], buffered[1..])
  {
    assert buffered == [buffered[0]] + buffered[1..];
    assert multiset(buffered) == multiset{buffered[0]} + multiset(buffered[1..]);
  }

  lemma {:induction false} UndoneIsStart(start: seq<BufferedNode>, nodes: seq<BufferedNode>)
    requires Undoable(start, nodes, [])
    ensures nodes[..|start|] == start
  {
    forall i | 0 <= i < |start| ensures nodes[i] == start[i] {
      assert multiset([])[i] == 0;
      assert nodes[i].buffer == start[i].buffer;
    }
  }

  // ---------------------------------------------------------------- what one update leaves

  /** Nodes inside [lo, hi] are older than the update in progress and not yet written by it. */
  ghost predicate Untouched(
      nodes: seq<BufferedNode>, labels: seq<Interval>, lo: nat, hi: nat, version: nat, checkpoint: nat)
  {
    && |labels| == |nodes|
    && forall j :: 0 <= j < |nodes| && Inside(labels[j], lo, hi) ==>
         j < checkpoint && forall k :: 0 <= k < |nodes[j].buffer| ==> nodes[j].buffer[k].version < version
  }

  /** The update in progress wrote only inside [lo, hi], by appending entries tagged with its version. */
  ghost predicate Confined(
      before: seq<BufferedNode>, oldLabels: seq<Interval>, after: seq<BufferedNode>, labels: seq<Interval>,
      lo: nat, hi: nat, version: nat)
  {
    && |oldLabels| == |before| && |labels| == |after| && oldLabels <= labels && Proper(labels)
    && Appended(before, after, version)
    && AllSound(after, version)
    && (forall j :: 0 <= j < |before| && !Inside(labels[j], lo, hi) ==> after[j] == before[j])
    && (forall j :: |before| <= j < |after| ==> Inside(labels[j], lo, hi))
  }

  lemma {:induction false} ConfinedFacts(
      before: seq<BufferedNode>, oldLabels: seq<Interval>, after: seq<BufferedNode>, labels: seq<Interval>,
      lo: nat, hi: nat, version: nat)
    requires Confined(before, oldLabels, after, labels, lo, hi, version)
    ensures AllSound(after, version) && Proper(labels) && |labels| == |after| && Appended(before, after, version)
  {
  }

  lemma {:induction false} ConfinedStart(
      nodes: seq<BufferedNode>, labels: seq<Interval>, lo: nat, hi: nat, version: nat)
    requires |labels| == |nodes| && AllSound(nodes, version) && Proper(labels)
    ensures Confined(nodes, labels, nodes, labels, lo, hi, version)
  {
  }

  lemma {:induction false} AppendedTransitive(
      a: seq<BufferedNode>, b: seq<BufferedNode>, c: seq<BufferedNode>, version: nat)
    requires Appended(a, b, version) && Appended(b, c, version)
    ensures Appended(a, c, version)
  {
    forall i | 0 <= i < |a| ensures Extends(a[i], c[i], version) {
      assert Extends(a[i], b[i], version) && Extends(b[i], c[i], version);
      forall k | |a[i].buffer| <= k < |c[i].buffer| ensures c[i].buffer[k].version == version {
        if k < |b[i].buffer| {
          assert c[i].buffer[k] == b[i].buffer[k];
        }
      }
    }
  }

  lemma {:induction false} ConfinedThen(
      a: seq<BufferedNode>, la: seq<Interval>, b: seq<BufferedNode>, lb: seq<Interval>,
      c: seq<BufferedNode>, lc: seq<Interval>, lo: nat, hi: nat, innerLo: nat, innerHi: nat, version: nat)
    requires Confined(a, la, b, lb, lo, hi, version) && Confined(b, lb, c, lc, innerLo, innerHi, version)
    requires lo <= innerLo && innerHi <= hi
    ensures Confined(a, la, c, lc, lo, hi, version)
  {
    AppendedTransitive(a, b, c, version);
  }

  /** Writing inside both halves is writing inside the whole, and leaves the node above them as it was. */
  lemma {:induction false} ConfinedChildren(
      a: seq<BufferedNode>, la: seq<Interval>, b: seq<BufferedNode>, lb: seq<Interval>,
      c: seq<BufferedNode>, lc: seq<Interval>, lo: nat, hi: nat, version: nat)
    requires lo < hi
    requires Confined(a, la, b, lb, lo, Midpoint(lo, hi), version)
    requires Confined(b, lb, c, lc, Midpoint(lo, hi) + 1, hi, version)
    ensures Confined(a, la, c, lc, lo, hi, version)
    ensures forall i :: 0 <= i < |a| && la[i] == (lo, hi) ==> c[i] == a[i] && lc[i] == la[i]
  {
    assert Confined(a, la, b, lb, lo, hi, version);
    ConfinedThen(a, la, b, lb, c, lc, lo, hi, Midpoint(lo, hi) + 1, hi, version);
  }

  /** A tree outside the written interval is carried over, still untouched. */
  lemma {:induction false} CarryOver(
      before: seq<BufferedNode>, oldLabels: seq<Interval>, after: seq<BufferedNode>, labels: seq<Interval>,
      lo: nat, hi: nat, version: nat, checkpoint: nat,
      i: nat, t: Tree<int, int>, fill: Tree<nat, nat>, otherLo: nat, otherHi: nat)
    requires Confined(before, oldLabels, after, labels, lo, hi, version)
    requires (hi < otherLo || otherHi < lo) && Holds(before, oldLabels, version, i, t, fill, otherLo, otherHi)
    ensures Holds(after, labels, version, i, t, fill, otherLo, otherHi)
    ensures Untouched(before, oldLabels, otherLo, otherHi, version, checkpoint) ==>
              Untouched(after, labels, otherLo, otherHi, version, checkpoint)
  {
    hide Placed, AllSound, Folded;
    assert AgreeInside(Slice(before, version), Slice(after, version), oldLabels, otherLo, otherHi);
    PlacedAgrees(Slice(before, version), oldLabels, Slice(after, version), labels, i, t,
                 otherLo, otherHi, otherLo, otherHi);
    assert AgreeInside(Fill(before), Fill(after), oldLabels, otherLo, otherHi);
    PlacedAgrees(Fill(before), oldLabels, Fill(after), labels, i, fill, otherLo, otherHi, otherLo, otherHi);
  }

  // ---------------------------------------------------------------- modify

  predicate Full(node: BufferedNode) {
    |node.buffer| >= BUFFER_CAPACITY
  }

  function Buffered(nodes: seq<BufferedNode>, i: nat, m: Modification): seq<BufferedNode>
    requires i < |nodes|
  {
    nodes[i := nodes[i].(buffer := nodes[i].buffer + [m])]
  }

  lemma {:induction false} FoldedOneMore(base: Snapshot, buffer: seq<Modification>, m: Modification, version: nat)
    requires m.version <= version
    ensures var s := Folded(base, buffer, version);
            Folded(base, buffer + [m], version) == Snapshot(s.sum + m.deltaSum, s.lazy + m.deltaLazy)
  {
    assert (buffer + [m])[..|buffer|] == buffer;
  }

  lemma SoundWithEntry(node: BufferedNode, m: Modification, version: nat)
    requires Sound(node, version) && !Full(node) && m.version == version && Fits(m.deltaSum) && Fits(m.deltaLazy)
    requires forall k :: 0 <= k < |node.buffer| ==> node.buffer[k].version < version
    requires var s := SnapshotOf(node, version); Fits(s.sum + m.deltaSum) && Fits(s.lazy + m.deltaLazy)
    ensures var node', s := node.(buffer := node.buffer + [m]), SnapshotOf(node, version);
            Sound(node', version) && SnapshotOf(node', version) == Snapshot(s.sum + m.deltaSum, s.lazy + m.deltaLazy)
  {
    hide Folded;
    var longer, base := node.buffer + [m], Snapshot(node.baseSum, node.baseLazy);
    FoldedOneMore(base, node.buffer, m, version);
    assert longer[..|longer|] == longer;
    forall k | 0 <= k <= |longer| ensures SnapshotFits(Folded(base, longer[..k], version)) {
      if k <= |node.buffer| {
        assert longer[..k] == node.buffer[..k];
      }
    }
  }

  /** An entry appended in place: confined to the node and undoable. */
  lemma {:induction false} BufferedInPlace(
      start: seq<BufferedNode>, nodes: seq<BufferedNode>, labels: seq<Interval>, buffered: seq<nat>,
      i: nat, m: Modification, version: nat)
    requires i < |start| && i < |nodes| == |labels| && Proper(labels) && AllSound(nodes, version)
    requires m.version == version && Sound(nodes[i].(buffer := nodes[i].buffer + [m]), version)
    requires Undoable(start, nodes, buffered)
    ensures Undoable(start, Buffered(nodes, i, m), buffered + [i])
    ensures Confined(nodes, labels, Buffered(nodes, i, m), labels, labels[i].0, labels[i].1, version)
  {
    hide Sound;
    assert multiset(buffered + [i]) == multiset(buffered) + multiset{i};
  }

  /** A fresh node: sound, confined to its label, and dropped by the undo. */
  lemma {:induction false} CopiedFresh(
      start: seq<BufferedNode>, nodes: seq<BufferedNode>, labels: seq<Interval>, buffered: seq<nat>,
      copy: BufferedNode, lo: nat, hi: nat, version: nat)
    requires |nodes| == |labels| && Proper(labels) && AllSound(nodes, version) && lo <= hi
    requires copy.buffer == [] && Fits(copy.baseSum) && Fits(copy.baseLazy)
    requires Undoable(start, nodes, buffered)
    ensures Undoable(start, nodes + [copy], buffered)
    ensures Confined(nodes, labels, nodes + [copy], labels + [(lo, hi)], lo, hi, version)
  {
    assert Sound(copy, version);
    forall j | 0 <= j < |nodes| + 1 ensures Sound((nodes + [copy])[j], version) {
      if j < |nodes| {
        assert Sound(nodes[j], version);
      }
    }
  }

  // ---------------------------------------------------------------- which nodes an update copies

  /** The update on [l, r] copies this node: its buffer is full, or one below it is that the update visits. */
  predicate Copied(fill: Tree<nat, nat>, lo: nat, hi: nat, l: nat, r: nat)
    decreases fill, 0
  {
    || fill.agg >= 2
    || (&& fill.Node? && !Covered(lo, hi, l, r)
        && (|| CopiedIfMet(fill.left, lo, Midpoint(lo, hi), l, r)
            || CopiedIfMet(fill.right, Midpoint(lo, hi) + 1, hi, l, r)))
  }

  predicate CopiedIfMet(fill: Tree<nat, nat>, lo: nat, hi: nat, l: nat, r: nat)
    decreases fill, 1
  {
    Meets(lo, hi, l, r) && Copied(fill, lo, hi, l, r)
  }

  /** How many nodes it copies. */
  function Copies(fill: Tree<nat, nat>, lo: nat, hi: nat, l: nat, r: nat): nat
    decreases fill, 0
  {
    (if Copied(fill, lo, hi, l, r) then 1 else 0)
    + if fill.Node? && !Covered(lo, hi, l, r) then
        CopiesIfMet(fill.left, lo, Midpoint(lo, hi), l, r) + CopiesIfMet(fill.right, Midpoint(lo, hi) + 1, hi, l, r)
      else 0
  }

  function CopiesIfMet(fill: Tree<nat, nat>, lo: nat, hi: nat, l: nat, r: nat): nat
    decreases fill, 1
  {
    if Meets(lo, hi, l, r) then Copies(fill, lo, hi, l, r) else 0
  }

  /** The entries buffered after it: none at a copy, one more at any other node visited. */
  function FillAfter(fill: Tree<nat, nat>, lo: nat, hi: nat, l: nat, r: nat): Tree<nat, nat>
    decreases fill, 0
  {
    var entries := if Copied(fill, lo, hi, l, r) then 0 else fill.agg + 1;
    match fill
    case Leaf(_, _) => Leaf(entries, 0)
    case Node(_, _, left, right) =>
      if Covered(lo, hi, l, r) then Node(entries, 0, left, right)
      else
        Node(entries, 0, FillIfMet(left, lo, Midpoint(lo, hi), l, r), FillIfMet(right, Midpoint(lo, hi) + 1, hi, l, r))
  }

  function FillIfMet(fill: Tree<nat, nat>, lo: nat, hi: nat, l: nat, r: nat): Tree<nat, nat>
    decreases fill, 1
  {
    if Meets(lo, hi, l, r) then FillAfter(fill, lo, hi, l, r) else fill
  }

  /** No more nodes are copied than visited. */
  lemma {:induction false} CopiesBound(fill: Tree<nat, nat>, lo: nat, hi: nat, l: nat, r: nat)
    requires Shaped(fill, lo, hi) && Meets(lo, hi, l, r)
    ensures Copies(fill, lo, hi, l, r) <= Visited(lo, hi, l, r)
    decreases fill
  {
    if fill.Node? && !Covered(lo, hi, l, r) {
      if Meets(lo, Midpoint(lo, hi), l, r) {
        CopiesBound(fill.left, lo, Midpoint(lo, hi), l, r);
      }
      if Meets(Midpoint(lo, hi) + 1, hi, l, r) {
        CopiesBound(fill.right, Midpoint(lo, hi) + 1, hi, l, r);
      }
    }
  }

  lemma CopiesOfRange(n: nat, fill: Tree<nat, nat>, l: nat, r: nat)
    requires ValidRange(n, l, r) && Shaped(fill, 0, n - 1)
    ensures Meets(0, n - 1, l, r) && Copies(fill, 0, n - 1, l, r) <= Visited(0, n - 1, l, r)
  {
    CopiesBound(fill, 0, n - 1, l, r);
  }

  lemma {:induction false} CoveredFill(fill: Tree<nat, nat>, lo: nat, hi: nat, l: nat, r: nat)
    requires Covered(lo, hi, l, r)
    ensures Copied(fill, lo, hi, l, r) <==> fill.agg >= 2
    ensures Copies(fill, lo, hi, l, r) == if fill.agg >= 2 then 1 else 0
    ensures var g := FillAfter(fill, lo, hi, l, r);
            && g.agg == (if fill.agg >= 2 then 0 else fill.agg + 1) && g.tag == 0
            && (g.Leaf? <==> fill.Leaf?) && (g.Node? ==> g.left == fill.left && g.right == fill.right)
  {
  }

  lemma {:induction false} PartialFill(fill: Tree<nat, nat>, lo: nat, hi: nat, l: nat, r: nat)
    requires fill.Node? && !Covered(lo, hi, l, r)
    ensures var mid := Midpoint(lo, hi);
            && (Copied(fill, lo, hi, l, r) <==>
                  || fill.agg >= 2
                  || CopiedIfMet(fill.left, lo, mid, l, r) || CopiedIfMet(fill.right, mid + 1, hi, l, r))
            && Copies(fill, lo, hi, l, r)
               == (if Copied(fill, lo, hi, l, r) then 1 else 0)
                  + CopiesIfMet(fill.left, lo, mid, l, r) + CopiesIfMet(fill.right, mid + 1, hi, l, r)
            && FillAfter(fill, lo, hi, l, r)
               == Node(if Copied(fill, lo, hi, l, r) then 0 else fill.agg + 1, 0,
                       FillIfMet(fill.left, lo, mid, l, r), FillIfMet(fill.right, mid + 1, hi, l, r))
  {
  }

  /** The entries buffered after a log of updates, in the canonical tree the latest version reads. */
  function FillRun(n: nat, log: seq<Entry<int>>): Tree<nat, nat>
    requires n > 0
  {
    if log == [] then Zeros(0, n - 1)
    else
      var before, e := FillRun(n, log[..|log| - 1]), log[|log| - 1];
      if e.action == 0 then before else FillAfter(before, 0, n - 1, e.left, e.right)
  }

  /** The nodes copied over a log of updates. */
  function CopiesRun(n: nat, log: seq<Entry<int>>): nat
    requires n > 0
  {
    if log == [] then 0
    else
      var before, e := log[..|log| - 1], log[|log| - 1];
      CopiesRun(n, before) + if e.action == 0 then 0 else Copies(FillRun(n, before), 0, n - 1, e.left, e.right)
  }

  // ---------------------------------------------------------------- how often a node is copied

  /** The copies of each node of the subtree, after an update on [l, r] that reaches it. */
  function Marked(copies: Tree<nat, nat>, fill: Tree<nat, nat>, lo: nat, hi: nat, l: nat, r: nat): Tree<nat, nat>
    decreases copies, 0
  {
    var count := copies.agg + if Copied(fill, lo, hi, l, r) then 1 else 0;
    match copies
    case Leaf(_, _) => Leaf(count, 0)
    case Node(_, _, left, right) =>
      if Covered(lo, hi, l, r) || fill.Leaf? then Node(count, 0, left, right)
      else
        Node(count, 0, MarkedIfMet(left, fill.left, lo, Midpoint(lo, hi), l, r),
             MarkedIfMet(right, fill.right, Midpoint(lo, hi) + 1, hi, l, r))
  }

  function MarkedIfMet(copies: Tree<nat, nat>, fill: Tree<nat, nat>, lo: nat, hi: nat, l: nat, r: nat): Tree<nat, nat>
    decreases copies, 1
  {
    if Meets(lo, hi, l, r) then Marked(copies, fill, lo, hi, l, r) else copies
  }

  /** The copies of each canonical node over a log of updates. */
  function CopyCounts(n: nat, log: seq<Entry<int>>): Tree<nat, nat>
    requires n > 0
  {
    if log == [] then Zeros(0, n - 1)
    else
      var before, e := log[..|log| - 1], log[|log| - 1];
      if e.action == 0 then CopyCounts(n, before)
      else Marked(CopyCounts(n, before), FillRun(n, before), 0, n - 1, e.left, e.right)
  }

  function Together(copies: Tree<nat, nat>): nat
    decreases copies
  {
    copies.agg + if copies.Leaf? then 0 else Together(copies.left) + Together(copies.right)
  }

  /**
   What the buffers, the copies and the visits of each node of the subtree have to do with each other: a copy spends at
   most three visits, two buffered entries and its own; and every copy was one of a child, or spent as many.
   */
  ghost predicate Balanced(
      fill: Tree<nat, nat>, copies: Tree<nat, nat>, log: seq<Entry<int>>, above: nat, below: nat, lo: nat, hi: nat)
    decreases fill
  {
    var m := VisitsTo(log, above, below, lo, hi);
    && lo <= hi && (fill.Leaf? <==> lo == hi) && (copies.Leaf? <==> lo == hi)
    && fill.agg <= 2
    && m <= 3 * copies.agg + fill.agg
    && 3 * copies.agg + fill.agg <= m + (if copies.Node? then 3 * (copies.left.agg + copies.right.agg) else 0)
    && (fill.Node? ==>
          && Balanced(fill.left, copies.left, log, lo, hi, lo, Midpoint(lo, hi))
          && Balanced(fill.right, copies.right, log, lo, hi, Midpoint(lo, hi) + 1, hi))
  }

  lemma {:induction false} BalanceUnvisited(
      fill: Tree<nat, nat>, copies: Tree<nat, nat>, log: seq<Entry<int>>, e: Entry<int>,
      above: nat, below: nat, lo: nat, hi: nat)
    requires Balanced(fill, copies, log, above, below, lo, hi) && above <= lo && hi <= below
    requires e.action == 0 || !Meets(lo, hi, e.left, e.right) || Covered(above, below, e.left, e.right)
    ensures Balanced(fill, copies, log + [e], above, below, lo, hi)
    decreases fill
  {
    hide VisitsTo;
    VisitsNext(log, e, above, below, lo, hi);
    if fill.Node? {
      BalanceUnvisited(fill.left, copies.left, log, e, lo, hi, lo, Midpoint(lo, hi));
      BalanceUnvisited(fill.right, copies.right, log, e, lo, hi, Midpoint(lo, hi) + 1, hi);
    }
  }

  lemma {:induction false} BalanceVisited(
      fill: Tree<nat, nat>, copies: Tree<nat, nat>, log: seq<Entry<int>>, e: Entry<int>,
      above: nat, below: nat, lo: nat, hi: nat)
    requires Balanced(fill, copies, log, above, below, lo, hi) && above <= lo && hi <= below && e.left <= e.right
    requires e.action != 0 && Meets(lo, hi, e.left, e.right) && !Covered(above, below, e.left, e.right)
    ensures Balanced(FillAfter(fill, lo, hi, e.left, e.right), Marked(copies, fill, lo, hi, e.left, e.right),
                     log + [e], above, below, lo, hi)
    ensures Together(Marked(copies, fill, lo, hi, e.left, e.right))
         == Together(copies) + Copies(fill, lo, hi, e.left, e.right)
    ensures Marked(copies, fill, lo, hi, e.left, e.right).agg
         == copies.agg + if Copied(fill, lo, hi, e.left, e.right) then 1 else 0
    decreases fill, 0
  {
    hide VisitsTo;
    VisitsNext(log, e, above, below, lo, hi);
    if fill.Node? {
      BalanceBelow(fill.left, copies.left, log, e, lo, hi, lo, Midpoint(lo, hi));
      BalanceBelow(fill.right, copies.right, log, e, lo, hi, Midpoint(lo, hi) + 1, hi);
    }
  }

  lemma {:induction false} BalanceBelow(
      fill: Tree<nat, nat>, copies: Tree<nat, nat>, log: seq<Entry<int>>, e: Entry<int>,
      above: nat, below: nat, lo: nat, hi: nat)
    requires Balanced(fill, copies, log, above, below, lo, hi) && above <= lo && hi <= below && e.left <= e.right
    requires e.action != 0
    ensures if Covered(above, below, e.left, e.right) then Balanced(fill, copies, log + [e], above, below, lo, hi)
            else
              var marked := MarkedIfMet(copies, fill, lo, hi, e.left, e.right);
              && Balanced(FillIfMet(fill, lo, hi, e.left, e.right), marked, log + [e], above, below, lo, hi)
              && Together(marked) == Together(copies) + CopiesIfMet(fill, lo, hi, e.left, e.right)
              && marked.agg == copies.agg + if CopiedIfMet(fill, lo, hi, e.left, e.right) then 1 else 0
    decreases fill, 1
  {
    if Meets(lo, hi, e.left, e.right) && !Covered(above, below, e.left, e.right) {
      BalanceVisited(fill, copies, log, e, above, below, lo, hi);
    } else {
      BalanceUnvisited(fill, copies, log, e, above, below, lo, hi);
    }
  }

  lemma {:induction false} BalanceInitially(above: nat, below: nat, lo: nat, hi: nat)
    requires lo <= hi
    ensures Balanced(Zeros(lo, hi), Zeros(lo, hi), [], above, below, lo, hi) && Together(Zeros(lo, hi)) == 0
    decreases Length(lo, hi)
  {
    if lo < hi {
      BalanceInitially(lo, hi, lo, Midpoint(lo, hi));
      BalanceInitially(lo, hi, Midpoint(lo, hi) + 1, hi);
    }
  }

  /** Over every run: the buffers and the copies are balanced, and the copies add up to what the arena grew by. */
  lemma {:induction false} RunIsBalanced(n: nat, log: seq<Entry<int>>)
    requires n > 0 && RangesIn(n, log)
    ensures Balanced(FillRun(n, log), CopyCounts(n, log), log, 0, n, 0, n - 1)
    ensures Together(CopyCounts(n, log)) == CopiesRun(n, log)
  {
    hide Balanced, FillAfter, Marked, Copies, Together;
    if log == [] {
      BalanceInitially(0, n, 0, n - 1);
    } else {
      var before, e := log[..|log| - 1], log[|log| - 1];
      assert log == before + [e];
      RunIsBalanced(n, before);
      if e.action == 0 {
        BalanceUnvisited(FillRun(n, before), CopyCounts(n, before), before, e, 0, n, 0, n - 1);
      } else {
        BalanceVisited(FillRun(n, before), CopyCounts(n, before), before, e, 0, n, 0, n - 1);
      }
    }
  }

  /**
   Each node of the subtree was copied at least once for every three visits to it, and at most once for every three
   visits to any node below it, itself included; a leaf, which has no other, exactly once for every three.
   */
  ghost predicate CopiedWithin(
      copies: Tree<nat, nat>, log: seq<Entry<int>>, above: nat, below: nat, lo: nat, hi: nat)
    decreases copies
  {
    && VisitsTo(log, above, below, lo, hi) / 3 <= copies.agg <= Thirds(log, above, below, lo, hi)
    && (copies.Node? ==>
          && CopiedWithin(copies.left, log, lo, hi, lo, Midpoint(lo, hi))
          && CopiedWithin(copies.right, log, lo, hi, Midpoint(lo, hi) + 1, hi))
  }

  lemma {:induction false} BalancedIsWithin(
      fill: Tree<nat, nat>, copies: Tree<nat, nat>, log: seq<Entry<int>>, above: nat, below: nat, lo: nat, hi: nat)
    requires Balanced(fill, copies, log, above, below, lo, hi)
    ensures CopiedWithin(copies, log, above, below, lo, hi)
    ensures Thirds(log, above, below, lo, hi) <= Together(copies) <= NestedThirds(log, above, below, lo, hi)
    decreases fill
  {
    hide VisitsTo;
    var mid := Midpoint(lo, hi);
    if fill.Node? {
      BalancedIsWithin(fill.left, copies.left, log, lo, hi, lo, mid);
      BalancedIsWithin(fill.right, copies.right, log, lo, hi, mid + 1, hi);
    }
  }

  /** Over every run each canonical node is copied within these bounds, and so is the whole arena. */
  lemma {:induction false} CopiesOfEach(n: nat, log: seq<Entry<int>>)
    requires n > 0 && RangesIn(n, log)
    ensures CopiedWithin(CopyCounts(n, log), log, 0, n, 0, n - 1)
    ensures Together(CopyCounts(n, log)) == CopiesRun(n, log)
    ensures Thirds(log, 0, n, 0, n - 1) <= CopiesRun(n, log) <= NestedThirds(log, 0, n, 0, n - 1)
  {
    hide Balanced, CopiedWithin, Thirds, NestedThirds;
    RunIsBalanced(n, log);
    BalancedIsWithin(FillRun(n, log), CopyCounts(n, log), log, 0, n, 0, n - 1);
  }

  /** The latest tree has buffered what the log says, and the arena holds the build and every copy. */
  ghost predicate Counted(n: nat, log: seq<Entry<int>>, nodes: seq<BufferedNode>, labels: seq<Interval>, root: nat)
    requires n > 0
  {
    && Placed(Fill(nodes), labels, root, FillRun(n, log), 0, n - 1)
    && |nodes| == 2 * n - 1 + CopiesRun(n, log)
  }

  lemma {:induction false} CountedNext(
      n: nat, log: seq<Entry<int>>, nodes: seq<BufferedNode>, labels: seq<Interval>, root: nat,
      after: seq<BufferedNode>, labels': seq<Interval>, newRoot: nat, e: Entry<int>)
    requires n > 0 && Counted(n, log, nodes, labels, root) && e.action != 0
    requires Placed(Fill(after), labels', newRoot, FillAfter(FillRun(n, log), 0, n - 1, e.left, e.right), 0, n - 1)
    requires |after| == |nodes| + Copies(FillRun(n, log), 0, n - 1, e.left, e.right)
    ensures Counted(n, log + [e], after, labels', newRoot)
  {
    hide Placed, FillAfter, Copies;
    assert (log + [e])[..|log|] == log;
  }

  lemma {:induction false} CountedSame(
      n: nat, log: seq<Entry<int>>, nodes: seq<BufferedNode>, labels: seq<Interval>, root: nat, e: Entry<int>)
    requires n > 0 && Counted(n, log, nodes, labels, root) && e.action == 0
    ensures Counted(n, log + [e], nodes, labels, root)
  {
    hide Placed;
    assert (log + [e])[..|log|] == log;
  }

  // ---------------------------------------------------------------- what an update computes

  lemma {:induction false} RetainedNode(t: Tree<int, int>, lo: nat, hi: nat, l: nat, r: nat, value: int)
    requires Consistent(SumAddPolicy(), t, lo, hi) && l <= r && Meets(lo, hi, l, r) && !Covered(lo, hi, l, r)
    ensures var p, mid := SumAddPolicy(), Midpoint(lo, hi);
            var left := UpdateIfMet(p, false, t.left, lo, mid, l, r, value);
            var right := UpdateIfMet(p, false, t.right, mid + 1, hi, l, r, value);
            && Update(p, false, t, lo, hi, l, r, value)
               == Node(left.agg + right.agg + t.tag * Length(lo, hi), t.tag, left, right)
            && t.agg == t.left.agg + t.right.agg + t.tag * Length(lo, hi)
            && Consistent(p, t.left, lo, mid) && Consistent(p, t.right, mid + 1, hi)
  {
  }

  /** Every delta and every new sum or tag of a buffered update is representable. */
  ghost predicate DeltasFit(t: Tree<int, int>, lo: nat, hi: nat, l: nat, r: nat, value: int)
    decreases t, 0
  {
    && DeltaFits(t.agg, lo, hi, l, r, value)
    && if t.Leaf? || Covered(lo, hi, l, r) then Fits(t.tag + value)
       else
         && DeltasFitIfMet(t.left, lo, Midpoint(lo, hi), l, r, value)
         && DeltasFitIfMet(t.right, Midpoint(lo, hi) + 1, hi, l, r, value)
  }

  lemma {:induction false} UnfoldDeltasFit(t: Tree<int, int>, lo: nat, hi: nat, l: nat, r: nat, value: int)
    requires t.Node? && !Covered(lo, hi, l, r)
    ensures DeltasFit(t, lo, hi, l, r, value) <==>
              && DeltasFitIfMet(t.left, lo, Midpoint(lo, hi), l, r, value)
              && DeltasFitIfMet(t.right, Midpoint(lo, hi) + 1, hi, l, r, value)
              && DeltaFits(t.agg, lo, hi, l, r, value)
  {
  }

  /** This node's share of the delta, and its new sum, are representable. */
  predicate DeltaFits(sum: int, lo: nat, hi: nat, l: nat, r: nat, value: int) {
    var delta := value * Overlap(lo, hi, l, r);
    Fits(Overlap(lo, hi, l, r)) && Fits(delta) && Fits(sum + delta)
  }

  ghost predicate DeltasFitIfMet(t: Tree<int, int>, lo: nat, hi: nat, l: nat, r: nat, value: int)
    decreases t, 1
  {
    Meets(lo, hi, l, r) ==> DeltasFit(t, lo, hi, l, r, value)
  }

  /** What a placed, untouched, partially covered node offers an update. */
  lemma {:induction false} PlacedChildren(
      nodes: seq<BufferedNode>, labels: seq<Interval>, i: nat, t: Tree<int, int>, fill: Tree<nat, nat>,
      lo: nat, hi: nat, version: nat, checkpoint: nat)
    requires Holds(nodes, labels, version, i, t, fill, lo, hi) && Untouched(nodes, labels, lo, hi, version, checkpoint)
    ensures i < |nodes| == |labels| && labels[i] == (lo, hi) && i < checkpoint && lo <= hi
    ensures forall k :: 0 <= k < |nodes[i].buffer| ==> nodes[i].buffer[k].version < version
    ensures SnapshotOf(nodes[i], version) == Snapshot(t.agg, t.tag)
    ensures |nodes[i].buffer| == fill.agg && (t.Leaf? <==> lo == hi) && (fill.Leaf? <==> lo == hi)
    ensures lo < hi ==>
              && Holds(nodes, labels, version, nodes[i].left, t.left, fill.left, lo, Midpoint(lo, hi))
              && Holds(nodes, labels, version, nodes[i].right, t.right, fill.right, Midpoint(lo, hi) + 1, hi)
              && Untouched(nodes, labels, lo, Midpoint(lo, hi), version, checkpoint)
              && Untouched(nodes, labels, Midpoint(lo, hi) + 1, hi, version, checkpoint)
  {
  }

  /** A write at [lo, hi] is no write inside a proper part of it; the tree above it is placed again. */
  lemma {:induction false} PlacedAgain(
      nodes: seq<BufferedNode>, labels: seq<Interval>, after: seq<BufferedNode>, labels': seq<Interval>,
      i: nat, left: nat, right: nat, u: Tree<int, int>, g: Tree<nat, nat>, lo: nat, hi: nat, version: nat)
    requires Confined(nodes, labels, after, labels', lo, hi, version)
    requires forall j :: 0 <= j < |nodes| && labels[j] != (lo, hi) ==> after[j] == nodes[j]
    requires lo <= hi && i < |after| && labels'[i] == (lo, hi) && (u.Leaf? <==> lo == hi)
    requires after[i].left == left && after[i].right == right
    requires SnapshotOf(after[i], version) == Snapshot(u.agg, u.tag)
    requires |after[i].buffer| == g.agg && g.tag == 0 && (g.Leaf? <==> lo == hi)
    requires u.Node? ==>
               && Holds(nodes, labels, version, left, u.left, g.left, lo, Midpoint(lo, hi))
               && Holds(nodes, labels, version, right, u.right, g.right, Midpoint(lo, hi) + 1, hi)
    ensures Holds(after, labels', version, i, u, g, lo, hi)
  {
    hide Placed, AllSound, Appended, Folded;
    PlacedAbove(Slice(nodes, version), labels, Slice(after, version), labels', left, right, i, u, lo, hi);
    PlacedAbove(Fill(nodes), labels, Fill(after), labels', left, right, i, g, lo, hi);
  }

  lemma {:induction false} SoundAt(nodes: seq<BufferedNode>, i: nat, version: nat)
    requires i < |nodes| && AllSound(nodes, version)
    ensures Sound(nodes[i], version) && SnapshotFits(SnapshotOf(nodes[i], version))
  {
    SnapshotsFit(nodes[i], version, version);
  }

  /** An entry appended in place makes the node read as the new tree at its version. */
  lemma {:induction false} ModifiedInPlace(
      start: seq<BufferedNode>, nodes: seq<BufferedNode>, labels: seq<Interval>, buffered: seq<nat>,
      i: nat, m: Modification, lo: nat, hi: nat, version: nat, u: Tree<int, int>, g: Tree<nat, nat>)
    requires i < |start| && i < |nodes| == |labels| && labels[i] == (lo, hi) && lo <= hi && (u.Leaf? <==> lo == hi)
    requires Proper(labels) && AllSound(nodes, version) && Undoable(start, nodes, buffered)
    requires !Full(nodes[i]) && forall k :: 0 <= k < |nodes[i].buffer| ==> nodes[i].buffer[k].version < version
    requires m.version == version && Fits(m.deltaSum) && Fits(m.deltaLazy) && Fits(u.agg) && Fits(u.tag)
    requires var s := SnapshotOf(nodes[i], version); u.agg == s.sum + m.deltaSum && u.tag == s.lazy + m.deltaLazy
    requires g.agg == |nodes[i].buffer| + 1 && g.tag == 0 && (g.Leaf? <==> lo == hi)
    requires u.Node? ==>
               && Holds(nodes, labels, version, nodes[i].left, u.left, g.left, lo, Midpoint(lo, hi))
               && Holds(nodes, labels, version, nodes[i].right, u.right, g.right, Midpoint(lo, hi) + 1, hi)
    ensures var after := Buffered(nodes, i, m);
            && Undoable(start, after, buffered + [i])
            && Confined(nodes, labels, after, labels, lo, hi, version)
            && Holds(after, labels, version, i, u, g, lo, hi)
  {
    hide AllSound, Sound, Undoable, Confined, Holds, SnapshotOf;
    SoundAt(nodes, i, version);
    SoundWithEntry(nodes[i], m, version);
    BufferedInPlace(start, nodes, labels, buffered, i, m, version);
    PlacedAgain(nodes, labels, Buffered(nodes, i, m), labels, i, nodes[i].left, nodes[i].right, u, g, lo, hi, version);
  }

  lemma {:induction false} CoveredUpdate(t: Tree<int, int>, lo: nat, hi: nat, l: nat, r: nat, value: int)
    requires lo <= hi && Covered(lo, hi, l, r)
    ensures var u := TagTrees.Update(SumAddPolicy(), false, t, lo, hi, l, r, value);
            && u.agg == t.agg + value * Length(lo, hi) && u.tag == t.tag + value && (u.Leaf? <==> t.Leaf?)
            && (u.Node? ==> u.left == t.left && u.right == t.right)
            && (DeltasFit(t, lo, hi, l, r, value) <==>
                  Fits(Length(lo, hi)) && Fits(value * Length(lo, hi)) && Fits(u.agg) && Fits(u.tag))
  {
  }

  // ---------------------------------------------------------------- whole runs

  /** Every root, read at its version, stands for the tree its prefix of the log produces. */
  ghost predicate Published(
      xs: seq<int>, log: seq<Entry<int>>, nodes: seq<BufferedNode>, labels: seq<Interval>, roots: seq<nat>)
  {
    && xs != []
    && |roots| == |log| + 1
    && forall v :: 0 <= v < |roots| ==>
         Placed(Slice(nodes, v), labels, roots[v], Run(SumAddPolicy(), false, xs, log[..v]), 0, |xs| - 1)
  }

  /** The whole state after a log of accepted updates. */
  ghost predicate Coherent(
      xs: seq<int>, log: seq<Entry<int>>, nodes: seq<BufferedNode>, labels: seq<Interval>, roots: seq<nat>, bound: nat)
  {
    && xs != [] && RangesIn(|xs|, log)
    && |roots| == |log| + 1
    && |labels| == |nodes| && Proper(labels)
    && Published(xs, log, nodes, labels, roots)
    && AllSound(nodes, |log|)
    && Counted(|xs|, log, nodes, labels, roots[|log|])
    && Guards(bound, ArrayAfter(xs, log))
  }

  /** One more root after appending entries and copies: the older versions read what they read. */
  lemma {:induction false} PublishOne(
      xs: seq<int>, log: seq<Entry<int>>, nodes: seq<BufferedNode>, labels: seq<Interval>, roots: seq<nat>,
      after: seq<BufferedNode>, labels': seq<Interval>, newRoot: nat, e: Entry<int>)
    requires Published(xs, log, nodes, labels, roots) && |labels| == |nodes|
    requires Appended(nodes, after, |roots|) && labels <= labels'
    requires Placed(Slice(after, |roots|), labels', newRoot,
                    Step(SumAddPolicy(), false, Run(SumAddPolicy(), false, xs, log), |xs| - 1, e), 0, |xs| - 1)
    ensures Published(xs, log + [e], after, labels', roots + [newRoot])
  {
    hide SumAddPolicy, Run, Step, Placed, Slice, Appended;
    var p := SumAddPolicy();
    var log', roots' := log + [e], roots + [newRoot];
    RunNext(xs, log, e);
    OlderSlicesGrow(nodes, after, |roots|);
    forall v | 0 <= v < |roots'|
      ensures Placed(Slice(after, v), labels', roots'[v], Run(p, false, xs, log'[..v]), 0, |xs| - 1)
    {
      if v < |roots| {
        assert log'[..v] == log[..v];
        GrownAgrees(Slice(nodes, v), Slice(after, v), labels, 0, |xs| - 1);
        PlacedAgrees(Slice(nodes, v), labels, Slice(after, v), labels', roots[v], Run(p, false, xs, log[..v]),
                     0, |xs| - 1, 0, |xs| - 1);
      } else {
        assert log'[..v] == log';
      }
    }
  }

  /** What an update of the latest version starts from; the new version reads the latest tree. */
  lemma {:induction false} CoherentStart(
      xs: seq<int>, log: seq<Entry<int>>, nodes: seq<BufferedNode>, labels: seq<Interval>, roots: seq<nat>, bound: nat)
    requires Coherent(xs, log, nodes, labels, roots, bound)
    ensures xs != [] && |roots| == |log| + 1 && RangesIn(|xs|, log) && |labels| == |nodes| && Proper(labels)
    ensures Guards(bound, ArrayAfter(xs, log)) && Published(xs, log, nodes, labels, roots)
    ensures Consistent(SumAddPolicy(), Run(SumAddPolicy(), false, xs, log), 0, |xs| - 1)
    ensures Shaped(Run(SumAddPolicy(), false, xs, log), 0, |xs| - 1)
    ensures Holds(nodes, labels, |log| + 1, roots[|log|], Run(SumAddPolicy(), false, xs, log), FillRun(|xs|, log),
                  0, |xs| - 1)
    ensures Shaped(FillRun(|xs|, log), 0, |xs| - 1) && |nodes| == 2 * |xs| - 1 + CopiesRun(|xs|, log)
    ensures Stands(Slice(nodes, |log|), roots[|log|], Run(SumAddPolicy(), false, xs, log))
    ensures AllSound(nodes, |log| + 1) && Untouched(nodes, labels, 0, |xs| - 1, |log| + 1, |nodes|)
    ensures Undoable(nodes, nodes, [])
  {
    SumAddLawful();
    hide SumAddPolicy, Guards, ArrayAfter, Lawful, InducedActionsCommute, Run, FillRun, CopiesRun;
    assert log[..|log|] == log;
    PlacedStands(Fill(nodes), labels, roots[|log|], FillRun(|xs|, log), 0, |xs| - 1);
    LawfulRun(xs, log);
    NewestSlicesAgree(nodes, |log|, |log| + 1);
    PlacedStands(Slice(nodes, |log|), labels, roots[|log|], Run(SumAddPolicy(), false, xs, log), 0, |xs| - 1);
    assert forall j :: 0 <= j < |nodes| ==> Sound(nodes[j], |log|);
  }

  lemma {:induction false} LawfulRun(xs: seq<int>, log: seq<Entry<int>>)
    requires xs != [] && RangesIn(|xs|, log)
    ensures Consistent(SumAddPolicy(), Run(SumAddPolicy(), false, xs, log), 0, |xs| - 1)
  {
    SumAddLawful();
    RunRepresentsOracle(SumAddPolicy(), false, xs, log);
  }

  /** What a query of a published version reads. */
  lemma {:induction false} CoherentVersion(
      xs: seq<int>, log: seq<Entry<int>>, nodes: seq<BufferedNode>, labels: seq<Interval>, roots: seq<nat>, bound: nat,
      version: nat)
    requires Coherent(xs, log, nodes, labels, roots, bound) && version < |roots|
    ensures version <= |log| && RangesIn(|xs|, log[..version])
    ensures var t := Run(SumAddPolicy(), false, xs, log[..version]);
            Stands(Slice(nodes, version), roots[version], t) && Shaped(t, 0, |xs| - 1)
  {
    hide Slice, Run, SumAddPolicy, Guards, Placed;
    PlacedStands(Slice(nodes, version), labels, roots[version], Run(SumAddPolicy(), false, xs, log[..version]),
                 0, |xs| - 1);
  }

  /** What an accepted nonzero update leaves. */
  lemma {:induction false} CoherentNext(
      xs: seq<int>, log: seq<Entry<int>>, nodes: seq<BufferedNode>, labels: seq<Interval>, roots: seq<nat>, bound: nat,
      after: seq<BufferedNode>, labels': seq<Interval>, newRoot: nat, next: nat, e: Entry<int>)
    requires Coherent(xs, log, nodes, labels, roots, bound) && ValidRange(|xs|, e.left, e.right)
    requires Confined(nodes, labels, after, labels', 0, |xs| - 1, |log| + 1)
    requires e.action != 0
    requires Holds(after, labels', |log| + 1, newRoot,
                   Step(SumAddPolicy(), false, Run(SumAddPolicy(), false, xs, log), |xs| - 1, e),
                   FillAfter(FillRun(|xs|, log), 0, |xs| - 1, e.left, e.right), 0, |xs| - 1)
    requires |after| == |nodes| + Copies(FillRun(|xs|, log), 0, |xs| - 1, e.left, e.right)
    requires Guards(next, AddRange(ArrayAfter(xs, log), e.left, e.right, e.action))
    ensures Coherent(xs, log + [e], after, labels', roots + [newRoot], next)
  {
    hide Step, Run, Guards, SumAddPolicy, Placed, Published, AllSound, Counted, FillRun, FillAfter, Copies, Appended,
         ArrayAfter, AddRange, Proper, Meets;
    CountedNext(|xs|, log, nodes, labels, roots[|log|], after, labels', newRoot, e);
    PublishOne(xs, log, nodes, labels, roots, after, labels', newRoot, e);
    OneMore(false, xs, log, e);
  }

  /** A zero delta shares the latest root. */
  lemma {:induction false} CoherentSame(
      xs: seq<int>, log: seq<Entry<int>>, nodes: seq<BufferedNode>, labels: seq<Interval>, roots: seq<nat>, bound: nat,
      e: Entry<int>)
    requires Coherent(xs, log, nodes, labels, roots, bound) && e.action == 0 && ValidRange(|xs|, e.left, e.right)
    ensures Coherent(xs, log + [e], nodes, labels, roots + [roots[|roots| - 1]], bound)
  {
    hide Run, Guards, Placed, Published, AllSound, Undoable, Untouched, Stands, Shaped, Consistent, Counted, FillRun,
         CopiesRun;
    CountedSame(|xs|, log, nodes, labels, roots[|log|], e);
    CoherentStart(xs, log, nodes, labels, roots, bound);
    OneMore(false, xs, log, e);
    PublishOne(xs, log, nodes, labels, roots, nodes, labels, roots[|roots| - 1], e);
  }

  lemma {:induction false} StepIsUpdate(t: Tree<int, int>, last: nat, e: Entry<int>)
    requires e.action != 0
    ensures Step(SumAddPolicy(), false, t, last, e)
         == TagTrees.Update(SumAddPolicy(), false, t, 0, last, e.left, e.right, e.action)
  {
  }

  /** What a successful nonzero update leaves, and what it left alone. */
  lemma {:induction false} AfterUpdate(
      xs: seq<int>, log: seq<Entry<int>>, nodes: seq<BufferedNode>, labels: seq<Interval>, roots: seq<nat>, bound: nat,
      after: seq<BufferedNode>, labels': seq<Interval>, newRoot: nat, next: nat, e: Entry<int>)
    requires Coherent(xs, log, nodes, labels, roots, bound) && ValidRange(|xs|, e.left, e.right) && e.action != 0
    requires Confined(nodes, labels, after, labels', 0, |xs| - 1, |log| + 1)
    requires Holds(after, labels', |log| + 1, newRoot,
                   TagTrees.Update(SumAddPolicy(), false, Run(SumAddPolicy(), false, xs, log), 0, |xs| - 1,
                                   e.left, e.right, e.action),
                   FillAfter(FillRun(|xs|, log), 0, |xs| - 1, e.left, e.right), 0, |xs| - 1)
    requires |after| == |nodes| + Copies(FillRun(|xs|, log), 0, |xs| - 1, e.left, e.right)
    requires Guards(next, AddRange(ArrayAfter(xs, log), e.left, e.right, e.action))
    ensures Coherent(xs, log + [e], after, labels', roots + [newRoot], next)
    ensures forall v :: 0 <= v < |roots| ==> Slice(nodes, v) <= Slice(after, v)
  {
    StepIsUpdate(Run(SumAddPolicy(), false, xs, log), |xs| - 1, e);
    ConfinedFacts(nodes, labels, after, labels', 0, |xs| - 1, |log| + 1);
    OlderSlicesGrow(nodes, after, |log| + 1);
    hide Step, Run, Guards, SumAddPolicy, Holds, Published, AllSound, Slice, Confined, TagTrees.Update, AddRange,
         FillRun, CopiesRun, FillAfter, Copies;
    CoherentNext(xs, log, nodes, labels, roots, bound, after, labels', newRoot, next, e);
  }

  /** A zero delta, or one that the guard accepts and whose deltas are representable. */
  ghost predicate BufferedAccepted(xs: seq<int>, log: seq<Entry<int>>, bound: nat, l: nat, r: nat, value: int) {
    && xs != []
    && (value == 0
        || (&& GuardAccepts(false, xs, log, bound, l, r, value)
            && DeltasFit(Run(SumAddPolicy(), false, xs, log), 0, |xs| - 1, l, r, value)))
  }

  lemma {:induction false} BufferedAcceptedIs(
      xs: seq<int>, log: seq<Entry<int>>, bound: nat, l: nat, r: nat, value: int)
    requires xs != []
    ensures BufferedAccepted(xs, log, bound, l, r, value)
       <==> || value == 0
            || (&& GuardAccepts(false, xs, log, bound, l, r, value)
                && DeltasFit(Run(SumAddPolicy(), false, xs, log), 0, |xs| - 1, l, r, value))
  {
  }

  // ---------------------------------------------------------------- build

  /** What `build` has made of [lo, hi], on top of what it started from. */
  ghost predicate Built(
      values: seq<int>, arena: seq<BufferedNode>, labels: seq<Interval>, nodes: seq<BufferedNode>,
      labels': seq<Interval>, root: nat, lo: nat, hi: nat)
    requires lo <= hi < |values|
  {
    && |labels| == |arena|
    && |nodes| == |labels'| == |arena| + 2 * (hi - lo + 1) - 1
    && arena <= nodes && labels <= labels' && AllSound(nodes, 0) && Proper(labels')
    && Holds(nodes, labels', 0, root, Build(SumAddPolicy(), values, lo, hi), Zeros(lo, hi), lo, hi)
    && CanonicalSum(values, lo, hi) == Some(Build(SumAddPolicy(), values, lo, hi).agg)
    && nodes[root].buffer == []
  }

  lemma {:induction false} BuiltFacts(
      values: seq<int>, arena: seq<BufferedNode>, labels: seq<Interval>, nodes: seq<BufferedNode>,
      labels': seq<Interval>, root: nat, lo: nat, hi: nat)
    requires lo <= hi < |values| && Built(values, arena, labels, nodes, labels', root, lo, hi)
    ensures |labels'| == |nodes| && AllSound(nodes, 0) && Proper(labels') && CanonicalSum(values, lo, hi).Some?
  {
  }

  lemma {:induction false} CanonicalSumSplits(values: seq<int>, lo: nat, hi: nat)
    requires lo < hi < |values|
    ensures CanonicalSum(values, lo, hi).Some? ==>
              CanonicalSum(values, lo, Midpoint(lo, hi)).Some? && CanonicalSum(values, Midpoint(lo, hi) + 1, hi).Some?
  {
  }

  lemma {:induction false} BuiltLeaf(values: seq<int>, arena: seq<BufferedNode>, labels: seq<Interval>, at: nat)
    requires at < |values| && |labels| == |arena| && AllSound(arena, 0) && Proper(labels) && Fits(values[at])
    ensures Built(values, arena, labels, arena + [BufferedNode(NO_NODE, NO_NODE, values[at], 0, [])],
                  labels + [(at, at)], |arena|, at, at)
  {
    SoundFresh(arena, BufferedNode(NO_NODE, NO_NODE, values[at], 0, []));
  }

  lemma {:induction false} SoundFresh(nodes: seq<BufferedNode>, node: BufferedNode)
    requires AllSound(nodes, 0) && node.buffer == [] && Fits(node.baseSum) && Fits(node.baseLazy)
    ensures AllSound(nodes + [node], 0)
  {
    assert Sound(node, 0);
    forall j | 0 <= j < |nodes| + 1 ensures Sound((nodes + [node])[j], 0) {
      if j < |nodes| {
        assert Sound(nodes[j], 0);
      }
    }
  }

  /** Two built halves: their base sums are their canonical sums. */
  lemma {:induction false} BuiltSums(
      values: seq<int>, arena: seq<BufferedNode>, labels: seq<Interval>, a: seq<BufferedNode>, la: seq<Interval>,
      left: nat, b: seq<BufferedNode>, lb: seq<Interval>, right: nat, lo: nat, hi: nat)
    requires lo < hi < |values|
    requires Built(values, arena, labels, a, la, left, lo, Midpoint(lo, hi))
    requires Built(values, a, la, b, lb, right, Midpoint(lo, hi) + 1, hi)
    ensures left < |b| && right < |b|
    ensures CanonicalSum(values, lo, hi) == SumAddPolicy().TryCombine(b[left].baseSum, b[right].baseSum)
  {
    assert b[left] == a[left];
  }

  lemma BuiltSumFits(x: int, y: int)
    ensures var sum := SumAddPolicy().TryCombine(x, y); sum.Some? ==> Fits(sum.value)
  {
  }

  lemma FreshCell(node: BufferedNode)
    requires node.buffer == []
    ensures CellOf(node, 0) == Cell(node.left, node.right, node.baseSum, node.baseLazy)
  {
  }

  /** The node `build` appends above two built halves. */
  lemma {:induction false} BuiltNode(
      values: seq<int>, arena: seq<BufferedNode>, labels: seq<Interval>, a: seq<BufferedNode>, la: seq<Interval>,
      left: nat, b: seq<BufferedNode>, lb: seq<Interval>, right: nat, lo: nat, hi: nat, sum: int)
    requires lo < hi < |values|
    requires Built(values, arena, labels, a, la, left, lo, Midpoint(lo, hi))
    requires Built(values, a, la, b, lb, right, Midpoint(lo, hi) + 1, hi)
    requires CanonicalSum(values, lo, hi) == Some(sum) && Fits(sum)
    ensures Built(values, arena, labels, b + [BufferedNode(left, right, sum, 0, [])], lb + [(lo, hi)], |b|, lo, hi)
  {
    hide AllSound, Placed, Folded, CanonicalSum, Build, SumAddPolicy;
    var fill := Zeros(lo, hi);
    var t, mid, node := Build(SumAddPolicy(), values, lo, hi), Midpoint(lo, hi), BufferedNode(left, right, sum, 0, []);
    var after, labels' := b + [node], lb + [(lo, hi)];
    BuildNode(values, lo, hi);
    BuildSum(values, lo, hi);
    FreshCell(node);
    PlacedAgrees(Slice(a, 0), la, Slice(b, 0), lb, left, t.left, lo, mid, lo, mid);
    PlacedAgrees(Fill(a), la, Fill(b), lb, left, fill.left, lo, mid, lo, mid);
    PlacedAbove(Slice(b, 0), lb, Slice(after, 0), labels', left, right, |b|, t, lo, hi);
    PlacedAbove(Fill(b), lb, Fill(after), labels', left, right, |b|, fill, lo, hi);
    SoundFresh(b, node);
  }

  lemma NothingUnsound()
    ensures AllSound([], 0)
  {
  }

  lemma {:induction false} CoherentInitial(
      values: seq<int>, nodes: seq<BufferedNode>, labels: seq<Interval>, root: nat, bound: nat)
    requires values != [] && Built(values, [], [], nodes, labels, root, 0, |values| - 1)
    requires Guards(bound, values)
    ensures Coherent(values, [], nodes, labels, [root], bound)
  {
    assert Run(SumAddPolicy(), false, values, []) == Build(SumAddPolicy(), values, 0, |values| - 1);
    hide Slice, AllSound, SumAddPolicy;
  }

  class BufferedPathCopyingSegmentTree {
    var nodes: seq<BufferedNode>
    var roots: seq<nat>
    var arraySize: nat
    var magnitudeBound: nat
    /** Nodes that absorbed an entry in place during the update in progress. */
    var bufferedThisUpdate: seq<nat>
    ghost var labels: seq<Interval>
    ghost var initial: seq<int>
    ghost var log: seq<Entry<int>>

    constructor ()
      ensures Valid() && roots == []
    {
      nodes, roots, labels, arraySize, magnitudeBound, bufferedThisUpdate := [], [], [], 0, 0, [];
      initial, log := [], [];
    }

    /** The array of the latest version. */
    ghost function Current(): seq<int>
      reads this
    {
      ArrayAfter(initial, log)
    }

    ghost predicate Valid()
      reads this
    {
      && arraySize == |initial|
      && (roots == [] ==> arraySize == 0)
      && if arraySize > 0 then Coherent(initial, log, nodes, labels, roots, magnitudeBound)
         else log == [] && nodes == []
    }

    /**
     `rangeAdd`: publishes one version, or undoes every append it made.  Entries appended to nodes that older versions
     reach are invisible to those versions.
     */
    method RangeAdd(l: nat, r: nat, value: int, mayExhaust: bool) returns (version: Option<nat>)
      requires Valid() && Fits(value)
      modifies this
      ensures Valid() && initial == old(initial)
      ensures version.Some? ==>
                && version.value == |old(roots)| && |roots| == |old(roots)| + 1 && old(roots) <= roots
                && log == old(log) + [Entry(l, r, value)]
      ensures version.Some? ==>
                && ValidRange(arraySize, l, r)
                && |nodes| == |old(nodes)| + (if value == 0 then 0
                                              else Copies(FillRun(arraySize, old(log)), 0, arraySize - 1, l, r))
                && |nodes| <= |old(nodes)| + Visited(0, arraySize - 1, l, r)
                && BufferedAccepted(initial, old(log), old(magnitudeBound), l, r, value)
                && Commits(initial, old(log), old(magnitudeBound), l, r, value, magnitudeBound)
      ensures version.Some? && value == 0 ==>
                && nodes == old(nodes)
                && old(roots) != [] && roots == old(roots) + [old(roots)[|old(roots)| - 1]]
      ensures forall v :: 0 <= v < |old(roots)| ==> Slice(old(nodes), v) <= Slice(nodes, v)
      ensures version.None? ==> nodes == old(nodes) && roots == old(roots) && log == old(log)
                                && magnitudeBound == old(magnitudeBound)
      ensures version.None? && !mayExhaust ==>
                || old(roots) == [] || !ValidRange(|initial|, l, r)
                || !BufferedAccepted(initial, log, magnitudeBound, l, r, value)
    {
      hide Coherent, Run, SumAddPolicy, ProposalFits, Guards, Visited, BufferedAccepted, GuardAccepts, DeltasFit,
           Commits, Copies, FillRun;
      if roots == [] || !ValidRange(arraySize, l, r) {
        return None;
      }
      BufferedAcceptedIs(initial, log, magnitudeBound, l, r, value);
      var newRoot := roots[|roots| - 1];
      if value == 0 {
        CoherentSame(initial, log, nodes, labels, roots, magnitudeBound, Entry(l, r, value));
        NothingAccepted(false, initial, log, magnitudeBound, l, r);
        var exhausted := Exhausted(mayExhaust);
        if exhausted {
          return None;
        }
      } else {
        var bound := Preflight(l, r, value);
        if bound.None? {
          return None;
        }
        var updated := Apply(l, r, value, mayExhaust, bound.value, Run(SumAddPolicy(), false, initial, log));
        if updated.None? {
          return None;
        }
        newRoot := updated.value;
        magnitudeBound := bound.value;
      }
      roots := roots + [newRoot];
      log := log + [Entry(l, r, value)];
      return Some(|roots| - 1);
    }

    /** The guard, over the leaves of the latest version. */
    method Preflight(l: nat, r: nat, value: int) returns (bound: Option<nat>)
      requires arraySize == |initial| && Coherent(initial, log, nodes, labels, roots, magnitudeBound)
      requires ValidRange(arraySize, l, r) && Fits(value) && value != 0
      ensures bound.Some? ==> Guards(bound.value, AddRange(Current(), l, r, value))
      ensures bound.Some? ==> Commits(initial, log, magnitudeBound, l, r, value, bound.value)
      ensures bound.Some? <==> initial != [] && GuardAccepts(false, initial, log, magnitudeBound, l, r, value)
    {
      hide Coherent, Published, Stands, Shaped, ProposalFits, Guards, Run, SumAddPolicy, Untouched, AllSound,
           ArrayAfter, AddRange, TryMaterialize, Slice, Consistent, Placed, Undoable, DeltasFit, GuardAccepts,
           Committed, ProvesRepresentability, MaterializeArena, Holds, FillRun, CopiesRun;
      CoherentStart(initial, log, nodes, labels, roots, magnitudeBound);
      ghost var t := Run(SumAddPolicy(), false, initial, log);
      var leaves := MaterializeArena(SumAddPolicy(), Slice(nodes, |roots| - 1), roots[|roots| - 1],
                                     0, arraySize - 1, 0, t);
      LeavesAreCurrent(false, initial, log);
      bound := ValidateRangeAdd(magnitudeBound, arraySize, l, r, value, leaves, Current());
      GuardDecides(false, initial, log, magnitudeBound, l, r, value, bound);
    }

    /** The update, undone completely when any part of it, or the append of its root, fails. */
    method Apply(l: nat, r: nat, value: int, mayExhaust: bool, ghost next: nat, ghost t: Tree<int, int>)
      returns (newRoot: Option<nat>)
      requires arraySize == |initial| && Coherent(initial, log, nodes, labels, roots, magnitudeBound)
      requires ValidRange(arraySize, l, r) && value != 0 && Fits(value)
      requires Guards(next, AddRange(Current(), l, r, value))
      requires t == Run(SumAddPolicy(), false, initial, log)
      modifies this`nodes, this`labels, this`bufferedThisUpdate
      ensures newRoot.Some? ==>
                Coherent(initial, log + [Entry(l, r, value)], nodes, labels, roots + [newRoot.value], next)
      ensures newRoot.Some? ==>
                && |nodes| == |old(nodes)| + Copies(FillRun(arraySize, log), 0, arraySize - 1, l, r)
                && |nodes| <= |old(nodes)| + Visited(0, arraySize - 1, l, r)
      ensures newRoot.Some? ==> DeltasFit(t, 0, arraySize - 1, l, r, value)
      ensures newRoot.None? ==> nodes == old(nodes) && labels == old(labels)
      ensures newRoot.None? ==> mayExhaust || !DeltasFit(t, 0, arraySize - 1, l, r, value)
      ensures forall v :: 0 <= v < |roots| ==> Slice(old(nodes), v) <= Slice(nodes, v)
    {
      ghost var e := Entry(l, r, value);
      hide Coherent, Published, Stands, Shaped, Guards, Run, SumAddPolicy, Untouched, AllSound, ArrayAfter, AddRange,
           Slice, Consistent, Holds, Placed, Proper, Undoable, DeltasFit, Confined, TagTrees.Update, Visited, Copies,
           FillRun, FillAfter, Copied, CopiesRun;
      CoherentStart(initial, log, nodes, labels, roots, magnitudeBound);
      bufferedThisUpdate := [];
      var checkpoint := |nodes|;
      ghost var fill := FillRun(arraySize, log);
      CopiesOfRange(arraySize, fill, l, r);
      newRoot := Update(roots[|roots| - 1], |roots|, 0, arraySize - 1, l, r, value, mayExhaust, old(nodes), t, fill);
      var exhausted := Exhausted(mayExhaust);
      if exhausted {
        newRoot := None;
      }
      if newRoot.None? {
        RollBack(checkpoint, old(nodes));
        labels := old(labels);
        return;
      }
      AfterUpdate(initial, log, old(nodes), old(labels), roots, magnitudeBound, nodes, labels, newRoot.value, next, e);
    }

    /** The handler of a failed update: pop the entries appended in place, then drop the copies. */
    method RollBack(checkpoint: nat, ghost start: seq<BufferedNode>)
      requires checkpoint == |start| && Undoable(start, nodes, bufferedThisUpdate)
      modifies this`nodes
      ensures nodes == start
    {
      var k := 0;
      while k < |bufferedThisUpdate|
        invariant k <= |bufferedThisUpdate|
        invariant Undoable(start, nodes, bufferedThisUpdate[k..])
      {
        var i := bufferedThisUpdate[k];
        ghost var rest := bufferedThisUpdate[k..];
        assert rest[1..] == bufferedThisUpdate[k + 1..] && rest == [i] + rest[1..];
        PoppedOne(start, nodes, rest);
        nodes := nodes[i := nodes[i].(buffer := nodes[i].buffer[..|nodes[i].buffer| - 1])];
        k := k + 1;
      }
      assert bufferedThisUpdate[k..] == [];
      UndoneIsStart(start, nodes);
      nodes := nodes[..checkpoint];
    }

    /** `rangeSum`: an answer is the sum over the array of the version asked for. */
    method RangeSum(version: nat, l: nat, r: nat) returns (answer: Option<int>)
      requires Valid()
      ensures answer.Some? ==> version < |roots| && ValidRange(arraySize, l, r)
      ensures answer.Some? ==> answer.value == Sum(ArrayAfter(initial, log[..version])[l..r + 1])
      ensures version < |roots| && ValidRange(arraySize, l, r) ==>
                answer == TryQuery(SumAddPolicy(), Run(SumAddPolicy(), false, initial, log[..version]),
                                   0, arraySize - 1, l, r, 0)
    {
      if version >= |roots| || !ValidRange(arraySize, l, r) {
        return None;
      }
      hide Coherent, Run, Slice, Stands, Shaped, SumAddPolicy, ArrayAfter, TryQuery;
      ghost var t := Run(SumAddPolicy(), false, initial, log[..version]);
      CoherentVersion(initial, log, nodes, labels, roots, magnitudeBound, version);
      CheckedAnswerIsSum(false, initial, log[..version], l, r);
      answer := QueryArena(SumAddPolicy(), Slice(nodes, version), roots[version], 0, arraySize - 1, l, r, 0, t);
    }

    /** `nodeCount`: the build, and one node for every copy. */
    method NodeCount() returns (count: nat)
      requires Valid()
      ensures arraySize > 0 ==> count == 2 * arraySize - 1 + CopiesRun(arraySize, log)
      ensures arraySize > 0 ==>
                var last := arraySize - 1;
                && Thirds(log, 0, arraySize, 0, last) <= count - (2 * arraySize - 1)
                && count - (2 * arraySize - 1) <= NestedThirds(log, 0, arraySize, 0, last)
      ensures arraySize > 0 && WholeUpdates(arraySize, log) ==> count == 2 * arraySize - 1 + Nonzeros(log) / 3
      ensures arraySize == 0 ==> count == 0
    {
      hide Published, AllSound, Placed, Guards, CopiesRun, FillRun, Run, CopiedWithin, Thirds, NestedThirds,
           WholeUpdates;
      if arraySize > 0 {
        CopiesOfEach(arraySize, log);
        if WholeUpdates(arraySize, log) {
          WholeThirds(arraySize, log);
        }
      }
      count := |nodes|;
    }

    /** `build` */
    static method BuildInto(values: seq<int>, arena: seq<BufferedNode>, ghost labels: seq<Interval>, lo: nat, hi: nat)
      returns (built: Option<(seq<BufferedNode>, nat)>, ghost labels': seq<Interval>)
      requires lo <= hi < |values| && |labels| == |arena| && AllSound(arena, 0) && Proper(labels)
      requires forall i :: 0 <= i < |values| ==> Fits(values[i])
      ensures built.Some? <==> CanonicalSum(values, lo, hi).Some?
      ensures built.Some? ==> Built(values, arena, labels, built.value.0, labels', built.value.1, lo, hi)
      decreases hi - lo
    {
      hide Built, AllSound, CanonicalSum, Build, SumAddPolicy;
      labels' := labels;
      if lo == hi {
        BuiltLeaf(values, arena, labels, lo);
        var leaf := BufferedNode(NO_NODE, NO_NODE, values[lo], 0, []);
        return Some((arena + [leaf], |arena|)), labels + [(lo, hi)];
      }
      var mid := Midpoint(lo, hi);
      CanonicalSumSplits(values, lo, hi);
      var left, leftLabels := BuildInto(values, arena, labels, lo, mid);
      if left.None? {
        return None, labels';
      }
      BuiltFacts(values, arena, labels, left.value.0, leftLabels, left.value.1, lo, mid);
      var right, rightLabels := BuildInto(values, left.value.0, leftLabels, mid + 1, hi);
      if right.None? {
        return None, labels';
      }
      var nodes := right.value.0;
      BuiltSums(values, arena, labels, left.value.0, leftLabels, left.value.1, nodes, rightLabels, right.value.1,
                lo, hi);
      BuiltSumFits(nodes[left.value.1].baseSum, nodes[right.value.1].baseSum);
      var sum := SumAddPolicy().TryCombine(nodes[left.value.1].baseSum, nodes[right.value.1].baseSum);
      if sum.None? {
        return None, labels';
      }
      BuiltNode(values, arena, labels, left.value.0, leftLabels, left.value.1, nodes, rightLabels, right.value.1,
                lo, hi, sum.value);
      return Some((nodes + [BufferedNode(left.value.1, right.value.1, sum.value, 0, [])], |nodes|)),
             rightLabels + [(lo, hi)];
    }

    /** `initialize`: replaces the whole history, or fails and changes nothing. */
    method Initialize(values: seq<int>, mayExhaust: bool) returns (ok: bool)
      requires Valid() && forall i :: 0 <= i < |values| ==> Fits(values[i])
      modifies this
      ensures Valid()
      ensures ok ==> CanonicalSumsFit(values)
      ensures !ok ==> mayExhaust || !CanonicalSumsFit(values)
      ensures ok ==> initial == values && log == [] && |roots| == 1
      ensures ok ==> Largest(magnitudeBound, values)
      ensures !ok ==> unchanged(this)
    {
      hide Coherent, Built, AllSound, CanonicalSum, SumAddPolicy;
      var exhausted := Exhausted(mayExhaust);
      if exhausted {
        return false;
      }
      NothingUnsound();
      var bound := MaxMagnitude(values);
      if values == [] {
        nodes, roots, labels, arraySize := [], [NO_NODE], [], 0;
        initial, log, magnitudeBound, bufferedThisUpdate := [], [], bound, [];
        return true;
      }
      var built, labels' := BuildInto(values, [], [], 0, |values| - 1);
      if built.None? {
        return false;
      }
      CoherentInitial(values, built.value.0, labels', built.value.1, bound);
      nodes, roots, labels := built.value.0, [built.value.1], labels';
      initial, log, magnitudeBound, bufferedThisUpdate := values, [], bound, [];
      arraySize := |values|;
      return true;
    }

    /** `modify`: append the entry to a free slot in place, or copy the node with its buffer flushed. */
    method Modify(i: nat, version: nat, deltaSum: int, deltaLazy: int, lo: nat, hi: nat, mayExhaust: bool,
                  ghost start: seq<BufferedNode>, ghost u: Tree<int, int>, ghost g: Tree<nat, nat>)
      returns (index: Option<nat>)
      requires i < |start| && i < |nodes| == |labels| && labels[i] == (lo, hi) && lo <= hi
      requires Proper(labels) && AllSound(nodes, version) && Undoable(start, nodes, bufferedThisUpdate)
      requires forall k :: 0 <= k < |nodes[i].buffer| ==> nodes[i].buffer[k].version < version
      requires Fits(deltaSum) && Fits(deltaLazy) && (u.Leaf? <==> lo == hi)
      requires var s := SnapshotOf(nodes[i], version); u.agg == s.sum + deltaSum && u.tag == s.lazy + deltaLazy
      requires g.agg == (if Full(nodes[i]) then 0 else |nodes[i].buffer| + 1) && g.tag == 0 && (g.Leaf? <==> lo == hi)
      requires u.Node? ==>
                 && Holds(nodes, labels, version, nodes[i].left, u.left, g.left, lo, Midpoint(lo, hi))
                 && Holds(nodes, labels, version, nodes[i].right, u.right, g.right, Midpoint(lo, hi) + 1, hi)
      modifies this`nodes, this`labels, this`bufferedThisUpdate
      ensures |nodes| == |labels| && Undoable(start, nodes, bufferedThisUpdate)
      ensures index.Some? ==> Confined(old(nodes), old(labels), nodes, labels, lo, hi, version)
      ensures index.Some? ==> Holds(nodes, labels, version, index.value, u, g, lo, hi)
      ensures index.Some? ==> Fits(u.agg) && Fits(u.tag)
      ensures index.None? ==> mayExhaust || !Fits(u.agg) || !Fits(u.tag)
      ensures index.Some? ==>
                if |old(nodes)[i].buffer| >= 2 then index.value == |old(nodes)| && |nodes| == |old(nodes)| + 1
                else index.value == i && |nodes| == |old(nodes)|
    {
      hide Sound, AllSound, Undoable, Confined, Holds, SnapshotOf;
      SoundAt(nodes, i, version);
      var latest := SnapshotAt(nodes[i], version, version);
      var nextSum := CheckedAdd(latest.sum, deltaSum);
      var nextLazy := CheckedAdd(latest.lazy, deltaLazy);
      if nextSum.None? || nextLazy.None? {
        return None;
      }
      var exhausted := Exhausted(mayExhaust);
      if exhausted {
        return None;
      }
      if |nodes[i].buffer| < BUFFER_CAPACITY {
        var m := Modification(version, deltaSum, deltaLazy);
        ModifiedInPlace(start, nodes, labels, bufferedThisUpdate, i, m, lo, hi, version, u, g);
        bufferedThisUpdate := bufferedThisUpdate + [i];
        nodes := nodes[i := nodes[i].(buffer := nodes[i].buffer + [m])];
        return Some(i);
      }
      var copy := BufferedNode(nodes[i].left, nodes[i].right, nextSum.value, nextLazy.value, []);
      index := Copy(copy, lo, hi, version, start, u, g);
    }

    /** `push_back` of a copied node. */
    method Copy(copy: BufferedNode, lo: nat, hi: nat, ghost version: nat,
                ghost start: seq<BufferedNode>, ghost u: Tree<int, int>, ghost g: Tree<nat, nat>)
      returns (index: Option<nat>)
      requires |nodes| == |labels| && lo <= hi && Proper(labels) && AllSound(nodes, version)
      requires Undoable(start, nodes, bufferedThisUpdate) && (u.Leaf? <==> lo == hi)
      requires copy.buffer == [] && Fits(copy.baseSum) && Fits(copy.baseLazy)
      requires u.agg == copy.baseSum && u.tag == copy.baseLazy
      requires g.agg == 0 && g.tag == 0 && (g.Leaf? <==> lo == hi)
      requires u.Node? ==>
                 && Holds(nodes, labels, version, copy.left, u.left, g.left, lo, Midpoint(lo, hi))
                 && Holds(nodes, labels, version, copy.right, u.right, g.right, Midpoint(lo, hi) + 1, hi)
      modifies this`nodes, this`labels
      ensures |nodes| == |labels| && Undoable(start, nodes, bufferedThisUpdate)
      ensures index == Some(|old(nodes)|) && |nodes| == |old(nodes)| + 1
      ensures Confined(old(nodes), old(labels), nodes, labels, lo, hi, version)
      ensures Holds(nodes, labels, version, index.value, u, g, lo, hi)
    {
      assert SnapshotOf(copy, version) == Snapshot(u.agg, u.tag);
      hide Undoable, AllSound, Holds, Confined, SnapshotOf;
      CopiedFresh(start, nodes, labels, bufferedThisUpdate, copy, lo, hi, version);
      PlacedAgain(nodes, labels, nodes + [copy], labels + [(lo, hi)], |nodes|, copy.left, copy.right, u, g, lo, hi,
                  version);
      nodes := nodes + [copy];
      labels := labels + [(lo, hi)];
      return Some(|nodes| - 1);
    }

    /** `update` */
    method Update(i: nat, version: nat, lo: nat, hi: nat, l: nat, r: nat, value: int, mayExhaust: bool,
                  ghost start: seq<BufferedNode>, ghost t: Tree<int, int>, ghost fill: Tree<nat, nat>)
      returns (index: Option<nat>)
      requires Holds(nodes, labels, version, i, t, fill, lo, hi) && Consistent(SumAddPolicy(), t, lo, hi)
      requires l <= r && Meets(lo, hi, l, r) && Fits(value)
      requires |nodes| == |labels| && Proper(labels) && AllSound(nodes, version)
      requires Untouched(nodes, labels, lo, hi, version, |start|) && Undoable(start, nodes, bufferedThisUpdate)
      modifies this`nodes, this`labels, this`bufferedThisUpdate
      ensures |nodes| == |labels| && Undoable(start, nodes, bufferedThisUpdate)
      ensures index.Some? ==> Confined(old(nodes), old(labels), nodes, labels, lo, hi, version)
      ensures index.Some? ==>
                Holds(nodes, labels, version, index.value,
                      TagTrees.Update(SumAddPolicy(), false, t, lo, hi, l, r, value),
                      FillAfter(fill, lo, hi, l, r), lo, hi)
      ensures index.Some? ==> (index.value != i <==> Copied(fill, lo, hi, l, r))
      ensures index.Some? ==> |nodes| == |old(nodes)| + Copies(fill, lo, hi, l, r)
      ensures index.Some? ==> DeltasFit(t, lo, hi, l, r, value)
      ensures index.None? ==> mayExhaust || !DeltasFit(t, lo, hi, l, r, value)
      decreases hi - lo, 2
    {
      hide Holds, Undoable, Confined, Untouched, AllSound, SnapshotOf, FillAfter, Copied, Copies;
      PlacedChildren(nodes, labels, i, t, fill, lo, hi, version, |start|);
      UpdateAddsOverlap(false, t, lo, hi, l, r, value);
      if Covered(lo, hi, l, r) {
        index := UpdateCovered(i, version, lo, hi, l, r, value, mayExhaust, start, t, fill);
      } else {
        RetainedNode(t, lo, hi, l, r, value);
        UnfoldDeltasFit(t, lo, hi, l, r, value);
        hide DeltasFit, Consistent, SumAddPolicy, TagTrees.Update;
        index := UpdatePartial(i, version, lo, hi, l, r, value, mayExhaust, start, t, fill);
      }
    }

    /** Full coverage: the delta of the whole segment, deferred for the children by the tag. */
    method UpdateCovered(i: nat, version: nat, lo: nat, hi: nat, l: nat, r: nat, value: int, mayExhaust: bool,
                         ghost start: seq<BufferedNode>, ghost t: Tree<int, int>, ghost fill: Tree<nat, nat>)
      returns (index: Option<nat>)
      requires Covered(lo, hi, l, r) && Holds(nodes, labels, version, i, t, fill, lo, hi) && Fits(value)
      requires |nodes| == |labels| && Proper(labels) && AllSound(nodes, version)
      requires Untouched(nodes, labels, lo, hi, version, |start|) && Undoable(start, nodes, bufferedThisUpdate)
      modifies this`nodes, this`labels, this`bufferedThisUpdate
      ensures |nodes| == |labels| && Undoable(start, nodes, bufferedThisUpdate)
      ensures index.Some? ==> Confined(old(nodes), old(labels), nodes, labels, lo, hi, version)
      ensures index.Some? ==>
                Holds(nodes, labels, version, index.value,
                      TagTrees.Update(SumAddPolicy(), false, t, lo, hi, l, r, value),
                      FillAfter(fill, lo, hi, l, r), lo, hi)
      ensures index.Some? ==> (index.value != i <==> Copied(fill, lo, hi, l, r))
      ensures index.Some? ==> |nodes| == |old(nodes)| + Copies(fill, lo, hi, l, r)
      ensures index.Some? ==> DeltasFit(t, lo, hi, l, r, value)
      ensures index.None? ==> mayExhaust || !DeltasFit(t, lo, hi, l, r, value)
    {
      PlacedChildren(nodes, labels, i, t, fill, lo, hi, version, |start|);
      CoveredUpdate(t, lo, hi, l, r, value);
      CoveredFill(fill, lo, hi, l, r);
      hide Holds, FillAfter, Copied, Copies, Undoable, Confined, Untouched, AllSound, TagTrees.Update, DeltasFit;
      var length := CheckedLength(Length(lo, hi));
      if length.None? {
        return None;
      }
      var delta := CheckedMultiply(value, length.value);
      if delta.None? {
        return None;
      }
      index := Modify(i, version, delta.value, value, lo, hi, mayExhaust, start,
                      TagTrees.Update(SumAddPolicy(), false, t, lo, hi, l, r, value), FillAfter(fill, lo, hi, l, r));
    }

    /** Partial coverage: the children first, then this node in place if both kept their index, else a copy. */
    method UpdatePartial(i: nat, version: nat, lo: nat, hi: nat, l: nat, r: nat, value: int, mayExhaust: bool,
                         ghost start: seq<BufferedNode>, ghost t: Tree<int, int>, ghost fill: Tree<nat, nat>)
      returns (index: Option<nat>)
      requires !Covered(lo, hi, l, r) && lo < hi && l <= r && Meets(lo, hi, l, r) && Fits(value)
      requires Holds(nodes, labels, version, i, t, fill, lo, hi) && Consistent(SumAddPolicy(), t, lo, hi)
      requires |nodes| == |labels| && Proper(labels) && AllSound(nodes, version)
      requires Untouched(nodes, labels, lo, hi, version, |start|) && Undoable(start, nodes, bufferedThisUpdate)
      modifies this`nodes, this`labels, this`bufferedThisUpdate
      ensures |nodes| == |labels| && Undoable(start, nodes, bufferedThisUpdate)
      ensures index.Some? ==> Confined(old(nodes), old(labels), nodes, labels, lo, hi, version)
      ensures index.Some? ==>
                Holds(nodes, labels, version, index.value,
                      TagTrees.Update(SumAddPolicy(), false, t, lo, hi, l, r, value),
                      FillAfter(fill, lo, hi, l, r), lo, hi)
      ensures index.Some? ==> (index.value != i <==> Copied(fill, lo, hi, l, r))
      ensures index.Some? ==> |nodes| == |old(nodes)| + Copies(fill, lo, hi, l, r)
      ensures index.Some? ==> DeltasFit(t, lo, hi, l, r, value)
      ensures index.None? ==> mayExhaust || !DeltasFit(t, lo, hi, l, r, value)
      decreases hi - lo, 1
    {
      hide Holds, Undoable, Confined, Untouched, AllSound, SnapshotOf, TagTrees.Update, DeltasFit, DeltasFitIfMet,
           Consistent, SumAddPolicy, UpdateIfMet, Overlap, FillAfter, FillIfMet, Copied, CopiedIfMet, Copies,
           CopiesIfMet;
      PlacedChildren(nodes, labels, i, t, fill, lo, hi, version, |start|);
      var current := nodes[i];
      RetainedNode(t, lo, hi, l, r, value);
      UpdateAddsOverlap(false, t, lo, hi, l, r, value);
      UnfoldDeltasFit(t, lo, hi, l, r, value);
      PartialFill(fill, lo, hi, l, r);
      ghost var u := TagTrees.Update(SumAddPolicy(), false, t, lo, hi, l, r, value);
      var left, right := DescendBoth(current.left, current.right, version, lo, hi, l, r, value, mayExhaust,
                                     start, t, fill);
      if left.None? || right.None? {
        return None;
      }
      ghost var nodes2, labels2 := nodes, labels;
      var delta := Delta(lo, hi, l, r, value);
      if delta.None? {
        return None;
      }
      index := Finish(i, current, left.value, right.value, version, lo, hi, delta.value, mayExhaust, start, u,
                      FillAfter(fill, lo, hi, l, r));
      if index.Some? {
        ConfinedThen(old(nodes), old(labels), nodes2, labels2, nodes, labels, lo, hi, lo, hi, version);
      }
    }

    /** The delta of the overlap, if it is representable. */
    method Delta(lo: nat, hi: nat, l: nat, r: nat, value: int) returns (delta: Option<int>)
      requires Fits(value)
      ensures delta.Some? <==> Fits(Overlap(lo, hi, l, r)) && Fits(value * Overlap(lo, hi, l, r))
      ensures delta.Some? ==> delta.value == value * Overlap(lo, hi, l, r)
    {
      var overlap := CheckedLength(Overlap(lo, hi, l, r));
      if overlap.None? {
        return None;
      }
      delta := CheckedMultiply(value, overlap.value);
    }

    /**
     A node both of whose children kept their index is modified itself; otherwise it is copied with the new indices.
     */
    method Finish(i: nat, current: BufferedNode, left: nat, right: nat, version: nat, lo: nat, hi: nat, delta: int,
                  mayExhaust: bool, ghost start: seq<BufferedNode>, ghost u: Tree<int, int>, ghost g: Tree<nat, nat>)
      returns (index: Option<nat>)
      requires i < |start| && i < |nodes| == |labels| && labels[i] == (lo, hi) && lo < hi && nodes[i] == current
      requires Proper(labels) && AllSound(nodes, version) && Undoable(start, nodes, bufferedThisUpdate)
      requires forall k :: 0 <= k < |current.buffer| ==> current.buffer[k].version < version
      requires Fits(delta) && u.Node?
      requires u.agg == SnapshotOf(current, version).sum + delta && u.tag == SnapshotOf(current, version).lazy
      requires g.Node? && g.tag == 0
      requires g.agg == if left != current.left || right != current.right || Full(current) then 0
                        else |current.buffer| + 1
      requires Holds(nodes, labels, version, left, u.left, g.left, lo, Midpoint(lo, hi))
      requires Holds(nodes, labels, version, right, u.right, g.right, Midpoint(lo, hi) + 1, hi)
      modifies this`nodes, this`labels, this`bufferedThisUpdate
      ensures |nodes| == |labels| && Undoable(start, nodes, bufferedThisUpdate)
      ensures index.Some? ==> Confined(old(nodes), old(labels), nodes, labels, lo, hi, version)
      ensures index.Some? ==> Holds(nodes, labels, version, index.value, u, g, lo, hi)
      ensures index.Some? ==> Fits(u.agg)
      ensures index.None? ==> mayExhaust || !Fits(u.agg)
      ensures index.Some? ==>
                if left != current.left || right != current.right || |current.buffer| >= 2
                then index.value == |old(nodes)| && |nodes| == |old(nodes)| + 1
                else index.value == i && |nodes| == |old(nodes)|
    {
      assert Sound(nodes[i], version);
      SnapshotsFit(current, version, version);
      hide Holds, Undoable, Confined, AllSound, Sound, SnapshotOf;
      if left == current.left && right == current.right {
        index := Modify(i, version, delta, 0, lo, hi, mayExhaust, start, u, g);
        return;
      }
      var latest := SnapshotAt(current, version, version);
      var sum := CheckedAdd(latest.sum, delta);
      if sum.None? {
        return None;
      }
      var exhausted := Exhausted(mayExhaust);
      if exhausted {
        return None;
      }
      index := Copy(BufferedNode(left, right, sum.value, latest.lazy, []), lo, hi, version, start, u, g);
    }

    /** The guard of a recursive call. */
    method Descend(i: nat, version: nat, lo: nat, hi: nat, l: nat, r: nat, value: int, mayExhaust: bool,
                   ghost start: seq<BufferedNode>, ghost t: Tree<int, int>, ghost fill: Tree<nat, nat>)
      returns (index: Option<nat>)
      requires Holds(nodes, labels, version, i, t, fill, lo, hi) && Consistent(SumAddPolicy(), t, lo, hi)
      requires l <= r && Fits(value) && |nodes| == |labels| && Proper(labels) && AllSound(nodes, version)
      requires Untouched(nodes, labels, lo, hi, version, |start|) && Undoable(start, nodes, bufferedThisUpdate)
      modifies this`nodes, this`labels, this`bufferedThisUpdate
      ensures |nodes| == |labels| && Undoable(start, nodes, bufferedThisUpdate)
      ensures index.Some? ==> Confined(old(nodes), old(labels), nodes, labels, lo, hi, version)
      ensures index.Some? ==>
                Holds(nodes, labels, version, index.value, UpdateIfMet(SumAddPolicy(), false, t, lo, hi, l, r, value),
                      FillIfMet(fill, lo, hi, l, r), lo, hi)
      ensures index.Some? ==> (index.value != i <==> CopiedIfMet(fill, lo, hi, l, r))
      ensures index.Some? ==> |nodes| == |old(nodes)| + CopiesIfMet(fill, lo, hi, l, r)
      ensures index.Some? ==> DeltasFitIfMet(t, lo, hi, l, r, value)
      ensures index.None? ==> mayExhaust || !DeltasFitIfMet(t, lo, hi, l, r, value)
      decreases hi - lo, 3
    {
      hide Holds, Undoable, Confined, Untouched, AllSound, TagTrees.Update, DeltasFit, Consistent, SumAddPolicy,
           FillAfter, Copied, Copies;
      if Meets(lo, hi, l, r) {
        index := Update(i, version, lo, hi, l, r, value, mayExhaust, start, t, fill);
      } else {
        ConfinedStart(nodes, labels, lo, hi, version);
        index := Some(i);
      }
    }

    /** The two guarded calls of a partial descent; neither disturbs the other's interval. */
    method DescendBoth(l0: nat, r0: nat, version: nat, lo: nat, hi: nat, l: nat, r: nat, value: int, mayExhaust: bool,
                       ghost start: seq<BufferedNode>, ghost t: Tree<int, int>, ghost fill: Tree<nat, nat>)
      returns (left: Option<nat>, right: Option<nat>)
      requires lo < hi && t.Node? && fill.Node? && l <= r && Fits(value)
      requires Holds(nodes, labels, version, l0, t.left, fill.left, lo, Midpoint(lo, hi))
      requires Holds(nodes, labels, version, r0, t.right, fill.right, Midpoint(lo, hi) + 1, hi)
      requires Consistent(SumAddPolicy(), t.left, lo, Midpoint(lo, hi))
      requires Consistent(SumAddPolicy(), t.right, Midpoint(lo, hi) + 1, hi)
      requires |nodes| == |labels| && Proper(labels) && AllSound(nodes, version)
      requires Untouched(nodes, labels, lo, Midpoint(lo, hi), version, |start|)
      requires Untouched(nodes, labels, Midpoint(lo, hi) + 1, hi, version, |start|)
      requires Undoable(start, nodes, bufferedThisUpdate)
      modifies this`nodes, this`labels, this`bufferedThisUpdate
      ensures |nodes| == |labels| && Undoable(start, nodes, bufferedThisUpdate)
      ensures left.Some? && right.Some? ==>
                && Confined(old(nodes), old(labels), nodes, labels, lo, hi, version)
                && AllSound(nodes, version) && Proper(labels) && |old(nodes)| <= |nodes|
                && forall i :: 0 <= i < |old(nodes)| && old(labels)[i] == (lo, hi) ==>
                     nodes[i] == old(nodes)[i] && labels[i] == old(labels)[i]
      ensures left.Some? && right.Some? ==>
                && Holds(nodes, labels, version, left.value,
                         UpdateIfMet(SumAddPolicy(), false, t.left, lo, Midpoint(lo, hi), l, r, value),
                         FillIfMet(fill.left, lo, Midpoint(lo, hi), l, r), lo, Midpoint(lo, hi))
                && Holds(nodes, labels, version, right.value,
                         UpdateIfMet(SumAddPolicy(), false, t.right, Midpoint(lo, hi) + 1, hi, l, r, value),
                         FillIfMet(fill.right, Midpoint(lo, hi) + 1, hi, l, r), Midpoint(lo, hi) + 1, hi)
                && DeltasFitIfMet(t.left, lo, Midpoint(lo, hi), l, r, value)
                && DeltasFitIfMet(t.right, Midpoint(lo, hi) + 1, hi, l, r, value)
      ensures left.Some? && right.Some? ==>
                && (left.value != l0 <==> CopiedIfMet(fill.left, lo, Midpoint(lo, hi), l, r))
                && (right.value != r0 <==> CopiedIfMet(fill.right, Midpoint(lo, hi) + 1, hi, l, r))
                && |nodes| == |old(nodes)| + CopiesIfMet(fill.left, lo, Midpoint(lo, hi), l, r)
                              + CopiesIfMet(fill.right, Midpoint(lo, hi) + 1, hi, l, r)
      ensures left.None? || right.None? ==>
                || mayExhaust
                || !DeltasFitIfMet(t.left, lo, Midpoint(lo, hi), l, r, value)
                || !DeltasFitIfMet(t.right, Midpoint(lo, hi) + 1, hi, l, r, value)
      decreases hi - lo, 0
    {
      hide Holds, Undoable, Confined, Untouched, AllSound, UpdateIfMet, DeltasFitIfMet, Consistent, SumAddPolicy,
           FillIfMet, CopiedIfMet, CopiesIfMet;
      var mid := Midpoint(lo, hi);
      left, right := None, None;
      left := Descend(l0, version, lo, mid, l, r, value, mayExhaust, start, t.left, fill.left);
      if left.None? {
        return;
      }
      ghost var nodes1, labels1 := nodes, labels;
      ghost var lt := UpdateIfMet(SumAddPolicy(), false, t.left, lo, mid, l, r, value);
      ConfinedFacts(old(nodes), old(labels), nodes, labels, lo, mid, version);
      CarryOver(old(nodes), old(labels), nodes, labels, lo, mid, version, |start|, r0, t.right, fill.right,
                mid + 1, hi);
      right := Descend(r0, version, mid + 1, hi, l, r, value, mayExhaust, start, t.right, fill.right);
      if right.None? {
        return;
      }
      ConfinedFacts(nodes1, labels1, nodes, labels, mid + 1, hi, version);
      CarryOver(nodes1, labels1, nodes, labels, mid + 1, hi, version, |start|, left.value, lt,
                FillIfMet(fill.left, lo, mid, l, r), lo, mid);
      ConfinedChildren(old(nodes), old(labels), nodes1, labels1, nodes, labels, lo, hi, version);
    }
  }
}
