/** LazySegmentTree (src/lazy_segment_tree.cpp): one array, updated in place in a heap of 4n sums and 4n tags. */
module LazyTrees {
  import opened Wrappers
  import opened Canonical
  import opened Checked
  import opened Policies
  import opened TagTrees
  import opened Histories
  import opened Arenas
  import opened Reads
  import opened CheckedUpdates
  import opened SumAdd
  import opened RangeSum
  import opened SumAddRuns
  import opened NumericDomain
  import opened Acceptance
  import opened HeapLayout

  /** The heap as the read-only recursions see it: the children of slot i are 2i + 1 and 2i + 2. */
  function View(tree: seq<int>, lazy: seq<int>): (arena: seq<Cell<int, int>>)
    requires |lazy| == |tree|
    ensures |arena| == |tree|
  {
    seq(|tree|, i requires 0 <= i < |tree| => Cell(2 * i + 1, 2 * i + 2, tree[i], lazy[i]))
  }

  lemma {:induction false} InHeapStands(tree: seq<int>, lazy: seq<int>, i: nat, t: Tree<int, int>)
    requires InHeap(tree, lazy, i, t)
    ensures Stands(View(tree, lazy), i, t)
    decreases t
  {
    if t.Node? {
      InHeapStands(tree, lazy, 2 * i + 1, t.left);
      InHeapStands(tree, lazy, 2 * i + 2, t.right);
    }
  }

  // ---------------------------------------------------------------- build

  /** The sums `build` writes, below slot i. */
  lemma {:induction false} BuiltNode(
      sums: seq<int>, sums1: seq<int>, sums2: seq<int>, i: nat, values: seq<int>, lo: nat, hi: nat)
    requires lo < hi < |values| && i < |sums| && CanonicalSum(values, lo, hi).Some?
    requires AgreeElsewhere(sums, sums1, 2 * i + 1)
    requires Laid(sums1, AggregateOf, 2 * i + 1, Build(SumAddPolicy(), values, lo, Midpoint(lo, hi)))
    requires AgreeElsewhere(sums1, sums2, 2 * i + 2)
    requires Laid(sums2, AggregateOf, 2 * i + 2, Build(SumAddPolicy(), values, Midpoint(lo, hi) + 1, hi))
    ensures 2 * i + 2 < |sums2|
    ensures var u := Build(SumAddPolicy(), values, lo, hi);
            && u.agg == sums2[2 * i + 1] + sums2[2 * i + 2]
            && Laid(sums2[i := u.agg], AggregateOf, i, u) && AgreeElsewhere(sums, sums2[i := u.agg], i)
  {
    hide Laid, Below, AgreeElsewhere, Build, CanonicalSum, Sum;
    BuildNode(values, lo, hi);
    SumInPlace(sums, sums1, sums2, i, Build(SumAddPolicy(), values, lo, hi));
  }

  lemma SameLength(sums: seq<int>, sums': seq<int>, i: nat)
    requires AgreeElsewhere(sums, sums', i)
    ensures |sums'| == |sums|
  {
  }

  /** The sums of two built halves are their canonical sums. */
  lemma {:induction false} BuiltSums(
      sums: seq<int>, sums1: seq<int>, sums2: seq<int>, i: nat, values: seq<int>, lo: nat, hi: nat)
    requires lo < hi < |values|
    requires Laid(sums1, AggregateOf, 2 * i + 1, Build(SumAddPolicy(), values, lo, Midpoint(lo, hi)))
    requires AgreeElsewhere(sums1, sums2, 2 * i + 2)
    requires Laid(sums2, AggregateOf, 2 * i + 2, Build(SumAddPolicy(), values, Midpoint(lo, hi) + 1, hi))
    requires CanonicalSum(values, lo, Midpoint(lo, hi)).Some? && CanonicalSum(values, Midpoint(lo, hi) + 1, hi).Some?
    ensures 2 * i + 2 < |sums2|
    ensures sums2[2 * i + 1] == CanonicalSum(values, lo, Midpoint(lo, hi)).value
    ensures sums2[2 * i + 2] == CanonicalSum(values, Midpoint(lo, hi) + 1, hi).value
  {
    hide Below, Build, CanonicalSum, Sum, SumAddPolicy;
    LaidChildren(sums1, AggregateOf, 2 * i + 1, Build(SumAddPolicy(), values, lo, Midpoint(lo, hi)));
    LaidChildren(sums2, AggregateOf, 2 * i + 2, Build(SumAddPolicy(), values, Midpoint(lo, hi) + 1, hi));
    ElsewhereIsAside(sums1, sums2, i, 2 * i + 2);
    SiblingApart(i);
    BuildSum(values, lo, Midpoint(lo, hi));
    BuildSum(values, Midpoint(lo, hi) + 1, hi);
  }

  // ---------------------------------------------------------------- the structure

  /** The whole state after a log of accepted updates. */
  ghost predicate Coherent(xs: seq<int>, log: seq<Entry<int>>, tree: seq<int>, lazy: seq<int>, bound: nat) {
    && xs != [] && RangesIn(|xs|, log)
    && |tree| == 4 * |xs|
    && InHeap(tree, lazy, 0, Run(SumAddPolicy(), false, xs, log))
    && Guards(bound, ArrayAfter(xs, log))
  }

  lemma {:induction false} CoherentStart(xs: seq<int>, log: seq<Entry<int>>, tree: seq<int>, lazy: seq<int>, bound: nat)
    requires Coherent(xs, log, tree, lazy, bound)
    ensures xs != [] && RangesIn(|xs|, log) && Guards(bound, ArrayAfter(xs, log)) && |lazy| == |tree| == 4 * |xs|
    ensures var t := Run(SumAddPolicy(), false, xs, log);
            InHeap(tree, lazy, 0, t) && Stands(View(tree, lazy), 0, t) && Shaped(t, 0, |xs| - 1)
  {
    hide Stands, Shaped, Guards, Laid, Run, SumAddPolicy;
    InHeapStands(tree, lazy, 0, Run(SumAddPolicy(), false, xs, log));
    RunShaped(SumAddPolicy(), false, xs, log);
  }

  /** What an accepted delta leaves. */
  lemma {:induction false} CoherentNext(
      xs: seq<int>, log: seq<Entry<int>>, tree: seq<int>, lazy: seq<int>, bound: nat,
      tree': seq<int>, lazy': seq<int>, next: nat, e: Entry<int>, u: Tree<int, int>)
    requires Coherent(xs, log, tree, lazy, bound) && ValidRange(|xs|, e.left, e.right)
    requires |tree'| == |tree| && InHeap(tree', lazy', 0, u)
    requires u == Step(SumAddPolicy(), false, Run(SumAddPolicy(), false, xs, log), |xs| - 1, e)
    requires Guards(next, AddRange(ArrayAfter(xs, log), e.left, e.right, e.action))
    ensures Coherent(xs, log + [e], tree', lazy', next)
  {
    hide InHeap, Guards, Run, Step, SumAddPolicy;
    OneMore(false, xs, log, e);
  }

  lemma {:induction false} CoherentSame(
      xs: seq<int>, log: seq<Entry<int>>, tree: seq<int>, lazy: seq<int>, bound: nat, e: Entry<int>)
    requires Coherent(xs, log, tree, lazy, bound) && ValidRange(|xs|, e.left, e.right) && e.action == 0
    ensures Coherent(xs, log + [e], tree, lazy, bound)
  {
    hide InHeap, Guards, Run;
    OneMore(false, xs, log, e);
  }

  /** The tags of a fresh heap are all zero, and four slots an element are enough. */
  lemma {:induction false} CoherentInitial(values: seq<int>, tree: seq<int>, lazy: seq<int>, bound: nat)
    requires values != [] && |tree| == |lazy| == 4 * |values| && Guards(bound, values)
    requires Laid(tree, AggregateOf, 0, Build(SumAddPolicy(), values, 0, |values| - 1))
    requires forall j :: 0 <= j < |lazy| ==> lazy[j] == 0
    ensures Coherent(values, [], tree, lazy, bound)
  {
    hide Guards, Laid, Build;
    var t := Build(SumAddPolicy(), values, 0, |values| - 1);
    BuiltTags(SumAddPolicy(), values, 0, |values| - 1);
    RootRoom(|values|);
    UniformLaid(lazy, TagOf, 0, 0, t, 0, |values| - 1, |values|);
    assert Run(SumAddPolicy(), false, values, []) == t;
  }

  lemma {:induction false} RootSum(tree: seq<int>, lazy: seq<int>, u: Tree<int, int>)
    requires InHeap(tree, lazy, 0, u)
    ensures tree != [] && tree[0] == u.agg
  {
    InHeapChildren(tree, lazy, 0, u);
  }

  /** The preflight's sum is the root's sum after the update, every operation of which is representable. */
  ghost predicate Predicts(xs: seq<int>, log: seq<Entry<int>>, l: nat, r: nat, value: int, root: int) {
    && xs != []
    && SumOf(TryUpdate(SumAddPolicy(), false, Run(SumAddPolicy(), false, xs, log), 0, |xs| - 1, l, r, value))
       == Some(root)
  }

  class LazySegmentTree {
    var tree: seq<int>
    var lazy: seq<int>
    var arraySize: nat
    var magnitudeBound: nat
    ghost var initial: seq<int>
    ghost var log: seq<Entry<int>>

    constructor ()
      ensures Valid() && arraySize == 0
    {
      tree, lazy, arraySize, magnitudeBound, initial, log := [], [], 0, 0, [], [];
    }

    ghost function Current(): seq<int>
      reads this
    {
      ArrayAfter(initial, log)
    }

    ghost predicate Valid()
      reads this
    {
      && arraySize == |initial|
      && (if arraySize > 0 then Coherent(initial, log, tree, lazy, magnitudeBound) else log == [])
    }

    /** `build` */
    static method BuildInto(values: seq<int>, sums: seq<int>, i: nat, lo: nat, hi: nat)
      returns (built: Option<seq<int>>)
      requires lo <= hi < |values| && |sums| == 4 * |values| && Room(i, Length(lo, hi), |values|)
      ensures built.Some? <==> CanonicalSum(values, lo, hi).Some?
      ensures built.Some? ==>
                && Laid(built.value, AggregateOf, i, Build(SumAddPolicy(), values, lo, hi))
                && AgreeElsewhere(sums, built.value, i)
      decreases hi - lo
    {
      hide Laid, AgreeElsewhere, Build, CanonicalSum, Sum, Below, Room, SumAddPolicy;
      RoomIsInside(i, Length(lo, hi), |values|);
      if lo == hi {
        BuildLeaf(values, lo);
        LaidAbove(sums, AggregateOf, i, Build(SumAddPolicy(), values, lo, hi));
        return Some(sums[i := values[lo]]);
      }
      var mid := Midpoint(lo, hi);
      ChildrenRoom(i, lo, hi, |values|);
      SumOrNot(values, lo, hi);
      var left := BuildInto(values, sums, 2 * i + 1, lo, mid);
      if left.None? {
        return None;
      }
      SameLength(sums, left.value, 2 * i + 1);
      var right := BuildInto(values, left.value, 2 * i + 2, mid + 1, hi);
      if right.None? {
        return None;
      }
      SameLength(left.value, right.value, 2 * i + 2);
      BuiltSums(sums, left.value, right.value, i, values, lo, hi);
      var sum := SumAddPolicy().TryCombine(right.value[2 * i + 1], right.value[2 * i + 2]);
      CombineIs(right.value[2 * i + 1], right.value[2 * i + 2]);
      if sum.None? {
        return None;
      }
      BuiltNode(sums, left.value, right.value, i, values, lo, hi);
      return Some(right.value[i := sum.value]);
    }

    /** `initialize`: replaces the array, or fails and changes nothing. */
    method Initialize(values: seq<int>, mayExhaust: bool) returns (ok: bool)
      requires Valid() && forall i :: 0 <= i < |values| ==> Fits(values[i])
      modifies this
      ensures Valid()
      ensures ok ==> CanonicalSumsFit(values)
      ensures !ok ==> mayExhaust || !CanonicalSumsFit(values)
      ensures ok ==> initial == values && log == [] && |tree| == |lazy| == 4 * |values|
      ensures !ok ==> unchanged(this)
    {
      hide Coherent, Laid, AgreeElsewhere, Build, CanonicalSum, Room, Guards;
      var exhausted := Exhausted(mayExhaust);
      if exhausted {
        return false;
      }
      var bound := MaxMagnitude(values);
      GuardsInitially(values, bound);
      var sums, tags := seq(4 * |values|, i => 0), seq(4 * |values|, i => 0);
      if values != [] {
        RootRoom(|values|);
        var built := BuildInto(values, sums, 0, 0, |values| - 1);
        if built.None? {
          return false;
        }
        SameLength(sums, built.value, 0);
        sums := built.value;
        CoherentInitial(values, sums, tags, bound);
      }
      tree, lazy, arraySize, magnitudeBound := sums, tags, |values|, bound;
      initial, log := values, [];
      return true;
    }

    /** `rangeSum`: an answer is the sum over the current array. */
    method RangeSum(l: nat, r: nat) returns (answer: Option<int>)
      requires Valid()
      ensures answer.Some? ==> ValidRange(arraySize, l, r) && answer.value == Sum(Current()[l..r + 1])
      ensures ValidRange(arraySize, l, r) ==>
                answer == TryQuery(SumAddPolicy(), Run(SumAddPolicy(), false, initial, log), 0, arraySize - 1, l, r, 0)
    {
      if !ValidRange(arraySize, l, r) {
        return None;
      }
      hide Coherent, Stands, Shaped, Run, InHeap, TryQuery, SumAddPolicy, ArrayAfter;
      CoherentStart(initial, log, tree, lazy, magnitudeBound);
      CheckedAnswerIsSum(false, initial, log, l, r);
      answer := QueryArena(SumAddPolicy(), View(tree, lazy), 0, 0, arraySize - 1, l, r, 0,
                           Run(SumAddPolicy(), false, initial, log));
    }

    /** `update`: writes in place; its arithmetic was checked before. */
    method Update(i: nat, lo: nat, hi: nat, l: nat, r: nat, value: int, ghost t: Tree<int, int>)
      returns (ghost u: Tree<int, int>)
      requires InHeap(tree, lazy, i, t) && Shaped(t, lo, hi) && Meets(lo, hi, l, r)
      requires TryUpdate(SumAddPolicy(), false, t, lo, hi, l, r, value).Some?
      modifies this`tree, this`lazy
      ensures InHeap(tree, lazy, i, u) && SameElsewhere(old(tree), old(lazy), tree, lazy, i)
      ensures TryUpdate(SumAddPolicy(), false, t, lo, hi, l, r, value) == Some(u)
      decreases hi - lo, 1
    {
      hide InHeap, SameElsewhere, Shaped, TryUpdate, TryStamp, TryJoin, TryIfMet;
      ShapedNode(t, lo, hi);
      InHeapChildren(tree, lazy, i, t);
      if Covered(lo, hi, l, r) {
        CoveredStamp(t, lo, hi, l, r, value);
        u := Stamp(SumAddPolicy(), value, t, Length(lo, hi));
        StampInPlace(tree, lazy, i, t, u);
        var sum := SumAddPolicy().TryApply(value, tree[i], Length(lo, hi));
        var tag := SumAddPolicy().TryCompose(lazy[i], value);
        tree := tree[i := sum.value];
        lazy := lazy[i := tag.value];
        return;
      }
      PartialRetained(t, lo, hi, l, r, value);
      u := UpdatePartial(i, lo, hi, l, r, value, t);
    }

    /** Partial coverage: the children first, then the node's sum over them and its retained tag. */
    method UpdatePartial(i: nat, lo: nat, hi: nat, l: nat, r: nat, value: int, ghost t: Tree<int, int>)
      returns (ghost u: Tree<int, int>)
      requires lo < hi && InHeap(tree, lazy, i, t) && Shaped(t, lo, hi) && t.Node?
      requires var left := TryIfMet(t.left, lo, Midpoint(lo, hi), l, r, value);
               var right := TryIfMet(t.right, Midpoint(lo, hi) + 1, hi, l, r, value);
               && left.Some? && right.Some?
               && TryJoin(SumAddPolicy(), t.tag, left.value, right.value, Length(lo, hi)).Some?
      modifies this`tree, this`lazy
      ensures InHeap(tree, lazy, i, u) && SameElsewhere(old(tree), old(lazy), tree, lazy, i)
      ensures Some(u) == TryJoin(SumAddPolicy(), t.tag, TryIfMet(t.left, lo, Midpoint(lo, hi), l, r, value).value,
                                 TryIfMet(t.right, Midpoint(lo, hi) + 1, hi, l, r, value).value, Length(lo, hi))
      decreases hi - lo, 0
    {
      hide InHeap, SameElsewhere, Shaped, TryJoin, TryIfMet, SumAddPolicy;
      ShapedNode(t, lo, hi);
      InHeapChildren(tree, lazy, i, t);
      var mid := Midpoint(lo, hi);
      ghost var lt := Enter(2 * i + 1, lo, mid, l, r, value, t.left);
      LeftInPlace(old(tree), old(lazy), tree, lazy, i, t.right);
      ghost var tree1, lazy1 := tree, lazy;
      ghost var rt := Enter(2 * i + 2, mid + 1, hi, l, r, value, t.right);
      u := TryJoin(SumAddPolicy(), t.tag, lt, rt, Length(lo, hi)).value;
      JoinIs(t.tag, lt, rt, Length(lo, hi));
      BothInPlace(old(tree), old(lazy), tree1, lazy1, tree, lazy, i, u);
      var children := SumAddPolicy().TryCombine(tree[2 * i + 1], tree[2 * i + 2]);
      var sum := SumAddPolicy().TryApply(lazy[i], children.value, Length(lo, hi));
      tree := tree[i := sum.value];
    }

    /** The guard of a recursive call. */
    method Enter(i: nat, lo: nat, hi: nat, l: nat, r: nat, value: int, ghost t: Tree<int, int>)
      returns (ghost u: Tree<int, int>)
      requires InHeap(tree, lazy, i, t) && Shaped(t, lo, hi) && TryIfMet(t, lo, hi, l, r, value).Some?
      modifies this`tree, this`lazy
      ensures InHeap(tree, lazy, i, u) && SameElsewhere(old(tree), old(lazy), tree, lazy, i)
      ensures TryIfMet(t, lo, hi, l, r, value) == Some(u)
      decreases hi - lo, 2
    {
      hide InHeap, Shaped, TryUpdate, Below;
      if Meets(lo, hi, l, r) {
        u := Update(i, lo, hi, l, r, value, t);
      } else {
        u := t;
      }
    }

    /** The update in place, its arithmetic already known to be representable. */
    method Apply(l: nat, r: nat, value: int, ghost next: nat, ghost root: int)
      requires arraySize == |initial| && Coherent(initial, log, tree, lazy, magnitudeBound)
      requires ValidRange(arraySize, l, r) && value != 0 && Predicts(initial, log, l, r, value, root)
      requires Guards(next, AddRange(Current(), l, r, value))
      modifies this`tree, this`lazy
      ensures Coherent(initial, log + [Entry(l, r, value)], tree, lazy, next)
      ensures tree != [] && tree[0] == root
    {
      hide Coherent, Run, SumAddPolicy, Guards, TryUpdate, InHeap, Shaped, Stands, Step, ArrayAfter, AddRange;
      CoherentStart(initial, log, tree, lazy, magnitudeBound);
      ghost var t := Run(SumAddPolicy(), false, initial, log);
      CheckedStep(false, t, arraySize - 1, l, r, value);
      ghost var u := Update(0, 0, arraySize - 1, l, r, value, t);
      RootSum(tree, lazy, u);
      CoherentNext(initial, log, old(tree), old(lazy), magnitudeBound, tree, lazy, next, Entry(l, r, value), u);
    }

    /** Everything that can fail, before anything is written: the guard and the arithmetic. */
    method Preflight(l: nat, r: nat, value: int, mayExhaust: bool) returns (bound: Option<nat>, root: int)
      requires arraySize == |initial| && Coherent(initial, log, tree, lazy, magnitudeBound)
      requires ValidRange(arraySize, l, r) && Fits(value) && value != 0
      ensures bound.Some? ==>
                && ProposalFits(Current(), l, r, value)
                && Guards(bound.value, AddRange(Current(), l, r, value))
                && Predicts(initial, log, l, r, value, root)
                && Commits(initial, log, magnitudeBound, l, r, value, bound.value)
      ensures bound.Some? ==> Accepted(false, initial, log, magnitudeBound, l, r, value)
      ensures bound.None? ==> mayExhaust || !Accepted(false, initial, log, magnitudeBound, l, r, value)
    {
      hide Coherent, Stands, Shaped, ProposalFits, Guards, TryUpdate, Run, SumAddPolicy, InHeap, ArrayAfter, AddRange,
           TryMaterialize, Accepted, Committed, ProvesRepresentability, MaterializeArena, ValidateUpdate;
      root := 0;
      var exhausted := Exhausted(mayExhaust);
      if exhausted {
        return None, 0;
      }
      CoherentStart(initial, log, tree, lazy, magnitudeBound);
      ghost var t := Run(SumAddPolicy(), false, initial, log);
      var leaves := MaterializeArena(SumAddPolicy(), View(tree, lazy), 0, 0, arraySize - 1, 0, t);
      LeavesAreCurrent(false, initial, log);
      bound := ValidateRangeAdd(magnitudeBound, arraySize, l, r, value, leaves, Current());
      PreflightDecides(false, initial, log, magnitudeBound, l, r, value, bound);
      if bound.None? {
        return;
      }
      var checked := ValidateUpdate(View(tree, lazy), 0, 0, arraySize - 1, l, r, value, t);
      if checked.None? {
        return None, 0;
      }
      root := checked.value;
    }

    /**
     `rangeAdd`: the range added in place, or nothing changed at all; it fails exactly on an invalid range, a delta
     that is not accepted, or an array that the guard has no memory to read.
     The preflight's sum is the one the root then holds.
     */
    method RangeAdd(l: nat, r: nat, value: int, mayExhaust: bool) returns (ok: bool, ghost predicted: int)
      requires Valid() && Fits(value)
      modifies this
      ensures Valid() && initial == old(initial)
      ensures ok ==>
                ValidRange(arraySize, l, r) && Accepted(false, initial, old(log), old(magnitudeBound), l, r, value)
      ensures !ok ==>
                || (mayExhaust && value != 0) || !ValidRange(arraySize, l, r)
                || !Accepted(false, initial, old(log), old(magnitudeBound), l, r, value)
      ensures ok ==> log == old(log) + [Entry(l, r, value)]
      ensures ok ==> Commits(initial, old(log), old(magnitudeBound), l, r, value, magnitudeBound)
      ensures ok && value != 0 ==> ProposalFits(old(Current()), l, r, value) && tree != [] && tree[0] == predicted
      ensures ok && value != 0 ==> Predicts(initial, old(log), l, r, value, predicted)
      ensures ok && value == 0 ==> tree == old(tree) && lazy == old(lazy)
      ensures !ok ==> unchanged(this)
    {
      predicted := 0;
      if !ValidRange(arraySize, l, r) {
        return false, 0;
      }
      hide Coherent, Run, SumAddPolicy, ProposalFits, Guards, TryUpdate, InHeap, Predicts, Accepted, Commits;
      ghost var e := Entry(l, r, value);
      if value == 0 {
        CoherentSame(initial, log, tree, lazy, magnitudeBound, e);
        NothingAccepted(false, initial, log, magnitudeBound, l, r);
        log := log + [e];
        return true, 0;
      }
      var bound, root := Preflight(l, r, value, mayExhaust);
      if bound.None? {
        return false, 0;
      }
      predicted := root;
      Apply(l, r, value, bound.value, root);
      magnitudeBound := bound.value;
      log := log + [e];
      return true, predicted;
    }
  }
}
