/**
 PointMaterializedPersistentTree (include/valseg/policy_trees.hpp:356-555) and its SumAdd instance
 PointOnlyPersistentSegmentTree (src/point_only_persistent_segment_tree.cpp): no tags, every update goes down to the
 leaves of its range and copies every node that meets it.
 */
module PointTrees {
  import opened Wrappers
  import opened Canonical
  import opened Policies
  import opened TagTrees
  import opened Histories
  import opened Arenas
  import opened ClosedForm

  /** A tree of records without tags. */
  type Plain<S> = Tree<S, ()>

  ghost predicate Sound<S, A>(p: Policy<S, A>, t: Plain<S>, lo: nat, hi: nat)
    decreases t
  {
    && lo <= hi
    && (t.Leaf? <==> lo == hi)
    && match t
       case Leaf(agg, _) => p.validAggregate(agg, 1)
       case Node(agg, _, left, right) =>
         && Sound(p, left, lo, Midpoint(lo, hi))
         && Sound(p, right, Midpoint(lo, hi) + 1, hi)
         && agg == p.combine(left.agg, right.agg)
  }

  function Leaves<S>(t: Plain<S>): seq<S>
    decreases t
  {
    match t
    case Leaf(agg, _) => [agg]
    case Node(_, _, left, right) => Leaves(left) + Leaves(right)
  }

  lemma {:induction false} LeavesFold<S(!new), A(!new)>(p: Policy<S, A>, t: Plain<S>, lo: nat, hi: nat)
    requires Lawful(p) && Sound(p, t, lo, hi)
    ensures |Leaves(t)| == hi - lo + 1 && AllValid(p, Leaves(t)) && t.agg == Fold(p, Leaves(t))
    decreases t
  {
    match t {
      case Leaf(agg, _) =>
        assert Leaves(t)[1..] == [];
        assert NeutralAt(p, agg, 1);
      case Node(_, _, left, right) =>
        LeavesFold(p, left, lo, Midpoint(lo, hi));
        LeavesFold(p, right, Midpoint(lo, hi) + 1, hi);
        hide Lawful, Fold, Sound;
        FoldConcat(p, Leaves(left), Leaves(right));
    }
  }

  // ---------------------------------------------------------------- build and update

  function TryGrow<S, A>(p: Policy<S, A>, xs: seq<S>, lo: nat, hi: nat): Option<Plain<S>>
    requires lo <= hi < |xs|
    decreases hi - lo
  {
    if lo == hi then Some(Leaf(xs[lo], ()))
    else
      var left :- TryGrow(p, xs, lo, Midpoint(lo, hi));
      var right :- TryGrow(p, xs, Midpoint(lo, hi) + 1, hi);
      var agg :- p.TryCombine(left.agg, right.agg);
      Some(Node(agg, (), left, right))
  }

  lemma {:induction false} GrownSound<S(!new), A(!new)>(p: Policy<S, A>, xs: seq<S>, lo: nat, hi: nat)
    requires AllValid(p, xs) && lo <= hi < |xs| && TryGrow(p, xs, lo, hi).Some?
    ensures var t := TryGrow(p, xs, lo, hi).value; Sound(p, t, lo, hi) && Leaves(t) == xs[lo..hi + 1]
    decreases hi - lo
  {
    if lo < hi {
      GrownSound(p, xs, lo, Midpoint(lo, hi));
      GrownSound(p, xs, Midpoint(lo, hi) + 1, hi);
      assert xs[lo..hi + 1] == xs[lo..Midpoint(lo, hi) + 1] + xs[Midpoint(lo, hi) + 1..hi + 1];
    }
  }

  /** `update`, in the machine representation; a child outside the range is shared. */
  function TryPoint<S, A>(p: Policy<S, A>, t: Plain<S>, lo: nat, hi: nat, l: nat, r: nat, f: A): Option<Plain<S>>
    decreases t
  {
    if !Meets(lo, hi, l, r) then Some(t)
    else if t.Leaf? then
      var agg :- p.TryApply(f, t.agg, 1);
      Some(Leaf(agg, ()))
    else
      var left :- TryPoint(p, t.left, lo, Midpoint(lo, hi), l, r, f);
      var right :- TryPoint(p, t.right, Midpoint(lo, hi) + 1, hi, l, r, f);
      var agg :- p.TryCombine(left.agg, right.agg);
      Some(Node(agg, (), left, right))
  }

  lemma {:induction false} AppliedToOne<S(!new), A(!new)>(p: Policy<S, A>, f: A, x: S, base: nat, l: nat, r: nat)
    requires Lawful(p) && p.validAction(f) && p.validAggregate(x, 1) && l <= base <= r
    ensures ApplyRange(p, f, [x], base, l, r) == [p.apply(f, x, 1)] && p.validAggregate(p.apply(f, x, 1), 1)
  {
    assert ApplyClosedAt(p, f, x, 1);
  }

  /** A point-materialized update is the element-wise application, for any action. */
  lemma {:induction false} PointApplies<S(!new), A(!new)>(
      p: Policy<S, A>, t: Plain<S>, lo: nat, hi: nat, l: nat, r: nat, f: A)
    requires Lawful(p) && Sound(p, t, lo, hi) && p.validAction(f) && TryPoint(p, t, lo, hi, l, r, f).Some?
    ensures var u := TryPoint(p, t, lo, hi, l, r, f).value;
            Sound(p, u, lo, hi) && Leaves(u) == ApplyRange(p, f, Leaves(t), lo, l, r)
    decreases t
  {
    hide Lawful, Fold, ApplyRange;
    LeavesFold(p, t, lo, hi);
    if !Meets(lo, hi, l, r) {
      ApplyRangeOutside(p, f, Leaves(t), lo, l, r);
    } else if t.Leaf? {
      AppliedToOne(p, f, t.agg, lo, l, r);
    } else {
      PointApplies(p, t.left, lo, Midpoint(lo, hi), l, r, f);
      PointApplies(p, t.right, Midpoint(lo, hi) + 1, hi, l, r, f);
      LeavesFold(p, t.left, lo, Midpoint(lo, hi));
      ApplyRangeConcat(p, f, Leaves(t.left), Leaves(t.right), lo, l, r);
    }
  }

  // ---------------------------------------------------------------- query

  function TryTotal<S, A>(p: Policy<S, A>, t: Plain<S>, lo: nat, hi: nat, l: nat, r: nat): Option<S>
    decreases t
  {
    if !Meets(lo, hi, l, r) then Some(p.empty)
    else if t.Leaf? || Covered(lo, hi, l, r) then Some(t.agg)
    else
      var a :- TryTotal(p, t.left, lo, Midpoint(lo, hi), l, r);
      var b :- TryTotal(p, t.right, Midpoint(lo, hi) + 1, hi, l, r);
      p.TryCombine(a, b)
  }

  /** An answer combines, in index order, the leaves in the range. */
  lemma {:induction false} TotalIsFold<S(!new), A(!new)>(p: Policy<S, A>, t: Plain<S>, lo: nat, hi: nat, l: nat, r: nat)
    requires Lawful(p) && Sound(p, t, lo, hi) && TryTotal(p, t, lo, hi, l, r).Some?
    ensures TryTotal(p, t, lo, hi, l, r).value == FoldRange(p, Leaves(t), lo, l, r)
    decreases t
  {
    hide Lawful, Fold, FoldRange;
    LeavesFold(p, t, lo, hi);
    if !Meets(lo, hi, l, r) {
      FoldRangeOutside(p, Leaves(t), lo, l, r);
    } else if t.Leaf? || Covered(lo, hi, l, r) {
      CoveredFold(p, Leaves(t), lo, hi, l, r);
    } else {
      TotalIsFold(p, t.left, lo, Midpoint(lo, hi), l, r);
      TotalIsFold(p, t.right, Midpoint(lo, hi) + 1, hi, l, r);
      LeavesFold(p, t.left, lo, Midpoint(lo, hi));
      LeavesFold(p, t.right, Midpoint(lo, hi) + 1, hi);
      FoldRangeConcat(p, Leaves(t.left), Leaves(t.right), lo, l, r);
    }
  }

  /** Where combining never fails, every query is answered. */
  lemma {:induction false} TotalNeverFails<S(!new), A(!new)>(
      p: Policy<S, A>, t: Plain<S>, lo: nat, hi: nat, l: nat, r: nat)
    requires NeverFails(p)
    ensures TryTotal(p, t, lo, hi, l, r).Some?
    decreases t
  {
    if t.Node? {
      TotalNeverFails(p, t.left, lo, Midpoint(lo, hi), l, r);
      TotalNeverFails(p, t.right, Midpoint(lo, hi) + 1, hi, l, r);
    }
  }

  lemma {:induction false} GrowNeverFails<S(!new), A(!new)>(p: Policy<S, A>, xs: seq<S>, lo: nat, hi: nat)
    requires NeverFails(p) && lo <= hi < |xs|
    ensures TryGrow(p, xs, lo, hi).Some?
    decreases hi - lo
  {
    if lo < hi {
      GrowNeverFails(p, xs, lo, Midpoint(lo, hi));
      GrowNeverFails(p, xs, Midpoint(lo, hi) + 1, hi);
    }
  }

  lemma {:induction false} PointNeverFails<S(!new), A(!new)>(
      p: Policy<S, A>, t: Plain<S>, lo: nat, hi: nat, l: nat, r: nat, f: A)
    requires NeverFails(p)
    ensures TryPoint(p, t, lo, hi, l, r, f).Some?
    decreases t
  {
    if t.Node? {
      PointNeverFails(p, t.left, lo, Midpoint(lo, hi), l, r, f);
      PointNeverFails(p, t.right, Midpoint(lo, hi) + 1, hi, l, r, f);
    }
  }

  // ---------------------------------------------------------------- whole runs

  /** The tree of the version a log publishes, if the machine representation admits every step. */
  function TryPointRun<S, A(==)>(p: Policy<S, A>, xs: seq<S>, log: seq<Entry<A>>): Option<Plain<S>>
    requires xs != []
  {
    if log == [] then TryGrow(p, xs, 0, |xs| - 1)
    else
      var e := log[|log| - 1];
      var t :- TryPointRun(p, xs, log[..|log| - 1]);
      if e.action == p.identity then Some(t) else TryPoint(p, t, 0, |xs| - 1, e.left, e.right, e.action)
  }

  /** Over every run and for any lawful policy, commuting or not: the latest leaves are the oracle's elements. */
  lemma {:induction false} PointRunIsOracle<S(!new), A(!new)>(p: Policy<S, A>, xs: seq<S>, log: seq<Entry<A>>)
    requires Lawful(p) && xs != [] && AllValid(p, xs) && ValidHistory(p, |xs|, log) && TryPointRun(p, xs, log).Some?
    ensures var t := TryPointRun(p, xs, log).value; Sound(p, t, 0, |xs| - 1) && Leaves(t) == Oracle(p, xs, log)
  {
    hide Lawful, Sound, TryPoint, TryGrow, AllValid;
    if log == [] {
      GrownSound(p, xs, 0, |xs| - 1);
      assert xs[0..|xs|] == xs;
    } else {
      var before, e := log[..|log| - 1], log[|log| - 1];
      PointRunIsOracle(p, xs, before);
      if e.action == p.identity {
        OracleValid(p, xs, before);
        IdentityRange(p, Oracle(p, xs, before), 0, e.left, e.right);
      } else {
        PointApplies(p, TryPointRun(p, xs, before).value, 0, |xs| - 1, e.left, e.right, e.action);
      }
    }
  }

  /** Every answer of a published version is the oracle's. */
  lemma {:induction false} PointAnswer<S(!new), A(!new)>(
      p: Policy<S, A>, xs: seq<S>, log: seq<Entry<A>>, l: nat, r: nat)
    requires Lawful(p) && AllValid(p, xs) && ValidHistory(p, |xs|, log) && ValidRange(|xs|, l, r)
    requires TryPointRun(p, xs, log).Some?
    ensures var answer := TryTotal(p, TryPointRun(p, xs, log).value, 0, |xs| - 1, l, r);
            answer.Some? ==> answer.value == Expected(p, xs, log, l, r)
  {
    hide Lawful, Sound, TryPointRun, TryTotal, AllValid, ValidHistory, Oracle, FoldRange, Fold;
    PointRunIsOracle(p, xs, log);
    var t := TryPointRun(p, xs, log).value;
    if TryTotal(p, t, 0, |xs| - 1, l, r).Some? {
      TotalIsFold(p, t, 0, |xs| - 1, l, r);
      FoldRangeIsSlice(p, Oracle(p, xs, log), 0, l, r);
    }
  }

  lemma {:induction false} VersionAnswer<S(!new), A(!new)>(
      p: Policy<S, A>, xs: seq<S>, log: seq<Entry<A>>, version: nat, l: nat, r: nat, answer: Option<S>)
    requires version <= |log| && ValidRange(|xs|, l, r) && TryPointRun(p, xs, log[..version]).Some?
    requires answer == TryTotal(p, TryPointRun(p, xs, log[..version]).value, 0, |xs| - 1, l, r)
    ensures NeverFails(p) ==> answer.Some?
    ensures answer.Some? && Lawful(p) && AllValid(p, xs) && ValidHistory(p, |xs|, log) ==>
              answer.value == Expected(p, xs, log[..version], l, r)
  {
    hide Lawful, TryPointRun, TryTotal, AllValid, NeverFails, Expected;
    if NeverFails(p) {
      TotalNeverFails(p, TryPointRun(p, xs, log[..version]).value, 0, |xs| - 1, l, r);
    }
    if Lawful(p) && AllValid(p, xs) && ValidHistory(p, |xs|, log) {
      PointAnswer(p, xs, log[..version], l, r);
    }
  }

  /** The records a log appends: the intersecting nodes of every action that is not the identity. */
  function PointGrowth<S, A(==)>(p: Policy<S, A>, n: nat, log: seq<Entry<A>>): nat
    requires n > 0
  {
    if log == [] then 0
    else
      var e := log[|log| - 1];
      PointGrowth(p, n, log[..|log| - 1])
      + if e.action == p.identity then 0 else Intersecting(0, n - 1, e.left, e.right)
  }

  lemma {:induction false} PlainShape<S, A>(p: Policy<S, A>, xs: seq<S>, log: seq<Entry<A>>)
    requires xs != [] && TryPointRun(p, xs, log).Some?
    ensures Shaped(TryPointRun(p, xs, log).value, 0, |xs| - 1)
  {
    if log == [] {
      GrownShape(p, xs, 0, |xs| - 1);
    } else {
      var before, e := log[..|log| - 1], log[|log| - 1];
      PlainShape(p, xs, before);
      if e.action != p.identity {
        PointShape(p, TryPointRun(p, xs, before).value, 0, |xs| - 1, e.left, e.right, e.action);
      }
    }
  }

  lemma {:induction false} GrownShape<S, A>(p: Policy<S, A>, xs: seq<S>, lo: nat, hi: nat)
    requires lo <= hi < |xs| && TryGrow(p, xs, lo, hi).Some?
    ensures Shaped(TryGrow(p, xs, lo, hi).value, lo, hi)
    decreases hi - lo
  {
    if lo < hi {
      GrownShape(p, xs, lo, Midpoint(lo, hi));
      GrownShape(p, xs, Midpoint(lo, hi) + 1, hi);
    }
  }

  lemma {:induction false} PointShape<S, A>(p: Policy<S, A>, t: Plain<S>, lo: nat, hi: nat, l: nat, r: nat, f: A)
    requires Shaped(t, lo, hi) && TryPoint(p, t, lo, hi, l, r, f).Some?
    ensures Shaped(TryPoint(p, t, lo, hi, l, r, f).value, lo, hi)
    decreases t
  {
    if t.Node? && Meets(lo, hi, l, r) {
      PointShape(p, t.left, lo, Midpoint(lo, hi), l, r, f);
      PointShape(p, t.right, Midpoint(lo, hi) + 1, hi, l, r, f);
    }
  }

  /** Every root stands for the tree its prefix of the log produces, in an arena of exactly the predicted size. */
  ghost predicate Coherent<S, A>(
      p: Policy<S, A>, xs: seq<S>, log: seq<Entry<A>>, nodes: seq<Cell<S, ()>>, roots: seq<nat>)
  {
    && xs != []
    && |roots| == |log| + 1
    && RangesIn(|xs|, log)
    && |nodes| == 2 * |xs| - 1 + PointGrowth(p, |xs|, log)
    && forall v :: 0 <= v < |roots| ==>
         TryPointRun(p, xs, log[..v]).Some? && Stands(nodes, roots[v], TryPointRun(p, xs, log[..v]).value)
  }

  lemma {:induction false} CoherentVersion<S, A>(
      p: Policy<S, A>, xs: seq<S>, log: seq<Entry<A>>, nodes: seq<Cell<S, ()>>, roots: seq<nat>, version: nat)
    requires Coherent(p, xs, log, nodes, roots) && version < |roots|
    ensures xs != [] && |roots| == |log| + 1 && TryPointRun(p, xs, log[..version]).Some?
    ensures var t := TryPointRun(p, xs, log[..version]).value;
            Stands(nodes, roots[version], t) && Shaped(t, 0, |xs| - 1)
  {
    PlainShape(p, xs, log[..version]);
    hide Stands, TryPointRun, Shaped;
  }

  lemma {:induction false} CoherentStart<S, A>(
      p: Policy<S, A>, xs: seq<S>, log: seq<Entry<A>>, nodes: seq<Cell<S, ()>>, roots: seq<nat>)
    requires Coherent(p, xs, log, nodes, roots)
    ensures xs != [] && |roots| == |log| + 1 && TryPointRun(p, xs, log).Some?
    ensures var t := TryPointRun(p, xs, log).value; Stands(nodes, roots[|log|], t) && Shaped(t, 0, |xs| - 1)
  {
    hide Coherent, Stands, TryPointRun, Shaped;
    Lengths(p, xs, log, nodes, roots);
    CoherentVersion(p, xs, log, nodes, roots, |log|);
    assert log[..|log|] == log;
  }

  lemma Lengths<S, A>(p: Policy<S, A>, xs: seq<S>, log: seq<Entry<A>>, nodes: seq<Cell<S, ()>>, roots: seq<nat>)
    requires Coherent(p, xs, log, nodes, roots)
    ensures xs != [] && |roots| == |log| + 1 && RangesIn(|xs|, log)
  {
  }

  /** What an accepted request leaves. */
  lemma {:induction false} CoherentNext<S(!new), A(!new)>(
      p: Policy<S, A>, xs: seq<S>, log: seq<Entry<A>>, nodes: seq<Cell<S, ()>>, roots: seq<nat>,
      grown: seq<Cell<S, ()>>, newRoot: nat, e: Entry<A>, u: Plain<S>)
    requires Coherent(p, xs, log, nodes, roots) && nodes <= grown && ValidRange(|xs|, e.left, e.right)
    requires TryPointRun(p, xs, log).Some? && Stands(grown, newRoot, u)
    requires if e.action == p.identity then u == TryPointRun(p, xs, log).value && grown == nodes
             else
               && TryPoint(p, TryPointRun(p, xs, log).value, 0, |xs| - 1, e.left, e.right, e.action) == Some(u)
               && |grown| == |nodes| + Intersecting(0, |xs| - 1, e.left, e.right)
    ensures Coherent(p, xs, log + [e], grown, roots + [newRoot])
  {
    hide Stands, TryPoint, Intersecting, TryGrow;
    var log', roots' := log + [e], roots + [newRoot];
    assert log'[..|log|] == log;
    forall v | 0 <= v < |roots'|
      ensures TryPointRun(p, xs, log'[..v]).Some? && Stands(grown, roots'[v], TryPointRun(p, xs, log'[..v]).value)
    {
      if v < |roots| {
        assert log'[..v] == log[..v];
        GrowthKeeps(nodes, grown, roots[v], TryPointRun(p, xs, log[..v]).value);
      } else {
        assert log'[..v] == log';
      }
    }
  }

  lemma {:induction false} CoherentInitial<S, A>(p: Policy<S, A>, xs: seq<S>, nodes: seq<Cell<S, ()>>, root: nat)
    requires xs != [] && |nodes| == 2 * |xs| - 1 && TryGrow(p, xs, 0, |xs| - 1).Some?
    requires Stands(nodes, root, TryGrow(p, xs, 0, |xs| - 1).value)
    ensures Coherent(p, xs, [], nodes, [root])
  {
    hide Stands, TryGrow;
    assert TryPointRun(p, xs, []) == TryGrow(p, xs, 0, |xs| - 1);
  }

  /** Some operation of the update of the latest version is not representable. */
  ghost predicate Refused<S, A>(p: Policy<S, A>, xs: seq<S>, log: seq<Entry<A>>, l: nat, r: nat, f: A) {
    && f != p.identity
    && xs != [] && TryPointRun(p, xs, log).Some?
    && TryPoint(p, TryPointRun(p, xs, log).value, 0, |xs| - 1, l, r, f) == None
  }

  lemma RefusedBy<S, A>(p: Policy<S, A>, xs: seq<S>, log: seq<Entry<A>>, l: nat, r: nat, f: A)
    requires xs != [] && TryPointRun(p, xs, log).Some?
    ensures Refused(p, xs, log, l, r, f)
       <==> f != p.identity && TryPoint(p, TryPointRun(p, xs, log).value, 0, |xs| - 1, l, r, f) == None
  {
  }

  /** `query` over the arena. */
  function TotalArena<S, A>(
      p: Policy<S, A>, nodes: seq<Cell<S, ()>>, i: nat, lo: nat, hi: nat, l: nat, r: nat, ghost t: Plain<S>)
    : (answer: Option<S>)
    requires Stands(nodes, i, t) && Shaped(t, lo, hi)
    ensures answer == TryTotal(p, t, lo, hi, l, r)
    decreases t
  {
    if !Meets(lo, hi, l, r) then Some(p.empty)
    else if Covered(lo, hi, l, r) then Some(nodes[i].agg)
    else
      var a :- TotalArena(p, nodes, nodes[i].left, lo, Midpoint(lo, hi), l, r, t.left);
      var b :- TotalArena(p, nodes, nodes[i].right, Midpoint(lo, hi) + 1, hi, l, r, t.right);
      p.TryCombine(a, b)
  }

  /** Where no operation fails, no request is refused. */
  lemma {:induction false} NeverRefused<S(!new), A(!new)>(
      p: Policy<S, A>, xs: seq<S>, log: seq<Entry<A>>, l: nat, r: nat, f: A)
    requires NeverFails(p)
    ensures !Refused(p, xs, log, l, r, f)
  {
    if xs != [] && TryPointRun(p, xs, log).Some? {
      PointNeverFails(p, TryPointRun(p, xs, log).value, 0, |xs| - 1, l, r, f);
    }
  }

  class PointMaterializedPersistentTree<S(!new), A(==, !new)> {
    const policy: Policy<S, A>
    var nodes: seq<Cell<S, ()>>
    var roots: seq<nat>
    var arraySize: nat
    ghost var initial: seq<S>
    ghost var log: seq<Entry<A>>

    constructor (policy: Policy<S, A>)
      ensures Valid() && roots == [] && this.policy == policy
    {
      this.policy := policy;
      nodes, roots, arraySize, initial, log := [], [], 0, [], [];
    }

    ghost predicate Valid()
      reads this
    {
      && arraySize == |initial|
      && (roots == [] ==> arraySize == 0)
      && (if arraySize > 0 then Coherent(policy, initial, log, nodes, roots) else log == [] && nodes == [])
    }

    lemma Facts()
      requires Valid()
      ensures arraySize == |initial| && (arraySize > 0 ==> |roots| == |log| + 1 && RangesIn(arraySize, log))
    {
      hide TryPointRun, Stands, PointGrowth;
    }

    /** `push_back`: appends one record, or runs out of memory. */
    method Append(cell: Cell<S, ()>, mayExhaust: bool) returns (index: Option<nat>)
      modifies this`nodes
      ensures index.Some? ==> index.value == |old(nodes)| && nodes == old(nodes) + [cell]
      ensures index.None? ==> nodes == old(nodes) && mayExhaust
    {
      var exhausted := Exhausted(mayExhaust);
      if exhausted {
        return None;
      }
      nodes := nodes + [cell];
      return Some(|nodes| - 1);
    }

    /** `build` */
    static method BuildInto(
        policy: Policy<S, A>, values: seq<S>, arena: seq<Cell<S, ()>>, lo: nat, hi: nat)
      returns (built: Option<(seq<Cell<S, ()>>, nat)>)
      requires lo <= hi < |values|
      ensures built.Some? <==> TryGrow(policy, values, lo, hi).Some?
      ensures built.Some? ==>
                && arena <= built.value.0
                && |built.value.0| == |arena| + 2 * (hi - lo + 1) - 1
                && Stands(built.value.0, built.value.1, TryGrow(policy, values, lo, hi).value)
      decreases hi - lo
    {
      if lo == hi {
        return Some((arena + [Cell(NO_NODE, NO_NODE, values[lo], ())], |arena|));
      }
      var mid := Midpoint(lo, hi);
      var left :- BuildInto(policy, values, arena, lo, mid);
      var right :- BuildInto(policy, values, left.0, mid + 1, hi);
      ghost var lt, rt := TryGrow(policy, values, lo, mid).value, TryGrow(policy, values, mid + 1, hi).value;
      GrowthKeeps(left.0, right.0, left.1, lt);
      var agg :- policy.TryCombine(right.0[left.1].agg, right.0[right.1].agg);
      var grown := right.0 + [Cell(left.1, right.1, agg, ())];
      GrowthKeeps(right.0, grown, left.1, lt);
      GrowthKeeps(right.0, grown, right.1, rt);
      return Some((grown, |right.0|));
    }

    /** `initialize`: replaces the whole history, or fails and changes nothing. */
    method Initialize(values: seq<S>, mayExhaust: bool) returns (ok: bool)
      requires Valid()
      modifies this
      ensures Valid()
      ensures ok ==> values == [] || TryGrow(policy, values, 0, |values| - 1).Some?
      ensures !ok ==> mayExhaust || (values != [] && TryGrow(policy, values, 0, |values| - 1).None?)
      ensures NeverFails(policy) && !mayExhaust ==> ok
      ensures ok ==> initial == values && log == [] && |roots| == 1
      ensures !ok ==> unchanged(this)
    {
      hide Coherent, Stands, TryGrow, NeverFails;
      var exhausted := Exhausted(mayExhaust);
      if exhausted {
        return false;
      }
      if values == [] {
        nodes, roots, arraySize, initial, log := [], [NO_NODE], 0, [], [];
        return true;
      }
      var built := BuildInto(policy, values, [], 0, |values| - 1);
      if NeverFails(policy) {
        GrowNeverFails(policy, values, 0, |values| - 1);
      }
      if built.None? {
        return false;
      }
      CoherentInitial(policy, values, built.value.0, built.value.1);
      nodes, roots, arraySize := built.value.0, [built.value.1], |values|;
      initial, log := values, [];
      return true;
    }

    /** The guard of a recursive call. */
    method Enter(i: nat, lo: nat, hi: nat, l: nat, r: nat, f: A, ghost t: Plain<S>, mayExhaust: bool)
      returns (index: Option<nat>, ghost u: Plain<S>)
      requires Stands(nodes, i, t) && Shaped(t, lo, hi)
      modifies this`nodes
      ensures old(nodes) <= nodes
      ensures index.Some? ==>
                && Stands(nodes, index.value, u) && TryPoint(policy, t, lo, hi, l, r, f) == Some(u)
                && |nodes| == |old(nodes)| + Intersecting(lo, hi, l, r)
      ensures index.None? ==> mayExhaust || TryPoint(policy, t, lo, hi, l, r, f) == None
      decreases hi - lo, 1
    {
      if Meets(lo, hi, l, r) {
        index, u := Update(i, lo, hi, l, r, f, t, mayExhaust);
      } else {
        index, u := Some(i), t;
      }
    }

    /** `update`: appends exactly the nodes that meet the range. */
    method Update(i: nat, lo: nat, hi: nat, l: nat, r: nat, f: A, ghost t: Plain<S>, mayExhaust: bool)
      returns (index: Option<nat>, ghost u: Plain<S>)
      requires Stands(nodes, i, t) && Shaped(t, lo, hi) && Meets(lo, hi, l, r)
      modifies this`nodes
      ensures old(nodes) <= nodes
      ensures index.Some? ==>
                && Stands(nodes, index.value, u) && TryPoint(policy, t, lo, hi, l, r, f) == Some(u)
                && |nodes| == |old(nodes)| + Intersecting(lo, hi, l, r)
      ensures index.None? ==> mayExhaust || TryPoint(policy, t, lo, hi, l, r, f) == None
      decreases hi - lo, 0
    {
      index, u := None, t;
      var current := nodes[i];
      if lo == hi {
        var agg := policy.TryApply(f, current.agg, 1);
        if agg.None? {
          return;
        }
        index := Append(Cell(NO_NODE, NO_NODE, agg.value, ()), mayExhaust);
        u := Leaf(agg.value, ());
        return;
      }
      var mid := Midpoint(lo, hi);
      var left, lt := Enter(current.left, lo, mid, l, r, f, t.left, mayExhaust);
      if left.None? {
        return;
      }
      ghost var between := nodes;
      GrowthKeeps(old(nodes), nodes, current.right, t.right);
      var right, rt := Enter(current.right, mid + 1, hi, l, r, f, t.right, mayExhaust);
      if right.None? {
        return;
      }
      GrowthKeeps(between, nodes, left.value, lt);
      var agg := policy.TryCombine(nodes[left.value].agg, nodes[right.value].agg);
      if agg.None? {
        return;
      }
      ghost var before := nodes;
      index := Append(Cell(left.value, right.value, agg.value, ()), mayExhaust);
      u := Node(agg.value, (), lt, rt);
      GrowthKeeps(before, nodes, left.value, lt);
      GrowthKeeps(before, nodes, right.value, rt);
    }

    /** The update of the latest version, its appends dropped when any part of it, or the append of its root, fails. */
    method Advance(root: nat, l: nat, r: nat, f: A, ghost t: Plain<S>, mayExhaust: bool)
      returns (newRoot: Option<nat>, ghost u: Plain<S>)
      requires ValidRange(arraySize, l, r) && Stands(nodes, root, t) && Shaped(t, 0, arraySize - 1)
      modifies this`nodes
      ensures old(nodes) <= nodes
      ensures newRoot.Some? ==>
                && Stands(nodes, newRoot.value, u) && TryPoint(policy, t, 0, arraySize - 1, l, r, f) == Some(u)
                && |nodes| == |old(nodes)| + Intersecting(0, arraySize - 1, l, r)
      ensures newRoot.None? ==>
                nodes == old(nodes) && (mayExhaust || TryPoint(policy, t, 0, arraySize - 1, l, r, f) == None)
    {
      hide Stands, Shaped, TryPoint, Intersecting;
      var checkpoint := |nodes|;
      newRoot, u := Update(root, 0, arraySize - 1, l, r, f, t, mayExhaust);
      var exhausted := Exhausted(mayExhaust);
      if exhausted {
        newRoot := None;
      }
      if newRoot.None? {
        nodes := nodes[..checkpoint];
      }
    }

    /**
     `rangeApply`: publishes exactly one version, or changes nothing.  Apart from running out of memory it fails only on
     an invalid request or when an operation of the update is not representable.
     */
    method RangeApply(l: nat, r: nat, f: A, mayExhaust: bool) returns (version: Option<nat>)
      requires Valid()
      modifies this`nodes, this`roots, this`log
      ensures Valid()
      ensures version.Some? ==>
                && ValidRange(arraySize, l, r)
                && version.value == |old(roots)|
                && log == old(log) + [Entry(l, r, f)]
                && old(nodes) <= nodes && old(roots) <= roots
                && !Refused(policy, initial, old(log), l, r, f)
      ensures version.Some? && f == policy.identity ==>
                && nodes == old(nodes)
                && old(roots) != [] && roots == old(roots) + [old(roots)[|old(roots)| - 1]]
      ensures version.None? ==> nodes == old(nodes) && roots == old(roots) && log == old(log)
      ensures version.None? && !mayExhaust ==>
                roots == [] || !ValidRange(arraySize, l, r) || Refused(policy, initial, log, l, r, f)
      ensures NeverFails(policy) && !mayExhaust && old(roots) != [] && ValidRange(arraySize, l, r) ==> version.Some?
    {
      hide Coherent, Stands, Shaped, TryPoint, TryPointRun, Intersecting, Refused, NeverFails;
      if roots == [] || !ValidRange(arraySize, l, r) {
        return None;
      }
      CoherentStart(policy, initial, log, nodes, roots);
      RefusedBy(policy, initial, log, l, r, f);
      if NeverFails(policy) {
        NeverRefused(policy, initial, log, l, r, f);
      }
      var newRoot := roots[|roots| - 1];
      ghost var t := TryPointRun(policy, initial, log).value;
      ghost var u := t;
      if f != policy.identity {
        var updated;
        updated, u := Advance(newRoot, l, r, f, t, mayExhaust);
        if updated.None? {
          return None;
        }
        newRoot := updated.value;
      } else {
        var exhausted := Exhausted(mayExhaust);
        if exhausted {
          return None;
        }
      }
      CoherentNext(policy, initial, log, old(nodes), roots, nodes, newRoot, Entry(l, r, f), u);
      roots := roots + [newRoot];
      log := log + [Entry(l, r, f)];
      return Some(|roots| - 1);
    }

    /** `nodeCount`: the build, and the intersecting nodes of every accepted action. */
    method NodeCount() returns (count: nat)
      requires Valid()
      ensures arraySize > 0 ==> count == 2 * arraySize - 1 + PointGrowth(policy, arraySize, log)
      ensures arraySize == 0 ==> count == 0
    {
      hide Stands, TryPointRun, PointGrowth;
      count := |nodes|;
    }

    /** `rangeAggregate`: an answer is the oracle's, on every published version, for every lawful policy. */
    method RangeAggregate(version: nat, l: nat, r: nat) returns (answer: Option<S>)
      requires Valid()
      ensures answer.Some? ==> version < |roots| && ValidRange(arraySize, l, r)
      ensures version < |roots| && ValidRange(arraySize, l, r) ==>
                TryPointRun(policy, initial, log[..version]).Some?
                && answer == TryTotal(policy, TryPointRun(policy, initial, log[..version]).value, 0,
                                      arraySize - 1, l, r)
      ensures NeverFails(policy) && version < |roots| && ValidRange(arraySize, l, r) ==> answer.Some?
      ensures answer.Some? && Lawful(policy) && AllValid(policy, initial) && ValidHistory(policy, arraySize, log) ==>
                answer.value == Expected(policy, initial, log[..version], l, r)
    {
      if version >= |roots| || !ValidRange(arraySize, l, r) {
        return None;
      }
      hide Coherent, TryPointRun, Stands, Shaped, TryTotal, Lawful, AllValid, ValidHistory, Expected, NeverFails;
      CoherentVersion(policy, initial, log, nodes, roots, version);
      ghost var t := TryPointRun(policy, initial, log[..version]).value;
      answer := TotalArena(policy, nodes, roots[version], 0, arraySize - 1, l, r, t);
      VersionAnswer(policy, initial, log, version, l, r, answer);
    }
  }
}
