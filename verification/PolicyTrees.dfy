/** PathCopyingActionTree in both variants (include/valseg/policy_trees.hpp:92-355). */
module PolicyTrees {
  import opened Wrappers
  import opened Canonical
  import opened Policies
  import opened TagTrees
  import opened Histories
  import opened Frontier
  import opened Arenas
  import opened Reads
  import opened CheckedUpdates

  /** Every root stands for the tree that its prefix of the log produces. */
  ghost predicate Published<S, A>(
      p: Policy<S, A>, push: bool, xs: seq<S>, log: seq<Entry<A>>, nodes: seq<Cell<S, A>>, roots: seq<nat>)
  {
    && xs != []
    && |roots| == |log| + 1
    && forall v :: 0 <= v < |roots| ==> Stands(nodes, roots[v], Run(p, push, xs, log[..v]))
  }

  /** One more root on a grown arena: the older versions stand as they stood. */
  lemma PublishOne<S(!new), A(!new)>(
      p: Policy<S, A>, push: bool, xs: seq<S>, log: seq<Entry<A>>, nodes: seq<Cell<S, A>>, roots: seq<nat>,
      grown: seq<Cell<S, A>>, newRoot: nat, e: Entry<A>)
    requires Published(p, push, xs, log, nodes, roots) && nodes <= grown
    requires Stands(grown, newRoot, Step(p, push, Run(p, push, xs, log), |xs| - 1, e))
    ensures Published(p, push, xs, log + [e], grown, roots + [newRoot])
  {
    var log', roots' := log + [e], roots + [newRoot];
    forall v | 0 <= v < |roots'| ensures Stands(grown, roots'[v], Run(p, push, xs, log'[..v])) {
      if v < |roots| {
        assert log'[..v] == log[..v];
        GrowthKeeps(nodes, grown, roots[v], Run(p, push, xs, log[..v]));
      } else {
        assert log'[..v] == log' && log'[..|log'| - 1] == log;
      }
    }
  }

  /** The whole state after a log: 2n - 1 records of the build, and what each accepted update appended. */
  ghost predicate Coherent<S, A>(
      p: Policy<S, A>, push: bool, xs: seq<S>, log: seq<Entry<A>>, nodes: seq<Cell<S, A>>, roots: seq<nat>)
  {
    && Published(p, push, xs, log, nodes, roots)
    && RangesIn(|xs|, log)
    && |nodes| == 2 * |xs| - 1 + RunGrowth(p, push, xs, log)
  }

  lemma {:induction false} CoherentInitial<S, A>(
      p: Policy<S, A>, push: bool, xs: seq<S>, nodes: seq<Cell<S, A>>, root: nat)
    requires xs != [] && |nodes| == 2 * |xs| - 1 && Stands(nodes, root, Build(p, xs, 0, |xs| - 1))
    ensures Coherent(p, push, xs, [], nodes, [root])
  {
    assert Run(p, push, xs, []) == Build(p, xs, 0, |xs| - 1);
    hide Stands, Build;
  }

  /** What an operation on the latest version starts from. */
  lemma {:induction false} CoherentStart<S, A>(
      p: Policy<S, A>, push: bool, xs: seq<S>, log: seq<Entry<A>>, nodes: seq<Cell<S, A>>, roots: seq<nat>)
    requires Coherent(p, push, xs, log, nodes, roots)
    ensures |roots| == |log| + 1
    ensures Stands(nodes, roots[|log|], Run(p, push, xs, log)) && Shaped(Run(p, push, xs, log), 0, |xs| - 1)
  {
    assert log[..|log|] == log;
    RunShaped(p, push, xs, log);
  }

  /** What a query of a published version reads. */
  lemma {:induction false} CoherentVersion<S, A>(
      p: Policy<S, A>, push: bool, xs: seq<S>, log: seq<Entry<A>>, nodes: seq<Cell<S, A>>, roots: seq<nat>,
      version: nat)
    requires Coherent(p, push, xs, log, nodes, roots) && version < |roots|
    ensures xs != [] && version <= |log|
    ensures var t := Run(p, push, xs, log[..version]); Stands(nodes, roots[version], t) && Shaped(t, 0, |xs| - 1)
  {
    RunShaped(p, push, xs, log[..version]);
    hide Run, Stands, Shaped;
  }

  lemma {:induction false} AnswerOfVersion<S(!new), A(!new)>(
      p: Policy<S, A>, push: bool, xs: seq<S>, log: seq<Entry<A>>, version: nat, l: nat, r: nat)
    requires Lawful(p) && AllValid(p, xs) && ValidHistory(p, |xs|, log) && (push || InducedActionsCommute(p))
    requires version <= |log| && ValidRange(|xs|, l, r)
    ensures Query(p, Run(p, push, xs, log[..version]), 0, |xs| - 1, l, r, p.identity)
         == Expected(p, xs, log[..version], l, r)
  {
    hide Lawful, AllValid, Expected, Run, Query, InducedActionsCommute;
    AnswerIsExpected(p, push, xs, log[..version], l, r);
  }

  lemma {:induction false} VersionAnswer<S(!new), A(!new)>(
      p: Policy<S, A>, push: bool, xs: seq<S>, log: seq<Entry<A>>, version: nat, l: nat, r: nat, answer: Option<S>)
    requires version <= |log| && ValidRange(|xs|, l, r)
    requires answer == TryQuery(p, Run(p, push, xs, log[..version]), 0, |xs| - 1, l, r, p.identity)
    ensures NeverFails(p) ==> answer.Some?
    ensures answer.Some? && Lawful(p) && AllValid(p, xs) && ValidHistory(p, |xs|, log)
            && (push || InducedActionsCommute(p)) ==>
              answer.value == Expected(p, xs, log[..version], l, r)
  {
    hide Lawful, AllValid, Expected, Run, Query, InducedActionsCommute, NeverFails;
    if NeverFails(p) {
      QueryNeverFails(p, Run(p, push, xs, log[..version]), 0, |xs| - 1, l, r, p.identity);
    }
    if Lawful(p) && AllValid(p, xs) && ValidHistory(p, |xs|, log) && (push || InducedActionsCommute(p)) {
      AnswerOfVersion(p, push, xs, log, version, l, r);
    }
  }

  /** What an accepted request leaves. */
  lemma CoherentNext<S(!new), A(!new)>(
      p: Policy<S, A>, push: bool, xs: seq<S>, log: seq<Entry<A>>, nodes: seq<Cell<S, A>>, roots: seq<nat>,
      grown: seq<Cell<S, A>>, newRoot: nat, e: Entry<A>)
    requires Coherent(p, push, xs, log, nodes, roots) && nodes <= grown && ValidRange(|xs|, e.left, e.right)
    requires var t := Run(p, push, xs, log);
             if e.action == p.identity then newRoot == roots[|log|] && grown == nodes
             else
               && Stands(grown, newRoot, Update(p, push, t, 0, |xs| - 1, e.left, e.right, e.action))
               && |grown| == |nodes| + Growth(p, push, t, 0, |xs| - 1, e.left, e.right)
    ensures Coherent(p, push, xs, log + [e], grown, roots + [newRoot])
  {
    CoherentStart(p, push, xs, log, nodes, roots);
    assert Step(p, push, Run(p, push, xs, log), |xs| - 1, e)
        == if e.action == p.identity then Run(p, push, xs, log)
           else Update(p, push, Run(p, push, xs, log), 0, |xs| - 1, e.left, e.right, e.action);
    hide Published, Stands, Run, Update, Growth, Step, Shaped;
    PublishOne(p, push, xs, log, nodes, roots, grown, newRoot, e);
    assert (log + [e])[..|log|] == log;
  }

  /** Some operation of the update of the latest version is not representable. */
  ghost predicate Refused<S, A>(
      p: Policy<S, A>, push: bool, xs: seq<S>, log: seq<Entry<A>>, l: nat, r: nat, f: A)
  {
    && f != p.identity
    && xs != []
    && TryUpdate(p, push, Run(p, push, xs, log), 0, |xs| - 1, l, r, f) == None
  }

  lemma {:induction false} RefusedBy<S, A>(
      p: Policy<S, A>, push: bool, xs: seq<S>, log: seq<Entry<A>>, l: nat, r: nat, f: A)
    requires xs != []
    ensures Refused(p, push, xs, log, l, r, f)
       <==> f != p.identity && TryUpdate(p, push, Run(p, push, xs, log), 0, |xs| - 1, l, r, f) == None
  {
  }

  /** Where no operation fails, no request is refused. */
  lemma {:induction false} NeverRefused<S(!new), A(!new)>(
      p: Policy<S, A>, push: bool, xs: seq<S>, log: seq<Entry<A>>, l: nat, r: nat, f: A)
    requires NeverFails(p)
    ensures !Refused(p, push, xs, log, l, r, f)
  {
    if xs != [] {
      RunShaped(p, push, xs, log);
      UpdateNeverFails(p, push, Run(p, push, xs, log), 0, |xs| - 1, l, r, f);
    }
  }

  class PathCopyingActionTree<S(!new), A(==, !new)> {
    const policy: Policy<S, A>
    const push: bool
    var nodes: seq<Cell<S, A>>
    var roots: seq<nat>
    var arraySize: nat
    /** The initial array and the accepted updates since it was built. */
    ghost var initial: seq<S>
    ghost var log: seq<Entry<A>>

    constructor (policy: Policy<S, A>, push: bool)
      ensures Valid() && roots == [] && this.policy == policy && this.push == push
    {
      this.policy, this.push := policy, push;
      nodes, roots, arraySize := [], [], 0;
      initial, log := [], [];
    }

    /**
     Over every run: each published root stands for the tree its prefix of the log produces, and the arena holds the
     2n - 1 records of the build plus what each accepted update appends.
     */
    ghost predicate Valid()
      reads this
    {
      && arraySize == |initial|
      && (roots == [] ==> arraySize == 0)
      && (if arraySize > 0 then Coherent(policy, push, initial, log, nodes, roots) else log == [] && nodes == [])
    }

    lemma Facts()
      requires Valid()
      ensures arraySize == |initial| && (arraySize > 0 ==> |roots| == |log| + 1 && RangesIn(arraySize, log))
    {
    }

    /** `push_back`: appends one record, or runs out of memory. */
    method Append(cell: Cell<S, A>, mayExhaust: bool) returns (index: Option<nat>)
      modifies this`nodes
      ensures index.Some? ==> index.value == |old(nodes)| && nodes == old(nodes) + [cell]
      ensures index.None? ==> nodes == old(nodes) && mayExhaust
    {
      var exhausted := Exhausted(mayExhaust);
      if exhausted {
        return None;
      }
      nodes := nodes + [cell];
      return Some(|nodes| - 1);
    }

    /** `build` */
    static method BuildInto(
        policy: Policy<S, A>, values: seq<S>, arena: seq<Cell<S, A>>, lo: nat, hi: nat)
      returns (built: Option<(seq<Cell<S, A>>, nat)>)
      requires lo <= hi < |values|
      ensures built.Some? <==> TryBuild(policy, values, lo, hi).Some?
      ensures built.Some? ==>
                && arena <= built.value.0
                && |built.value.0| == |arena| + 2 * (hi - lo + 1) - 1
                && Stands(built.value.0, built.value.1, Build(policy, values, lo, hi))
      decreases hi - lo
    {
      if lo == hi {
        return Some((arena + [Cell(NO_NODE, NO_NODE, values[lo], policy.identity)], |arena|));
      }
      var mid := Midpoint(lo, hi);
      var left :- BuildInto(policy, values, arena, lo, mid);
      var right :- BuildInto(policy, values, left.0, mid + 1, hi);
      GrowthKeeps(left.0, right.0, left.1, Build(policy, values, lo, mid));
      var agg :- policy.TryCombine(right.0[left.1].agg, right.0[right.1].agg);
      var grown := right.0 + [Cell(left.1, right.1, agg, policy.identity)];
      GrowthKeeps(right.0, grown, left.1, Build(policy, values, lo, mid));
      GrowthKeeps(right.0, grown, right.1, Build(policy, values, mid + 1, hi));
      return Some((grown, |right.0|));
    }

    /** `initialize`: replaces the whole history, or fails and changes nothing. */
    method Initialize(values: seq<S>, mayExhaust: bool) returns (ok: bool)
      requires Valid()
      modifies this
      ensures Valid()
      ensures ok ==> values == [] || TryBuild(policy, values, 0, |values| - 1).Some?
      ensures !ok ==> mayExhaust || (values != [] && TryBuild(policy, values, 0, |values| - 1).None?)
      ensures NeverFails(policy) && !mayExhaust ==> ok
      ensures ok ==> initial == values && log == [] && |roots| == 1
      ensures !ok ==> unchanged(this)
    {
      hide Coherent, Stands, Build, TryBuild, NeverFails;
      var exhausted := Exhausted(mayExhaust);
      if exhausted {
        return false;
      }
      if values == [] {
        nodes, roots, arraySize := [], [NO_NODE], 0;
        initial, log := [], [];
        return true;
      }
      var built := BuildInto(policy, values, [], 0, |values| - 1);
      if NeverFails(policy) {
        BuildNeverFails(policy, values, 0, |values| - 1);
      }
      if built.None? {
        return false;
      }
      CoherentInitial(policy, push, values, built.value.0, built.value.1);
      nodes, roots, arraySize := built.value.0, [built.value.1], |values|;
      initial, log := values, [];
      return true;
    }

    /** `pushInto`: a copy of the child with the tag applied and composed outside its own. */
    method PushInto(source: nat, tag: A, length: nat, ghost t: Tree<S, A>, mayExhaust: bool)
      returns (index: Option<nat>, ghost u: Tree<S, A>)
      requires Stands(nodes, source, t)
      modifies this`nodes
      ensures old(nodes) <= nodes
      ensures index.Some? ==> |nodes| == |old(nodes)| + 1 && Stands(nodes, index.value, u)
      ensures index.Some? ==> TryStamp(policy, tag, t, length) == Some(u)
      ensures index.None? ==> mayExhaust || TryStamp(policy, tag, t, length) == None
    {
      var child := nodes[source];
      index, u := None, Stamp(policy, tag, t, length);
      var agg := policy.TryApply(tag, child.agg, length);
      var composed := policy.TryCompose(tag, child.tag);
      if agg.Some? && composed.Some? {
        index := Append(Cell(child.left, child.right, agg.value, composed.value), mayExhaust);
        if index.Some? && t.Node? {
          GrowthKeeps(old(nodes), nodes, child.left, t.left);
          GrowthKeeps(old(nodes), nodes, child.right, t.right);
        }
      }
    }

    /** The start of a partial descent: the children to continue from and the tag the copied parent keeps. */
    method Open(i: nat, lo: nat, hi: nat, ghost t: Tree<S, A>, mayExhaust: bool)
      returns (open: Option<(nat, nat, A)>, ghost o: Tree<S, A>)
      requires Stands(nodes, i, t) && t.Node?
      modifies this`nodes
      ensures old(nodes) <= nodes
      ensures open.Some? ==> |nodes| == |old(nodes)| + (if Pushes(policy, push, t) then 2 else 0)
      ensures open.Some? ==> TryOpen(policy, push, t, lo, hi) == Some(o) && open.value.2 == o.tag
      ensures open.Some? ==> Stands(nodes, open.value.0, o.left) && Stands(nodes, open.value.1, o.right)
      ensures open.None? ==> mayExhaust || TryOpen(policy, push, t, lo, hi) == None
    {
      var current := nodes[i];
      var mid := Midpoint(lo, hi);
      open, o := None, t;
      if !push || current.tag == policy.identity {
        open := Some((current.left, current.right, current.tag));
        return;
      }
      var left, lt := PushInto(current.left, current.tag, Length(lo, mid), t.left, mayExhaust);
      if left.None? {
        return;
      }
      ghost var stamped := nodes;
      GrowthKeeps(old(nodes), nodes, current.right, t.right);
      var right, rt := PushInto(current.right, current.tag, Length(mid + 1, hi), t.right, mayExhaust);
      if right.None? {
        return;
      }
      GrowthKeeps(stamped, nodes, left.value, lt);
      open, o := Some((left.value, right.value, policy.identity)), Node(t.agg, policy.identity, lt, rt);
    }

    /** The end of a partial descent: the copied parent with its aggregate recomputed from the children. */
    method Join(left: nat, right: nat, tag: A, length: nat, ghost lt: Tree<S, A>, ghost rt: Tree<S, A>,
                mayExhaust: bool)
      returns (index: Option<nat>, ghost u: Tree<S, A>)
      requires Stands(nodes, left, lt) && Stands(nodes, right, rt)
      modifies this`nodes
      ensures old(nodes) <= nodes
      ensures index.Some? ==> |nodes| == |old(nodes)| + 1 && Stands(nodes, index.value, u)
      ensures index.Some? ==> TryJoin(policy, tag, lt, rt, length) == Some(u)
      ensures index.None? ==> mayExhaust || TryJoin(policy, tag, lt, rt, length) == None
    {
      index, u := None, lt;
      var children := policy.TryCombine(nodes[left].agg, nodes[right].agg);
      if children.None? {
        return;
      }
      var agg := policy.TryApply(tag, children.value, length);
      if agg.None? {
        return;
      }
      u := Node(agg.value, tag, lt, rt);
      index := Append(Cell(left, right, agg.value, tag), mayExhaust);
      if index.Some? {
        GrowthKeeps(old(nodes), nodes, left, lt);
        GrowthKeeps(old(nodes), nodes, right, rt);
      }
    }

    /** `update` */
    method Update(i: nat, lo: nat, hi: nat, l: nat, r: nat, f: A, ghost t: Tree<S, A>, mayExhaust: bool)
      returns (index: Option<nat>, ghost u: Tree<S, A>)
      requires Stands(nodes, i, t) && Shaped(t, lo, hi) && Meets(lo, hi, l, r)
      modifies this`nodes
      ensures old(nodes) <= nodes
      ensures index.Some? ==> Stands(nodes, index.value, u)
      ensures index.Some? ==> |nodes| == |old(nodes)| + Growth(policy, push, t, lo, hi, l, r)
      ensures index.Some? ==> TryUpdate(policy, push, t, lo, hi, l, r, f) == Some(u)
      ensures index.None? ==> mayExhaust || TryUpdate(policy, push, t, lo, hi, l, r, f) == None
      decreases hi - lo, 1
    {
      if Covered(lo, hi, l, r) {
        index, u := PushInto(i, f, Length(lo, hi), t, mayExhaust);
        return;
      }
      var open, o := Open(i, lo, hi, t, mayExhaust);
      if open.None? {
        return None, t;
      }
      GrowthSplits(policy, push, t, lo, hi, l, r);
      OpenedShaped(policy, push, t, lo, hi);
      hide Growth, TryOpen, Pushes, Stands;
      index, u := Rebuild(open.value.0, open.value.1, open.value.2, lo, hi, l, r, f, o, mayExhaust);
    }

    /** The rest of a partial descent: enter the children that meet the range, then join. */
    method Rebuild(l0: nat, r0: nat, kept: A, lo: nat, hi: nat, l: nat, r: nat, f: A, ghost o: Tree<S, A>,
                   mayExhaust: bool)
      returns (index: Option<nat>, ghost u: Tree<S, A>)
      requires lo < hi && Meets(lo, hi, l, r) && Shaped(o, lo, hi)
      requires Stands(nodes, l0, o.left) && Stands(nodes, r0, o.right) && o.tag == kept
      modifies this`nodes
      ensures old(nodes) <= nodes
      ensures index.Some? ==> Stands(nodes, index.value, u)
      ensures index.Some? ==>
                |nodes| == |old(nodes)| + 1
                           + (if l <= Midpoint(lo, hi) then Growth(policy, push, o.left, lo, Midpoint(lo, hi), l, r)
                              else 0)
                           + (if Midpoint(lo, hi) < r then Growth(policy, push, o.right, Midpoint(lo, hi) + 1, hi, l, r)
                              else 0)
      ensures index.Some? ==> TryRebuild(policy, push, o, lo, hi, l, r, f) == Some(u)
      ensures index.None? ==> mayExhaust || TryRebuild(policy, push, o, lo, hi, l, r, f) == None
      decreases hi - lo, 0
    {
      hide TryUpdate, Growth, TryJoin;
      index, u := None, o;
      var mid := Midpoint(lo, hi);
      ghost var lt, rt := o.left, o.right;
      var left, right := l0, r0;
      if l <= mid {
        var entered;
        entered, lt := Update(left, lo, mid, l, r, f, lt, mayExhaust);
        if entered.None? {
          return;
        }
        GrowthKeeps(old(nodes), nodes, right, rt);
        left := entered.value;
      }
      ghost var before := nodes;
      if mid < r {
        var entered;
        entered, rt := Update(right, mid + 1, hi, l, r, f, rt, mayExhaust);
        if entered.None? {
          return;
        }
        GrowthKeeps(before, nodes, left, lt);
        right := entered.value;
      }
      index, u := Join(left, right, kept, Length(lo, hi), lt, rt, mayExhaust);
    }

    /**
     `rangeApply`: publishes exactly one version, or changes nothing.  Apart from running out of memory it fails only on
     an invalid request or when an operation of the update is not representable.
     */
    method RangeApply(l: nat, r: nat, f: A, mayExhaust: bool) returns (version: Option<nat>)
      requires Valid()
      modifies this`nodes, this`roots, this`log
      ensures Valid()
      ensures version.Some? ==>
                && ValidRange(arraySize, l, r)
                && version.value == |old(roots)|
                && log == old(log) + [Entry(l, r, f)]
                && old(nodes) <= nodes && old(roots) <= roots
                && !Refused(policy, push, initial, old(log), l, r, f)
      ensures version.Some? && f == policy.identity ==>
                && nodes == old(nodes)
                && old(roots) != [] && roots == old(roots) + [old(roots)[|old(roots)| - 1]]
      ensures version.None? ==> nodes == old(nodes) && roots == old(roots) && log == old(log)
      ensures version.None? && !mayExhaust ==>
                roots == [] || !ValidRange(arraySize, l, r) || Refused(policy, push, initial, log, l, r, f)
      ensures NeverFails(policy) && !mayExhaust && old(roots) != [] && ValidRange(arraySize, l, r) ==> version.Some?
    {
      hide Coherent, Refused, Run, Stands, Shaped, Growth, TryUpdate, TagTrees.Update, NeverFails;
      if roots == [] || !ValidRange(arraySize, l, r) {
        return None;
      }
      var newRoot := roots[|roots| - 1];
      ghost var t := Run(policy, push, initial, log);
      CoherentStart(policy, push, initial, log, nodes, roots);
      RefusedBy(policy, push, initial, log, l, r, f);
      if NeverFails(policy) {
        NeverRefused(policy, push, initial, log, l, r, f);
      }
      if f != policy.identity {
        var updated := Advance(newRoot, l, r, f, t, mayExhaust);
        if updated.None? {
          return None;
        }
        newRoot := updated.value;
      } else {
        var exhausted := Exhausted(mayExhaust);
        if exhausted {
          return None;
        }
      }
      CoherentNext(policy, push, initial, log, old(nodes), roots, nodes, newRoot, Entry(l, r, f));
      roots := roots + [newRoot];
      log := log + [Entry(l, r, f)];
      return Some(|roots| - 1);
    }

    /** The update of the latest version, its appends dropped when any part of it, or the append of its root, fails. */
    method Advance(root: nat, l: nat, r: nat, f: A, ghost t: Tree<S, A>, mayExhaust: bool)
      returns (newRoot: Option<nat>)
      requires ValidRange(arraySize, l, r) && Stands(nodes, root, t) && Shaped(t, 0, arraySize - 1)
      modifies this`nodes
      ensures old(nodes) <= nodes
      ensures newRoot.Some? ==>
                && Stands(nodes, newRoot.value, TagTrees.Update(policy, push, t, 0, arraySize - 1, l, r, f))
                && |nodes| == |old(nodes)| + Growth(policy, push, t, 0, arraySize - 1, l, r)
                && TryUpdate(policy, push, t, 0, arraySize - 1, l, r, f).Some?
      ensures newRoot.None? ==> nodes == old(nodes)
      ensures newRoot.None? ==> mayExhaust || TryUpdate(policy, push, t, 0, arraySize - 1, l, r, f) == None
    {
      hide TryUpdate, Growth, Stands, Shaped, TagTrees.Update;
      var checkpoint := |nodes|;
      ghost var u;
      newRoot, u := Update(root, 0, arraySize - 1, l, r, f, t, mayExhaust);
      var exhausted := Exhausted(mayExhaust);
      if exhausted {
        newRoot := None;
      }
      if newRoot.None? {
        nodes := nodes[..checkpoint];
      }
    }

    /** `nodeCount`: the build, and what every accepted action appended. */
    method NodeCount() returns (count: nat)
      requires Valid()
      ensures arraySize > 0 ==> count == 2 * arraySize - 1 + RunGrowth(policy, push, initial, log)
      ensures arraySize == 0 ==> count == 0
    {
      hide Published, RunGrowth;
      count := |nodes|;
    }

    /** `rangeAggregate`: an answer is the oracle's, on every published version. */
    method RangeAggregate(version: nat, l: nat, r: nat) returns (answer: Option<S>)
      requires Valid()
      ensures answer.Some? ==> version < |roots| && ValidRange(arraySize, l, r)
      ensures version < |roots| && ValidRange(arraySize, l, r) ==>
                answer == TryQuery(policy, Run(policy, push, initial, log[..version]), 0, arraySize - 1, l, r,
                                   policy.identity)
      ensures NeverFails(policy) && version < |roots| && ValidRange(arraySize, l, r) ==> answer.Some?
      ensures answer.Some? && Lawful(policy) && AllValid(policy, initial) && ValidHistory(policy, arraySize, log)
              && (push || InducedActionsCommute(policy)) ==>
                answer.value == Expected(policy, initial, log[..version], l, r)
    {
      if version >= |roots| || !ValidRange(arraySize, l, r) {
        return None;
      }
      hide Coherent, Run, Stands, Shaped, TryQuery, Lawful, InducedActionsCommute, AllValid, ValidHistory, Expected,
           NeverFails;
      ghost var t := Run(policy, push, initial, log[..version]);
      CoherentVersion(policy, push, initial, log, nodes, roots, version);
      answer := QueryArena(policy, nodes, roots[version], 0, arraySize - 1, l, r, policy.identity, t);
      VersionAnswer(policy, push, initial, log, version, l, r, answer);
    }
  }
}
