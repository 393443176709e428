/** PushedLazyTree (include/valseg/policy_trees.hpp:573-720): in place, for any lawful policy; its queries push too. */
module PushedTrees {
  import opened Wrappers
  import opened Canonical
  import opened Policies
  import opened TagTrees
  import opened Histories
  import opened CheckedUpdates
  import opened HeapLayout
  import opened PendingTrees

  /** The operations of a push are representable. */
  ghost predicate PushFits<S, A>(p: Policy<S, A>, t: Tree<S, A>, lo: nat, hi: nat) {
    t.tag != p.identity ==>
      && p.applyFits(t.tag, t.agg, Length(lo, hi))
      && (t.Node? ==> p.composeFits(t.tag, t.left.tag) && p.composeFits(t.tag, t.right.tag))
  }

  /** ... those of an update, */
  ghost predicate AppliedFits<S, A>(p: Policy<S, A>, t: Tree<S, A>, lo: nat, hi: nat, l: nat, r: nat, f: A)
    decreases Length(lo, hi)
  {
    var s, mid := Pushed(p, t, lo, hi), Midpoint(lo, hi);
    && PushFits(p, t, lo, hi)
    && if !Meets(lo, hi, l, r) then true
       else if s.Leaf? || hi <= lo || Covered(lo, hi, l, r) then
         p.composeFits(f, s.tag) && PushFits(p, Retagged(p, f, s), lo, hi)
       else
         && AppliedFits(p, s.left, lo, mid, l, r, f) && AppliedFits(p, s.right, mid + 1, hi, l, r, f)
         && p.combineFits(Applied(p, s.left, lo, mid, l, r, f).agg, Applied(p, s.right, mid + 1, hi, l, r, f).agg)
  }

  /** ... and those of a query. */
  ghost predicate CombinedFits<S, A>(p: Policy<S, A>, t: Tree<S, A>, lo: nat, hi: nat, l: nat, r: nat)
    decreases Length(lo, hi)
  {
    var s, mid := Pushed(p, t, lo, hi), Midpoint(lo, hi);
    && PushFits(p, t, lo, hi)
    && if !Meets(lo, hi, l, r) || s.Leaf? || hi <= lo || Covered(lo, hi, l, r) then true
       else
         && CombinedFits(p, s.left, lo, mid, l, r) && CombinedFits(p, s.right, mid + 1, hi, l, r)
         && p.combineFits(Combined(p, s.left, lo, mid, l, r), Combined(p, s.right, mid + 1, hi, l, r))
  }

  /** A policy whose operations are representable on all arguments never makes the tree fail. */
  lemma {:induction false} NothingFails<S(!new), A(!new)>(
      p: Policy<S, A>, t: Tree<S, A>, lo: nat, hi: nat, l: nat, r: nat, f: A)
    requires NeverFails(p)
    ensures AppliedFits(p, t, lo, hi, l, r, f) && CombinedFits(p, t, lo, hi, l, r)
    decreases Length(lo, hi)
  {
    hide Applied, Combined, Pushed;
    var s := Pushed(p, t, lo, hi);
    if s.Node? && lo < hi {
      NothingFails(p, s.left, lo, Midpoint(lo, hi), l, r, f);
      NothingFails(p, s.right, Midpoint(lo, hi) + 1, hi, l, r, f);
    }
  }

  /** A freshly built tree has nothing pending. */
  lemma {:induction false} BuildPending<S(!new), A(!new)>(p: Policy<S, A>, xs: seq<S>, lo: nat, hi: nat)
    requires Lawful(p) && AllValid(p, xs) && lo <= hi < |xs|
    ensures var t := Build(p, xs, lo, hi);
            && Pending(p, t, lo, hi) && t.agg == Effective(p, t, lo, hi) && PendingElements(p, t) == xs[lo..hi + 1]
    decreases hi - lo
  {
    hide Lawful, Pending, PendingElements, Effective, AllValid;
    if lo == hi {
      BuildPendingLeaf(p, xs, lo);
    } else {
      BuildPending(p, xs, lo, Midpoint(lo, hi));
      BuildPending(p, xs, Midpoint(lo, hi) + 1, hi);
      SettledJoin(p, Build(p, xs, lo, Midpoint(lo, hi)), Build(p, xs, Midpoint(lo, hi) + 1, hi), lo, hi);
      assert xs[lo..hi + 1] == xs[lo..Midpoint(lo, hi) + 1] + xs[Midpoint(lo, hi) + 1..hi + 1];
    }
  }

  lemma {:induction false} BuildPendingLeaf<S(!new), A(!new)>(p: Policy<S, A>, xs: seq<S>, at: nat)
    requires Lawful(p) && AllValid(p, xs) && at < |xs|
    ensures var t := Build(p, xs, at, at);
            && Pending(p, t, at, at) && t.agg == Effective(p, t, at, at) && PendingElements(p, t) == xs[at..at + 1]
  {
    IdentityValid(p);
    IdentityNeutral(p, xs[at], 1);
    hide Lawful;
  }

  // ---------------------------------------------------------------- push in place

  /** The tags after a push. */
  function PushedTags<S, A>(p: Policy<S, A>, tags: seq<A>, i: nat, leaf: bool): seq<A>
    requires i < |tags| && (leaf || 2 * i + 2 < |tags|)
  {
    if leaf then tags[i := p.identity]
    else
      tags[2 * i + 1 := p.compose(tags[i], tags[2 * i + 1])][2 * i + 2 := p.compose(tags[i], tags[2 * i + 2])]
          [i := p.identity]
  }

  /** The same attribute under the same children. */
  lemma {:induction false} LaidSame<S, A, X>(cells: seq<X>, read: Tree<S, A> -> X, i: nat, t: Tree<S, A>, u: Tree<S, A>)
    requires Laid(cells, read, i, t) && SameBelow(t, u) && read(u) == read(t)
    ensures Laid(cells, read, i, u)
  {
  }

  lemma {:induction false} PushInPlace<S, A>(
      p: Policy<S, A>, aggs: seq<S>, tags: seq<A>, i: nat, t: Tree<S, A>, lo: nat, hi: nat)
    requires InHeap(aggs, tags, i, t) && t.tag != p.identity
    ensures i < |aggs| == |tags| && aggs[i] == t.agg && tags[i] == t.tag && (t.Node? ==> 2 * i + 2 < |tags|)
    ensures var u, aggs' := Pushed(p, t, lo, hi), aggs[i := Effective(p, t, lo, hi)];
            var tags' := PushedTags(p, tags, i, t.Leaf?);
            InHeap(aggs', tags', i, u) && SameElsewhere(aggs, tags, aggs', tags', i)
  {
    var u := Pushed(p, t, lo, hi);
    InHeapChildren(aggs, tags, i, t);
    LaidChildren(aggs, AggregateOf, i, t);
    LaidChildren(tags, TagOf, i, t);
    hide Laid, Below;
    if t.Node? {
      LaidSame(aggs, AggregateOf, 2 * i + 1, t.left, u.left);
      LaidSame(aggs, AggregateOf, 2 * i + 2, t.right, u.right);
      LaidRefreshed(tags, TagOf, i, t, u);
    } else {
      LaidAbove(tags, TagOf, i, u);
    }
    LaidAbove(aggs, AggregateOf, i, u);
  }

  /** The heap holds the tree, and the tree the elements that the log makes of the initial array. */
  ghost predicate Holding<S, A>(
      p: Policy<S, A>, xs: seq<S>, log: seq<Entry<A>>, aggs: seq<S>, tags: seq<A>, t: Tree<S, A>)
  {
    && AllValid(p, xs) && ValidHistory(p, |xs|, log)
    && |aggs| == 4 * |xs|
    && if xs == [] then log == []
       else
         && InHeap(aggs, tags, 0, t)
         && Pending(p, t, 0, |xs| - 1)
         && PendingElements(p, t) == Oracle(p, xs, log)
  }

  lemma {:induction false} HeldStart<S, A>(
      p: Policy<S, A>, xs: seq<S>, log: seq<Entry<A>>, aggs: seq<S>, tags: seq<A>, t: Tree<S, A>)
    requires Holding(p, xs, log, aggs, tags, t) && xs != []
    ensures InHeap(aggs, tags, 0, t) && Shaped(t, 0, |xs| - 1)
  {
    PendingIsShaped(p, t, 0, |xs| - 1);
  }

  /** The heap after an update. */
  lemma {:induction false} HeldAfterUpdate<S(!new), A(!new)>(
      p: Policy<S, A>, xs: seq<S>, log: seq<Entry<A>>, aggs: seq<S>, tags: seq<A>, t: Tree<S, A>,
      aggs': seq<S>, tags': seq<A>, l: nat, r: nat, f: A)
    requires Lawful(p) && Holding(p, xs, log, aggs, tags, t) && ValidRange(|xs|, l, r) && p.validAction(f)
    requires SameElsewhere(aggs, tags, aggs', tags', 0)
    requires InHeap(aggs', tags', 0, Applied(p, t, 0, |xs| - 1, l, r, f))
    ensures Holding(p, xs, log + [Entry(l, r, f)], aggs', tags', Applied(p, t, 0, |xs| - 1, l, r, f))
  {
    hide Lawful, InHeap, Pending, PendingElements, Oracle, Applied, SameElsewhere, AllValid;
    AppliedElements(p, t, 0, |xs| - 1, l, r, f);
    OneMoreEntry(p, xs, log, Entry(l, r, f));
    HeapSize(aggs, tags, aggs', tags', 0);
  }

  /** The heap after a query, and what the query answers. */
  lemma {:induction false} HeldAfterQuery<S(!new), A(!new)>(
      p: Policy<S, A>, xs: seq<S>, log: seq<Entry<A>>, aggs: seq<S>, tags: seq<A>, t: Tree<S, A>,
      aggs': seq<S>, tags': seq<A>, l: nat, r: nat)
    requires Lawful(p) && Holding(p, xs, log, aggs, tags, t) && ValidRange(|xs|, l, r)
    requires SameElsewhere(aggs, tags, aggs', tags', 0)
    requires InHeap(aggs', tags', 0, Traversed(p, t, 0, |xs| - 1, l, r))
    ensures Holding(p, xs, log, aggs', tags', Traversed(p, t, 0, |xs| - 1, l, r))
    ensures Combined(p, t, 0, |xs| - 1, l, r) == Expected(p, xs, log, l, r)
  {
    hide Lawful, InHeap, Pending, PendingElements, Oracle, Traversed, Combined, SameElsewhere, AllValid, Fold,
         FoldRange;
    QueryKeepsElements(p, t, 0, |xs| - 1, l, r);
    FoldRangeIsSlice(p, Oracle(p, xs, log), 0, l, r);
    HeapSize(aggs, tags, aggs', tags', 0);
  }

  class PushedLazyTree<S(!new), A(==, !new)> {
    const policy: Policy<S, A>
    var aggregates: seq<S>
    var tags: seq<A>
    var arraySize: nat
    ghost var initial: seq<S>
    ghost var log: seq<Entry<A>>
    /** The tree in the heap: not a function of the log, since queries push as well. */
    ghost var held: Tree<S, A>

    constructor (policy: Policy<S, A>)
      requires Lawful(policy)
      ensures Valid() && arraySize == 0 && this.policy == policy
    {
      this.policy := policy;
      aggregates, tags, arraySize, initial, log := [], [], 0, [], [];
      held := Leaf(policy.empty, policy.identity);
    }

    /** In every reachable state, whatever queries came between the updates, the heap holds the oracle's elements. */
    ghost predicate Valid()
      reads this
    {
      arraySize == |initial| && Lawful(policy) && Holding(policy, initial, log, aggregates, tags, held)
    }

    /** `push` */
    method Push(i: nat, lo: nat, hi: nat, ghost t: Tree<S, A>) returns (ok: bool)
      requires InHeap(aggregates, tags, i, t) && lo <= hi && (t.Leaf? <==> lo == hi)
      modifies this`aggregates, this`tags
      ensures ok ==>
                && InHeap(aggregates, tags, i, Pushed(policy, t, lo, hi))
                && SameElsewhere(old(aggregates), old(tags), aggregates, tags, i)
      ensures ok <==> PushFits(policy, t, lo, hi)
    {
      hide InHeap, SameElsewhere, Pushed;
      InHeapChildren(aggregates, tags, i, t);
      NothingElsewhere(aggregates, tags, i);
      PushedIs(policy, t, lo, hi);
      if tags[i] == policy.identity {
        return true;
      }
      PushInPlace(policy, aggregates, tags, i, t, lo, hi);
      if t.Node? {
        InHeapTags(aggregates, tags, i, t);
      }
      var agg := policy.TryApply(tags[i], aggregates[i], hi - lo + 1);
      if agg.None? {
        return false;
      }
      aggregates := aggregates[i := agg.value];
      if lo != hi {
        var left := policy.TryCompose(tags[i], tags[2 * i + 1]);
        if left.None? {
          return false;
        }
        tags := tags[2 * i + 1 := left.value];
        var right := policy.TryCompose(tags[i], tags[2 * i + 2]);
        if right.None? {
          return false;
        }
        tags := tags[2 * i + 2 := right.value];
      }
      tags := tags[i := policy.identity];
      return true;
    }

    /** `update` */
    method Update(i: nat, lo: nat, hi: nat, l: nat, r: nat, f: A, ghost t: Tree<S, A>) returns (ok: bool)
      requires InHeap(aggregates, tags, i, t) && Shaped(t, lo, hi)
      modifies this`aggregates, this`tags
      ensures ok ==>
                && InHeap(aggregates, tags, i, Applied(policy, t, lo, hi, l, r, f))
                && SameElsewhere(old(aggregates), old(tags), aggregates, tags, i)
      ensures ok <==> AppliedFits(policy, t, lo, hi, l, r, f)
      decreases hi - lo, 1
    {
      hide InHeap, SameElsewhere, Pushed, Shaped, Applied, PushFits, AppliedFits;
      ShapedPush(policy, t, lo, hi);
      AppliedCases(policy, t, lo, hi, l, r, f);
      AppliedFitsCases(policy, t, lo, hi, l, r, f);
      ok := Push(i, lo, hi, t);
      if !ok {
        return;
      }
      ghost var s, aggs1, tags1 := Pushed(policy, t, lo, hi), aggregates, tags;
      if hi < l || lo > r {
        return true;
      }
      if l <= lo && hi <= r {
        ok := Cover(i, lo, hi, f, s);
      } else {
        ok := UpdateBoth(i, lo, hi, l, r, f, s);
      }
      if ok {
        BothElsewhere(old(aggregates), old(tags), aggs1, tags1, aggregates, tags, i);
      }
    }

    /** A covered node: the action composed outside its tag, and pushed at once. */
    method Cover(i: nat, lo: nat, hi: nat, f: A, ghost s: Tree<S, A>) returns (ok: bool)
      requires InHeap(aggregates, tags, i, s) && lo <= hi && (s.Leaf? <==> lo == hi)
      modifies this`aggregates, this`tags
      ensures ok ==>
                && InHeap(aggregates, tags, i, Pushed(policy, Retagged(policy, f, s), lo, hi))
                && SameElsewhere(old(aggregates), old(tags), aggregates, tags, i)
      ensures ok <==> policy.composeFits(f, s.tag) && PushFits(policy, Retagged(policy, f, s), lo, hi)
    {
      hide InHeap, SameElsewhere, Pushed, PushFits;
      InHeapChildren(aggregates, tags, i, s);
      StampInPlace(aggregates, tags, i, s, Retagged(policy, f, s));
      assert aggregates[i := aggregates[i]] == aggregates;
      var composed := policy.TryCompose(f, tags[i]);
      if composed.None? {
        return false;
      }
      tags := tags[i := composed.value];
      ghost var aggs1, tags1 := aggregates, tags;
      ok := Push(i, lo, hi, Retagged(policy, f, s));
      if ok {
        BothElsewhere(old(aggregates), old(tags), aggs1, tags1, aggregates, tags, i);
      }
    }

    /** Both children, met or not, and the aggregate over them; nothing is pending on the node. */
    method UpdateBoth(i: nat, lo: nat, hi: nat, l: nat, r: nat, f: A, ghost s: Tree<S, A>) returns (ok: bool)
      requires InHeap(aggregates, tags, i, s) && s.Node? && s.tag == policy.identity && lo < hi
      requires Shaped(s.left, lo, Midpoint(lo, hi)) && Shaped(s.right, Midpoint(lo, hi) + 1, hi)
      modifies this`aggregates, this`tags
      ensures ok ==>
                var left := Applied(policy, s.left, lo, Midpoint(lo, hi), l, r, f);
                var right := Applied(policy, s.right, Midpoint(lo, hi) + 1, hi, l, r, f);
                InHeap(aggregates, tags, i, Node(policy.combine(left.agg, right.agg), policy.identity, left, right))
      ensures ok ==> SameElsewhere(old(aggregates), old(tags), aggregates, tags, i)
      ensures ok <==> BothFit(policy, s, lo, hi, l, r, f)
      decreases hi - lo, 0
    {
      hide InHeap, SameElsewhere, Shaped, Applied, AppliedFits;
      var middle := Midpoint(lo, hi);
      InHeapChildren(aggregates, tags, i, s);
      ghost var lt := Applied(policy, s.left, lo, middle, l, r, f);
      ghost var rt := Applied(policy, s.right, middle + 1, hi, l, r, f);
      ok := Update(2 * i + 1, lo, middle, l, r, f, s.left);
      if !ok {
        return;
      }
      LeftInPlace(old(aggregates), old(tags), aggregates, tags, i, s.right);
      ghost var aggs1, tags1 := aggregates, tags;
      ok := Update(2 * i + 2, middle + 1, hi, l, r, f, s.right);
      if !ok {
        return;
      }
      BothInPlace(old(aggregates), old(tags), aggs1, tags1, aggregates, tags, i,
                  Node(policy.combine(lt.agg, rt.agg), policy.identity, lt, rt));
      var agg := policy.TryCombine(aggregates[2 * i + 1], aggregates[2 * i + 2]);
      if agg.None? {
        return false;
      }
      aggregates := aggregates[i := agg.value];
    }

    /** `query`: pushes at every node it visits. */
    method Query(i: nat, lo: nat, hi: nat, l: nat, r: nat, ghost t: Tree<S, A>) returns (answer: Option<S>)
      requires InHeap(aggregates, tags, i, t) && Shaped(t, lo, hi)
      modifies this`aggregates, this`tags
      ensures answer.Some? ==>
                && answer.value == Combined(policy, t, lo, hi, l, r)
                && InHeap(aggregates, tags, i, Traversed(policy, t, lo, hi, l, r))
                && SameElsewhere(old(aggregates), old(tags), aggregates, tags, i)
      ensures answer.Some? <==> CombinedFits(policy, t, lo, hi, l, r)
      decreases hi - lo, 1
    {
      hide InHeap, SameElsewhere, Pushed, Shaped, Traversed, Combined, PushFits, CombinedFits;
      ShapedPush(policy, t, lo, hi);
      QueryCases(policy, t, lo, hi, l, r);
      CombinedFitsCases(policy, t, lo, hi, l, r);
      var ok := Push(i, lo, hi, t);
      if !ok {
        return None;
      }
      ghost var s, aggs1, tags1 := Pushed(policy, t, lo, hi), aggregates, tags;
      InHeapChildren(aggregates, tags, i, s);
      if hi < l || lo > r {
        return Some(policy.empty);
      }
      if l <= lo && hi <= r {
        return Some(aggregates[i]);
      }
      answer := QueryBoth(i, lo, hi, l, r, s);
      if answer.Some? {
        BothElsewhere(old(aggregates), old(tags), aggs1, tags1, aggregates, tags, i);
      }
    }

    method QueryBoth(i: nat, lo: nat, hi: nat, l: nat, r: nat, ghost s: Tree<S, A>) returns (answer: Option<S>)
      requires InHeap(aggregates, tags, i, s) && s.Node? && lo < hi
      requires Shaped(s.left, lo, Midpoint(lo, hi)) && Shaped(s.right, Midpoint(lo, hi) + 1, hi)
      modifies this`aggregates, this`tags
      ensures answer.Some? ==>
                && answer.value == policy.combine(Combined(policy, s.left, lo, Midpoint(lo, hi), l, r),
                                                  Combined(policy, s.right, Midpoint(lo, hi) + 1, hi, l, r))
                && InHeap(aggregates, tags, i,
                          Node(s.agg, s.tag, Traversed(policy, s.left, lo, Midpoint(lo, hi), l, r),
                               Traversed(policy, s.right, Midpoint(lo, hi) + 1, hi, l, r)))
                && SameElsewhere(old(aggregates), old(tags), aggregates, tags, i)
      ensures answer.Some? <==> BothCombine(policy, s, lo, hi, l, r)
      decreases hi - lo, 0
    {
      hide InHeap, SameElsewhere, Shaped, Traversed, Combined, CombinedFits;
      var middle := Midpoint(lo, hi);
      InHeapChildren(aggregates, tags, i, s);
      ghost var u := Node(s.agg, s.tag, Traversed(policy, s.left, lo, middle, l, r),
                          Traversed(policy, s.right, middle + 1, hi, l, r));
      var a := Query(2 * i + 1, lo, middle, l, r, s.left);
      if a.None? {
        return None;
      }
      LeftInPlace(old(aggregates), old(tags), aggregates, tags, i, s.right);
      ghost var aggs1, tags1 := aggregates, tags;
      var b := Query(2 * i + 2, middle + 1, hi, l, r, s.right);
      if b.None? {
        return None;
      }
      BothUnchanged(old(aggregates), old(tags), aggs1, tags1, aggregates, tags, i, u);
      return policy.TryCombine(a.value, b.value);
    }

    /** `build` */
    static method BuildInto(policy: Policy<S, A>, values: seq<S>, output: seq<S>, i: nat, lo: nat, hi: nat)
      returns (built: Option<seq<S>>)
      requires lo <= hi < |values| && |output| == 4 * |values| && Room(i, Length(lo, hi), |values|)
      ensures built.Some? <==> TryBuild(policy, values, lo, hi).Some?
      ensures built.Some? ==>
                && Laid(built.value, AggregateOf, i, Build(policy, values, lo, hi))
                && AgreeElsewhere(output, built.value, i)
      decreases hi - lo
    {
      hide Laid, AgreeElsewhere, Below, Room, TryBuild, Build;
      BuildCases(policy, values, lo, hi);
      RoomIsInside(i, Length(lo, hi), |values|);
      if lo == hi {
        LaidAbove(output, AggregateOf, i, Build(policy, values, lo, hi));
        return Some(output[i := values[lo]]);
      }
      var mid := Midpoint(lo, hi);
      ChildrenRoom(i, lo, hi, |values|);
      var left := BuildInto(policy, values, output, 2 * i + 1, lo, mid);
      if left.None? {
        return None;
      }
      SameSize(output, left.value, 2 * i + 1);
      var right := BuildInto(policy, values, left.value, 2 * i + 2, mid + 1, hi);
      if right.None? {
        return None;
      }
      SameSize(left.value, right.value, 2 * i + 2);
      SumInPlace(output, left.value, right.value, i, Build(policy, values, lo, hi));
      var agg := policy.TryCombine(right.value[2 * i + 1], right.value[2 * i + 2]);
      if agg.None? {
        return None;
      }
      return Some(right.value[i := agg.value]);
    }

    /** `initialize` */
    method Initialize(values: seq<S>, mayExhaust: bool) returns (ok: bool)
      requires Valid() && AllValid(policy, values)
      modifies this
      ensures Valid()
      ensures ok ==> values == [] || TryBuild(policy, values, 0, |values| - 1).Some?
      ensures !ok ==> mayExhaust || (values != [] && TryBuild(policy, values, 0, |values| - 1).None?)
      ensures ok ==> initial == values && log == [] && |aggregates| == |tags| == 4 * |values|
      ensures NeverFails(policy) && !mayExhaust ==> ok
      ensures !ok ==> unchanged(this)
    {
      hide Laid, AgreeElsewhere, Lawful, AllValid, InHeap, Holding, TryBuild, Build, Room, NeverFails;
      var exhausted := Exhausted(mayExhaust);
      if exhausted {
        return false;
      }
      var newAggregates := seq(4 * |values|, i => policy.empty);
      var newTags := seq(4 * |values|, i => policy.identity);
      if values != [] {
        RootRoom(|values|);
        if NeverFails(policy) {
          BuildNeverFails(policy, values, 0, |values| - 1);
        }
        var built := BuildInto(policy, values, newAggregates, 0, 0, |values| - 1);
        if built.None? {
          return false;
        }
        SameSize(newAggregates, built.value, 0);
        newAggregates := built.value;
        held := Build(policy, values, 0, |values| - 1);
      }
      HeldInitially(policy, values, newAggregates, newTags, held);
      aggregates, tags, arraySize := newAggregates, newTags, |values|;
      initial, log := values, [];
      return true;
    }

    /**
     `rangeApply`: the action applied to every element of the range.  There is no rollback: after an operation that is
     not representable the tree is unusable.
     */
    method RangeApply(l: nat, r: nat, f: A) returns (ok: bool)
      requires Valid() && policy.validAction(f)
      modifies this`aggregates, this`tags, this`log, this`held
      ensures ok ==> Valid() && ValidRange(arraySize, l, r) && log == old(log) + [Entry(l, r, f)]
      ensures !ValidRange(arraySize, l, r) ==> !ok && unchanged(this)
      ensures ok <==> ValidRange(arraySize, l, r) && AppliedFits(policy, old(held), 0, arraySize - 1, l, r, f)
    {
      if !ValidRange(arraySize, l, r) {
        return false;
      }
      hide Lawful, Holding, InHeap, Applied, SameElsewhere, AppliedFits, Shaped;
      ghost var t := held;
      HeldStart(policy, initial, log, aggregates, tags, t);
      ok := Update(0, 0, arraySize - 1, l, r, f, t);
      if ok {
        HeldAfterUpdate(policy, initial, log, old(aggregates), old(tags), t, aggregates, tags, l, r, f);
        held := Applied(policy, t, 0, arraySize - 1, l, r, f);
        log := log + [Entry(l, r, f)];
      }
    }

    /** `rangeAggregate`: the oracle's answer; the nodes it pushes stand for the same elements as before. */
    method RangeAggregate(l: nat, r: nat) returns (answer: Option<S>)
      requires Valid()
      modifies this`aggregates, this`tags, this`held
      ensures answer.Some? ==>
                Valid() && ValidRange(arraySize, l, r) && answer.value == Expected(policy, initial, log, l, r)
      ensures !ValidRange(arraySize, l, r) ==> answer.None? && unchanged(this)
      ensures answer.Some? <==> ValidRange(arraySize, l, r) && CombinedFits(policy, old(held), 0, arraySize - 1, l, r)
    {
      if !ValidRange(arraySize, l, r) {
        return None;
      }
      hide Lawful, Holding, InHeap, Traversed, Combined, SameElsewhere, CombinedFits, Shaped, Expected, ValidHistory,
           AllValid;
      ghost var t := held;
      HeldStart(policy, initial, log, aggregates, tags, t);
      answer := Query(0, 0, arraySize - 1, l, r, t);
      if answer.Some? {
        HeldAfterQuery(policy, initial, log, old(aggregates), old(tags), t, aggregates, tags, l, r);
        held := Traversed(policy, t, 0, arraySize - 1, l, r);
      }
    }
  }

  lemma {:induction false} NothingElsewhere<S, A>(aggs: seq<S>, tags: seq<A>, i: nat)
    ensures SameElsewhere(aggs, tags, aggs, tags, i)
  {
  }

  lemma {:induction false} PushedIs<S, A>(p: Policy<S, A>, t: Tree<S, A>, lo: nat, hi: nat)
    ensures t.tag == p.identity ==> Pushed(p, t, lo, hi) == t
  {
  }

  lemma {:induction false} ShapedPush<S, A>(p: Policy<S, A>, t: Tree<S, A>, lo: nat, hi: nat)
    requires Shaped(t, lo, hi)
    ensures lo <= hi && (t.Leaf? <==> lo == hi)
    ensures var s := Pushed(p, t, lo, hi);
            s.Node? ==> Shaped(s.left, lo, Midpoint(lo, hi)) && Shaped(s.right, Midpoint(lo, hi) + 1, hi)
  {
  }

  lemma {:induction false} AppliedCases<S, A>(p: Policy<S, A>, t: Tree<S, A>, lo: nat, hi: nat, l: nat, r: nat, f: A)
    requires lo <= hi && (t.Leaf? <==> lo == hi)
    ensures var s, u, mid := Pushed(p, t, lo, hi), Applied(p, t, lo, hi, l, r, f), Midpoint(lo, hi);
            && (!Meets(lo, hi, l, r) ==> u == s)
            && (Meets(lo, hi, l, r) && Covered(lo, hi, l, r) ==> u == Pushed(p, Retagged(p, f, s), lo, hi))
            && (Meets(lo, hi, l, r) && !Covered(lo, hi, l, r) ==>
                  && lo < hi && s.Node?
                  && var left, right := Applied(p, s.left, lo, mid, l, r, f), Applied(p, s.right, mid + 1, hi, l, r, f);
                     u == Node(p.combine(left.agg, right.agg), p.identity, left, right))
  {
  }

  lemma {:induction false} AppliedFitsCases<S, A>(
      p: Policy<S, A>, t: Tree<S, A>, lo: nat, hi: nat, l: nat, r: nat, f: A)
    requires lo <= hi && (t.Leaf? <==> lo == hi)
    ensures var s := Pushed(p, t, lo, hi);
            && (AppliedFits(p, t, lo, hi, l, r, f) ==> PushFits(p, t, lo, hi))
            && (!Meets(lo, hi, l, r) && PushFits(p, t, lo, hi) ==> AppliedFits(p, t, lo, hi, l, r, f))
            && (Meets(lo, hi, l, r) && Covered(lo, hi, l, r) && PushFits(p, t, lo, hi) ==>
                  (AppliedFits(p, t, lo, hi, l, r, f) <==>
                     p.composeFits(f, s.tag) && PushFits(p, Retagged(p, f, s), lo, hi)))
            && (Meets(lo, hi, l, r) && !Covered(lo, hi, l, r) && PushFits(p, t, lo, hi) ==>
                  s.Node? && (AppliedFits(p, t, lo, hi, l, r, f) <==> BothFit(p, s, lo, hi, l, r, f)))
  {
    hide PushFits;
  }

  ghost predicate BothFit<S, A>(p: Policy<S, A>, s: Tree<S, A>, lo: nat, hi: nat, l: nat, r: nat, f: A)
    requires s.Node?
  {
    var mid := Midpoint(lo, hi);
    && AppliedFits(p, s.left, lo, mid, l, r, f) && AppliedFits(p, s.right, mid + 1, hi, l, r, f)
    && p.combineFits(Applied(p, s.left, lo, mid, l, r, f).agg, Applied(p, s.right, mid + 1, hi, l, r, f).agg)
  }

  lemma {:induction false} CombinedFitsCases<S, A>(p: Policy<S, A>, t: Tree<S, A>, lo: nat, hi: nat, l: nat, r: nat)
    requires lo <= hi && (t.Leaf? <==> lo == hi)
    ensures var s := Pushed(p, t, lo, hi);
            && (CombinedFits(p, t, lo, hi, l, r) ==> PushFits(p, t, lo, hi))
            && (!Meets(lo, hi, l, r) || Covered(lo, hi, l, r) ==>
                  (CombinedFits(p, t, lo, hi, l, r) <==> PushFits(p, t, lo, hi)))
            && (Meets(lo, hi, l, r) && !Covered(lo, hi, l, r) && PushFits(p, t, lo, hi) ==>
                  s.Node? && (CombinedFits(p, t, lo, hi, l, r) <==> BothCombine(p, s, lo, hi, l, r)))
  {
    hide PushFits;
  }

  ghost predicate BothCombine<S, A>(p: Policy<S, A>, s: Tree<S, A>, lo: nat, hi: nat, l: nat, r: nat)
    requires s.Node?
  {
    var mid := Midpoint(lo, hi);
    && CombinedFits(p, s.left, lo, mid, l, r) && CombinedFits(p, s.right, mid + 1, hi, l, r)
    && p.combineFits(Combined(p, s.left, lo, mid, l, r), Combined(p, s.right, mid + 1, hi, l, r))
  }

  lemma {:induction false} QueryCases<S, A>(p: Policy<S, A>, t: Tree<S, A>, lo: nat, hi: nat, l: nat, r: nat)
    requires lo <= hi && (t.Leaf? <==> lo == hi)
    ensures var s, u, mid := Pushed(p, t, lo, hi), Traversed(p, t, lo, hi, l, r), Midpoint(lo, hi);
            var total := Combined(p, t, lo, hi, l, r);
            && (!Meets(lo, hi, l, r) ==> u == s && total == p.empty)
            && (Meets(lo, hi, l, r) && Covered(lo, hi, l, r) ==> u == s && total == s.agg)
            && (Meets(lo, hi, l, r) && !Covered(lo, hi, l, r) ==>
                  && lo < hi && s.Node?
                  && total == p.combine(Combined(p, s.left, lo, mid, l, r), Combined(p, s.right, mid + 1, hi, l, r))
                  && u == Node(s.agg, s.tag, Traversed(p, s.left, lo, mid, l, r),
                               Traversed(p, s.right, mid + 1, hi, l, r)))
  {
  }

  lemma {:induction false} BothElsewhere<S, A>(
      aggs: seq<S>, tags: seq<A>, aggs1: seq<S>, tags1: seq<A>, aggs2: seq<S>, tags2: seq<A>, i: nat)
    requires SameElsewhere(aggs, tags, aggs1, tags1, i) && SameElsewhere(aggs1, tags1, aggs2, tags2, i)
    ensures SameElsewhere(aggs, tags, aggs2, tags2, i)
  {
  }

  /** Both children rewritten under a node that keeps its aggregate. */
  lemma {:induction false} BothUnchanged<S, A>(
      aggs: seq<S>, tags: seq<A>, aggs1: seq<S>, tags1: seq<A>, aggs2: seq<S>, tags2: seq<A>, i: nat, u: Tree<S, A>)
    requires u.Node? && i < |aggs| == |tags| && tags[i] == u.tag && aggs[i] == u.agg
    requires SameElsewhere(aggs, tags, aggs1, tags1, 2 * i + 1) && InHeap(aggs1, tags1, 2 * i + 1, u.left)
    requires SameElsewhere(aggs1, tags1, aggs2, tags2, 2 * i + 2) && InHeap(aggs2, tags2, 2 * i + 2, u.right)
    ensures InHeap(aggs2, tags2, i, u) && SameElsewhere(aggs, tags, aggs2, tags2, i)
  {
    BothInPlace(aggs, tags, aggs1, tags1, aggs2, tags2, i, u);
    ElsewhereIsAside(aggs, aggs1, i, 2 * i + 1);
    ElsewhereIsAside(aggs1, aggs2, i, 2 * i + 2);
    assert aggs2[i := u.agg] == aggs2;
  }

  lemma SameSize<S>(output: seq<S>, output': seq<S>, i: nat)
    requires AgreeElsewhere(output, output', i)
    ensures |output'| == |output|
  {
  }

  lemma HeapSize<S, A>(aggs: seq<S>, tags: seq<A>, aggs': seq<S>, tags': seq<A>, i: nat)
    requires SameElsewhere(aggs, tags, aggs', tags', i)
    ensures |aggs'| == |aggs|
  {
  }

  /** Four slots an element hold a freshly built tree. */
  lemma {:induction false} HeldInitially<S(!new), A(!new)>(
      p: Policy<S, A>, values: seq<S>, aggs: seq<S>, tags: seq<A>, t: Tree<S, A>)
    requires Lawful(p) && AllValid(p, values) && |aggs| == |tags| == 4 * |values|
    requires values != [] ==>
               t == Build(p, values, 0, |values| - 1) && Laid(aggs, AggregateOf, 0, t)
    requires forall j :: 0 <= j < |tags| ==> tags[j] == p.identity
    ensures Holding(p, values, [], aggs, tags, t)
  {
    hide Lawful, Laid, Pending, PendingElements, Build, AllValid;
    if values != [] {
      BuiltTags(p, values, 0, |values| - 1);
      RootRoom(|values|);
      UniformLaid(tags, TagOf, p.identity, 0, t, 0, |values| - 1, |values|);
      BuildPending(p, values, 0, |values| - 1);
      assert values[0..|values|] == values;
    }
  }

  lemma {:induction false} BuildCases<S, A>(p: Policy<S, A>, values: seq<S>, lo: nat, hi: nat)
    requires lo <= hi < |values|
    ensures lo == hi ==>
              Build(p, values, lo, hi) == Leaf(values[lo], p.identity) && TryBuild(p, values, lo, hi).Some?
    ensures lo < hi ==>
              var u, mid := Build(p, values, lo, hi), Midpoint(lo, hi);
              && u.Node? && u.left == Build(p, values, lo, mid) && u.right == Build(p, values, mid + 1, hi)
              && u.agg == p.combine(u.left.agg, u.right.agg)
              && (TryBuild(p, values, lo, hi).Some? <==>
                    && TryBuild(p, values, lo, mid).Some? && TryBuild(p, values, mid + 1, hi).Some?
                    && p.combineFits(u.left.agg, u.right.agg))
  {
  }

  lemma {:induction false} PendingIsShaped<S, A>(p: Policy<S, A>, t: Tree<S, A>, lo: nat, hi: nat)
    requires Pending(p, t, lo, hi)
    ensures Shaped(t, lo, hi)
    decreases t
  {
    if t.Node? {
      PendingIsShaped(p, t.left, lo, Midpoint(lo, hi));
      PendingIsShaped(p, t.right, Midpoint(lo, hi) + 1, hi);
    }
  }

  lemma {:induction false} OneMoreEntry<S, A>(p: Policy<S, A>, xs: seq<S>, log: seq<Entry<A>>, e: Entry<A>)
    ensures Oracle(p, xs, log + [e]) == ApplyRange(p, e.action, Oracle(p, xs, log), 0, e.left, e.right)
  {
    assert (log + [e])[..|log|] == log;
  }
}
