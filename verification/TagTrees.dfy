/**
 The tree a root of any of the tagged structures stands for, as a value, with the update of
 `PathCopyingActionTree` (include/valseg/policy_trees.hpp:275-317) in both its variants.
 */
module TagTrees {
  import opened Canonical
  import opened Policies

  datatype Tree<S, A> =
    | Leaf(agg: S, tag: A)
    | Node(agg: S, tag: A, left: Tree<S, A>, right: Tree<S, A>)

  // ---------------------------------------------------------------- element sequences

  /** The action applied to every element. */
  ghost function MapApply<S, A>(p: Policy<S, A>, f: A, xs: seq<S>): (ys: seq<S>) {
    seq(|xs|, i requires 0 <= i < |xs| => p.apply(f, xs[i], 1))
  }

  /** The action applied to the elements whose index, counted from `base`, lies in [l, r]. */
  ghost function ApplyRange<S, A>(p: Policy<S, A>, f: A, xs: seq<S>, base: nat, l: nat, r: nat): (ys: seq<S>) {
    seq(|xs|, i requires 0 <= i < |xs| => if l <= base + i <= r then p.apply(f, xs[i], 1) else xs[i])
  }

  /** The ordered combination of a sequence of elements. */
  ghost function Fold<S, A>(p: Policy<S, A>, xs: seq<S>): S {
    if xs == [] then p.empty else p.combine(xs[0], Fold(p, xs[1..]))
  }

  /** The ordered combination of the elements whose index, counted from `base`, lies in [l, r]. */
  ghost function FoldRange<S, A>(p: Policy<S, A>, xs: seq<S>, base: nat, l: nat, r: nat): S {
    if xs == [] then p.empty
    else if l <= base <= r then p.combine(xs[0], FoldRange(p, xs[1..], base + 1, l, r))
    else FoldRange(p, xs[1..], base + 1, l, r)
  }

  ghost predicate AllValid<S, A>(p: Policy<S, A>, xs: seq<S>) {
    forall i :: 0 <= i < |xs| ==> p.validAggregate(xs[i], 1)
  }

  lemma MapApplyValid<S(!new), A(!new)>(p: Policy<S, A>, f: A, xs: seq<S>)
    requires Lawful(p) && p.validAction(f) && AllValid(p, xs)
    ensures AllValid(p, MapApply(p, f, xs))
  {
    forall i | 0 <= i < |xs| ensures p.validAggregate(p.apply(f, xs[i], 1), 1) {
      assert ApplyClosedAt(p, f, xs[i], 1);
    }
  }

  lemma ApplyRangeValid<S(!new), A(!new)>(p: Policy<S, A>, f: A, xs: seq<S>, base: nat, l: nat, r: nat)
    requires Lawful(p) && p.validAction(f) && AllValid(p, xs)
    ensures AllValid(p, ApplyRange(p, f, xs, base, l, r))
  {
    MapApplyValid(p, f, xs);
    forall i | 0 <= i < |xs| ensures p.validAggregate(ApplyRange(p, f, xs, base, l, r)[i], 1) {
      assert MapApply(p, f, xs)[i] == p.apply(f, xs[i], 1);
    }
  }

  lemma MapIdentity<S(!new), A(!new)>(p: Policy<S, A>, xs: seq<S>)
    requires Lawful(p) && AllValid(p, xs)
    ensures MapApply(p, p.identity, xs) == xs
  {
    forall i | 0 <= i < |xs| ensures p.apply(p.identity, xs[i], 1) == xs[i] {
      assert NeutralAt(p, xs[i], 1);
    }
  }

  lemma MapCompose<S(!new), A(!new)>(p: Policy<S, A>, g: A, f: A, xs: seq<S>)
    requires Lawful(p) && p.validAction(g) && p.validAction(f) && AllValid(p, xs)
    ensures MapApply(p, p.compose(g, f), xs) == MapApply(p, g, MapApply(p, f, xs))
  {
    forall i | 0 <= i < |xs| ensures p.apply(p.compose(g, f), xs[i], 1) == p.apply(g, p.apply(f, xs[i], 1), 1) {
      assert ComposeAt(p, g, f, xs[i], 1);
    }
  }

  lemma {:induction false} FoldValid<S(!new), A(!new)>(p: Policy<S, A>, xs: seq<S>)
    requires Lawful(p) && AllValid(p, xs)
    ensures p.validAggregate(Fold(p, xs), |xs|)
  {
    if xs != [] {
      FoldValid(p, xs[1..]);
      assert CombineClosedAt(p, xs[0], 1, Fold(p, xs[1..]), |xs| - 1);
    }
  }

  lemma {:induction false} FoldConcat<S(!new), A(!new)>(p: Policy<S, A>, xs: seq<S>, ys: seq<S>)
    requires Lawful(p) && AllValid(p, xs) && AllValid(p, ys)
    ensures Fold(p, xs + ys) == p.combine(Fold(p, xs), Fold(p, ys))
  {
    FoldValid(p, ys);
    if xs == [] {
      assert xs + ys == ys;
      assert NeutralAt(p, Fold(p, ys), |ys|);
    } else {
      assert (xs + ys)[1..] == xs[1..] + ys;
      FoldConcat(p, xs[1..], ys);
      FoldValid(p, xs[1..]);
      assert AssociativeAt(p, xs[0], 1, Fold(p, xs[1..]), |xs| - 1, Fold(p, ys), |ys|);
    }
  }

  /** Lemma 9.0 of docs/proof.md: an action on a segment is the action on each of its elements. */
  lemma {:induction false} FoldMap<S(!new), A(!new)>(p: Policy<S, A>, f: A, xs: seq<S>)
    requires Lawful(p) && p.validAction(f) && AllValid(p, xs)
    ensures Fold(p, MapApply(p, f, xs)) == p.apply(f, Fold(p, xs), |xs|)
  {
    if xs == [] {
      assert ApplyClosedAt(p, f, p.empty, 0);
      assert NeutralAt(p, p.apply(f, p.empty, 0), 0);
    } else {
      var tail := xs[1..];
      assert MapApply(p, f, xs)[1..] == MapApply(p, f, tail);
      FoldMap(p, f, tail);
      FoldValid(p, tail);
      assert DistributesAt(p, f, xs[0], 1, Fold(p, tail), |tail|);
    }
  }

  lemma {:induction false} FoldRangeConcat<S(!new), A(!new)>(
      p: Policy<S, A>, xs: seq<S>, ys: seq<S>, base: nat, l: nat, r: nat)
    requires Lawful(p) && AllValid(p, xs) && AllValid(p, ys)
    ensures exists n: nat :: p.validAggregate(FoldRange(p, xs, base, l, r), n)
    ensures FoldRange(p, xs + ys, base, l, r)
         == p.combine(FoldRange(p, xs, base, l, r), FoldRange(p, ys, base + |xs|, l, r))
  {
    var n := FoldRangeValid(p, ys, base + |xs|, l, r);
    var m := FoldRangeValid(p, xs, base, l, r);
    if xs == [] {
      assert xs + ys == ys;
      assert NeutralAt(p, FoldRange(p, ys, base, l, r), n);
    } else {
      var tail := xs[1..];
      assert (xs + ys)[1..] == tail + ys;
      FoldRangeConcat(p, tail, ys, base + 1, l, r);
      var k := FoldRangeValid(p, tail, base + 1, l, r);
      assert AssociativeAt(p, xs[0], 1, FoldRange(p, tail, base + 1, l, r), k, FoldRange(p, ys, base + |xs|, l, r), n);
    }
  }

  lemma {:induction false} FoldRangeValid<S(!new), A(!new)>(
      p: Policy<S, A>, xs: seq<S>, base: nat, l: nat, r: nat) returns (n: nat)
    requires Lawful(p) && AllValid(p, xs)
    ensures p.validAggregate(FoldRange(p, xs, base, l, r), n)
  {
    n := 0;
    if xs != [] {
      n := FoldRangeValid(p, xs[1..], base + 1, l, r);
      if l <= base <= r {
        assert CombineClosedAt(p, xs[0], 1, FoldRange(p, xs[1..], base + 1, l, r), n);
        n := n + 1;
      }
    }
  }

  /** Folding over [l, r] from index zero folds exactly the elements l, ..., r in index order. */
  lemma {:induction false} FoldRangeIsSlice<S, A>(p: Policy<S, A>, xs: seq<S>, base: nat, l: nat, r: nat)
    requires l <= r + 1 && base <= l && r < base + |xs|
    ensures FoldRange(p, xs, base, l, r) == Fold(p, xs[l - base..r + 1 - base])
  {
    if base < l {
      FoldRangeIsSlice(p, xs[1..], base + 1, l, r);
      assert xs[1..][l - base - 1..r - base] == xs[l - base..r + 1 - base];
    } else if r < l {
      FoldRangeOutside(p, xs, base, l, r);
    } else {
      FoldRangeIsSliceTail(p, xs, base, l, r);
    }
  }

  lemma {:induction false} FoldRangeIsSliceTail<S, A>(p: Policy<S, A>, xs: seq<S>, base: nat, l: nat, r: nat)
    requires l <= base <= r + 1 <= base + |xs|
    ensures FoldRange(p, xs, base, l, r) == Fold(p, xs[..r + 1 - base])
  {
    if base <= r {
      FoldRangeIsSliceTail(p, xs[1..], base + 1, l, r);
      assert xs[..r + 1 - base][1..] == xs[1..][..r - base];
    } else {
      FoldRangeOutside(p, xs, base, l, r);
    }
  }

  lemma {:induction false} FoldRangeOutside<S, A>(p: Policy<S, A>, xs: seq<S>, base: nat, l: nat, r: nat)
    requires r < base || base + |xs| <= l || r < l
    ensures FoldRange(p, xs, base, l, r) == p.empty
  {
    if xs != [] {
      FoldRangeOutside(p, xs[1..], base + 1, l, r);
    }
  }

  // ---------------------------------------------------------------- trees

  /**
   The node invariant (include/valseg/policy_trees.hpp:81-86): the tree has the canonical shape over [lo, hi]; a
   node's own tag is inside its aggregate and outside its children's.
   */
  ghost predicate Consistent<S, A>(p: Policy<S, A>, t: Tree<S, A>, lo: nat, hi: nat)
    decreases t
  {
    && lo <= hi
    && (t.Leaf? <==> lo == hi)
    && p.validAction(t.tag)
    && match t
       case Leaf(agg, _) => p.validAggregate(agg, 1)
       case Node(agg, tag, left, right) =>
         && Consistent(p, left, lo, Midpoint(lo, hi))
         && Consistent(p, right, Midpoint(lo, hi) + 1, hi)
         && agg == p.apply(tag, p.combine(left.agg, right.agg), Length(lo, hi))
  }

  /** The canonical shape alone. */
  ghost predicate Shaped<S, A>(t: Tree<S, A>, lo: nat, hi: nat)
    decreases t
  {
    && lo <= hi
    && (t.Leaf? <==> lo == hi)
    && (t.Node? ==>
          && Shaped(t.left, lo, Midpoint(lo, hi))
          && Shaped(t.right, Midpoint(lo, hi) + 1, hi))
  }

  lemma {:induction false} ConsistentIsShaped<S, A>(p: Policy<S, A>, t: Tree<S, A>, lo: nat, hi: nat)
    requires Consistent(p, t, lo, hi)
    ensures Shaped(t, lo, hi)
    decreases t
  {
    if t.Node? {
      ConsistentIsShaped(p, t.left, lo, Midpoint(lo, hi));
      ConsistentIsShaped(p, t.right, Midpoint(lo, hi) + 1, hi);
    }
  }

  /**
   The elements a tree represents: deeper tags inside, ancestor tags outside (the tree order of docs/proof.md 9.2).
   */
  ghost function Elements<S, A>(p: Policy<S, A>, t: Tree<S, A>): seq<S>
    decreases t
  {
    match t
    case Leaf(agg, _) => [agg]
    case Node(_, tag, left, right) => MapApply(p, tag, Elements(p, left) + Elements(p, right))
  }

  /** Lemma 9.2(a): every aggregate is the ordered combination of the elements the node represents. */
  lemma {:induction false} AggregateIsFold<S(!new), A(!new)>(p: Policy<S, A>, t: Tree<S, A>, lo: nat, hi: nat)
    requires Lawful(p) && Consistent(p, t, lo, hi)
    ensures |Elements(p, t)| == hi - lo + 1 && AllValid(p, Elements(p, t))
    ensures t.agg == Fold(p, Elements(p, t))
    decreases t
  {
    hide Lawful, Fold, MapApply;
    if t.Leaf? {
      LeafIsFold(p, t.agg);
    } else {
      AggregateIsFold(p, t.left, lo, Midpoint(lo, hi));
      AggregateIsFold(p, t.right, Midpoint(lo, hi) + 1, hi);
      var xs, ys := Elements(p, t.left), Elements(p, t.right);
      FoldConcat(p, xs, ys);
      FoldMap(p, t.tag, xs + ys);
      MapApplyValid(p, t.tag, xs + ys);
      MapLength(p, t.tag, xs + ys);
    }
  }

  lemma {:induction false} LeafIsFold<S(!new), A(!new)>(p: Policy<S, A>, x: S)
    requires Lawful(p) && p.validAggregate(x, 1)
    ensures Fold(p, [x]) == x
  {
    assert [x][1..] == [];
    assert NeutralAt(p, x, 1);
  }

  lemma {:induction false} ValidConcat<S, A>(p: Policy<S, A>, xs: seq<S>, ys: seq<S>)
    requires AllValid(p, xs) && AllValid(p, ys)
    ensures AllValid(p, xs + ys)
  {
  }

  lemma {:induction false} MapLength<S, A>(p: Policy<S, A>, f: A, xs: seq<S>)
    ensures |MapApply(p, f, xs)| == |xs|
  {
  }

  // ---------------------------------------------------------------- update

  /** `pushInto`: the child with a pending tag of its parent applied and composed outside its own. */
  function Stamp<S, A>(p: Policy<S, A>, tag: A, child: Tree<S, A>, length: nat): Tree<S, A> {
    match child
    case Leaf(agg, inner) => Leaf(p.apply(tag, agg, length), p.compose(tag, inner))
    case Node(agg, inner, left, right) => Node(p.apply(tag, agg, length), p.compose(tag, inner), left, right)
  }

  /** Does a partial descent past `t` push its tag? */
  predicate Pushes<S, A(==)>(p: Policy<S, A>, push: bool, t: Tree<S, A>) {
    push && t.tag != p.identity
  }

  /** The node a partial descent continues from: its tag pushed into both children, or retained. */
  function Opened<S, A(==)>(p: Policy<S, A>, push: bool, t: Tree<S, A>, lo: nat, hi: nat): (u: Tree<S, A>)
    ensures u.Leaf? <==> t.Leaf?
  {
    if Pushes(p, push, t) && t.Node? then
      var mid := Midpoint(lo, hi);
      Node(t.agg, p.identity,
           Stamp(p, t.tag, t.left, Length(lo, mid)), Stamp(p, t.tag, t.right, Length(mid + 1, hi)))
    else
      t
  }

  /** The tree `update` returns for the action f on [l, r]. */
  function Update<S, A(==)>(
      p: Policy<S, A>, push: bool, t: Tree<S, A>, lo: nat, hi: nat, l: nat, r: nat, f: A): Tree<S, A>
    decreases Length(lo, hi), 1
  {
    if t.Leaf? || hi <= lo || Covered(lo, hi, l, r) then
      Stamp(p, f, t, Length(lo, hi))
    else
      Rebuilt(p, push, Opened(p, push, t, lo, hi), lo, hi, l, r, f)
  }

  /** The rest of a partial descent: update the children that meet the range, recompute the aggregate. */
  function Rebuilt<S, A(==)>(
      p: Policy<S, A>, push: bool, open: Tree<S, A>, lo: nat, hi: nat, l: nat, r: nat, f: A): (u: Tree<S, A>)
    requires open.Node? && lo < hi
    ensures u.Node?
    decreases Length(lo, hi), 0
  {
    var mid := Midpoint(lo, hi);
    var left := if l <= mid then Update(p, push, open.left, lo, mid, l, r, f) else open.left;
    var right := if mid < r then Update(p, push, open.right, mid + 1, hi, l, r, f) else open.right;
    Node(p.apply(open.tag, p.combine(left.agg, right.agg), Length(lo, hi)), open.tag, left, right)
  }

  /** The update, or the tree itself when [lo, hi] lies outside the range. */
  function UpdateIfMet<S, A(==)>(
      p: Policy<S, A>, push: bool, t: Tree<S, A>, lo: nat, hi: nat, l: nat, r: nat, f: A): Tree<S, A>
  {
    if Meets(lo, hi, l, r) then Update(p, push, t, lo, hi, l, r, f) else t
  }

  lemma {:induction false} UpdateShaped<S, A>(
      p: Policy<S, A>, push: bool, t: Tree<S, A>, lo: nat, hi: nat, l: nat, r: nat, f: A)
    requires Shaped(t, lo, hi)
    ensures Shaped(Update(p, push, t, lo, hi, l, r, f), lo, hi)
    decreases hi - lo
  {
    if t.Leaf? || Covered(lo, hi, l, r) {
      StampShaped(p, f, t, lo, hi);
    } else {
      var open, mid := Opened(p, push, t, lo, hi), Midpoint(lo, hi);
      OpenedShaped(p, push, t, lo, hi);
      UpdateShaped(p, push, open.left, lo, mid, l, r, f);
      UpdateShaped(p, push, open.right, mid + 1, hi, l, r, f);
    }
  }

  lemma {:induction false} StampShaped<S, A>(p: Policy<S, A>, tag: A, t: Tree<S, A>, lo: nat, hi: nat)
    requires Shaped(t, lo, hi)
    ensures Shaped(Stamp(p, tag, t, Length(lo, hi)), lo, hi)
  {
  }

  lemma {:induction false} OpenedShaped<S, A>(p: Policy<S, A>, push: bool, t: Tree<S, A>, lo: nat, hi: nat)
    requires Shaped(t, lo, hi)
    ensures Shaped(Opened(p, push, t, lo, hi), lo, hi)
  {
    if Pushes(p, push, t) && t.Node? {
      StampShaped(p, t.tag, t.left, lo, Midpoint(lo, hi));
      StampShaped(p, t.tag, t.right, Midpoint(lo, hi) + 1, hi);
    }
  }

  lemma {:induction false} StampConsistent<S(!new), A(!new)>(
      p: Policy<S, A>, tag: A, t: Tree<S, A>, lo: nat, hi: nat)
    requires Lawful(p) && Consistent(p, t, lo, hi) && p.validAction(tag)
    ensures Consistent(p, Stamp(p, tag, t, Length(lo, hi)), lo, hi)
  {
    assert MonoidAt(p, tag, tag, t.tag);
    match t {
      case Leaf(agg, _) =>
        assert ApplyClosedAt(p, tag, agg, 1);
      case Node(_, inner, left, right) =>
        var mid := Midpoint(lo, hi);
        AggregateValid(p, left, lo, mid);
        AggregateValid(p, right, mid + 1, hi);
        assert CombineClosedAt(p, left.agg, mid - lo + 1, right.agg, hi - mid);
        assert ComposeAt(p, tag, inner, p.combine(left.agg, right.agg), Length(lo, hi));
    }
  }

  lemma AggregateValid<S(!new), A(!new)>(p: Policy<S, A>, t: Tree<S, A>, lo: nat, hi: nat)
    requires Lawful(p) && Consistent(p, t, lo, hi)
    ensures p.validAggregate(t.agg, hi - lo + 1)
  {
    AggregateIsFold(p, t, lo, hi);
    FoldValid(p, Elements(p, t));
  }

  lemma {:induction false} StampElements<S(!new), A(!new)>(p: Policy<S, A>, tag: A, t: Tree<S, A>, lo: nat, hi: nat)
    requires Lawful(p) && Consistent(p, t, lo, hi) && p.validAction(tag)
    ensures Elements(p, Stamp(p, tag, t, Length(lo, hi))) == MapApply(p, tag, Elements(p, t))
  {
    if t.Node? {
      AggregateIsFold(p, t.left, lo, Midpoint(lo, hi));
      AggregateIsFold(p, t.right, Midpoint(lo, hi) + 1, hi);
      MapCompose(p, tag, t.tag, Elements(p, t.left) + Elements(p, t.right));
    }
  }

  lemma {:induction false} ApplyRangeCovered<S, A>(p: Policy<S, A>, f: A, xs: seq<S>, base: nat, l: nat, r: nat)
    requires |xs| > 0 && Covered(base, base + |xs| - 1, l, r)
    ensures ApplyRange(p, f, xs, base, l, r) == MapApply(p, f, xs)
  {
  }

  lemma {:induction false} ApplyRangeOutside<S, A>(p: Policy<S, A>, f: A, xs: seq<S>, base: nat, l: nat, r: nat)
    requires base + |xs| <= l || r < base
    ensures ApplyRange(p, f, xs, base, l, r) == xs
  {
  }

  lemma {:induction false} ApplyRangeConcat<S, A>(
      p: Policy<S, A>, f: A, xs: seq<S>, ys: seq<S>, base: nat, l: nat, r: nat)
    ensures ApplyRange(p, f, xs + ys, base, l, r)
         == ApplyRange(p, f, xs, base, l, r) + ApplyRange(p, f, ys, base + |xs|, l, r)
  {
  }

  /** An older whole-segment action commutes with a newer one on [l, r], when the induced actions commute. */
  lemma MapCommutes<S(!new), A(!new)>(p: Policy<S, A>, tag: A, f: A, xs: seq<S>, base: nat, l: nat, r: nat)
    requires InducedActionsCommute(p) && p.validAction(f) && p.validAction(tag) && AllValid(p, xs)
    ensures MapApply(p, tag, ApplyRange(p, f, xs, base, l, r)) == ApplyRange(p, f, MapApply(p, tag, xs), base, l, r)
  {
    forall i | 0 <= i < |xs|
      ensures p.apply(tag, p.apply(f, xs[i], 1), 1) == p.apply(f, p.apply(tag, xs[i], 1), 1)
    {
      assert CommuteAt(p, tag, f, xs[i]);
    }
  }

  lemma {:induction false} MapConcat<S, A>(p: Policy<S, A>, f: A, xs: seq<S>, ys: seq<S>)
    ensures MapApply(p, f, xs + ys) == MapApply(p, f, xs) + MapApply(p, f, ys)
  {
  }

  /** Opening a node changes what it stores, not what it represents. */
  lemma {:induction false} OpenedElements<S(!new), A(!new)>(
      p: Policy<S, A>, push: bool, t: Tree<S, A>, lo: nat, hi: nat)
    requires Lawful(p) && Consistent(p, t, lo, hi) && t.Node?
    ensures Consistent(p, Opened(p, push, t, lo, hi), lo, hi)
    ensures Elements(p, Opened(p, push, t, lo, hi)) == Elements(p, t)
    ensures push ==> Opened(p, push, t, lo, hi).tag == p.identity
  {
    hide Lawful, MapApply, AllValid, Fold;
    IdentityValid(p);
    if Pushes(p, push, t) {
      var mid := Midpoint(lo, hi);
      var open := Opened(p, push, t, lo, hi);
      StampConsistent(p, t.tag, t.left, lo, mid);
      StampConsistent(p, t.tag, t.right, mid + 1, hi);
      StampElements(p, t.tag, t.left, lo, mid);
      StampElements(p, t.tag, t.right, mid + 1, hi);
      AggregateIsFold(p, open.left, lo, mid);
      AggregateIsFold(p, open.right, mid + 1, hi);
      ValidConcat(p, Elements(p, open.left), Elements(p, open.right));
      MapIdentity(p, Elements(p, open.left) + Elements(p, open.right));
      MapConcat(p, t.tag, Elements(p, t.left), Elements(p, t.right));
      OpenedAggregate(p, t, lo, hi);
    }
  }

  /** A pushed node still aggregates its children: the action distributes over the combination. */
  lemma OpenedAggregate<S(!new), A(!new)>(p: Policy<S, A>, t: Tree<S, A>, lo: nat, hi: nat)
    requires Lawful(p) && Consistent(p, t, lo, hi) && t.Node?
    ensures var mid := Midpoint(lo, hi);
            t.agg == p.apply(p.identity, p.combine(Stamp(p, t.tag, t.left, Length(lo, mid)).agg,
                                                   Stamp(p, t.tag, t.right, Length(mid + 1, hi)).agg), Length(lo, hi))
  {
    var mid := Midpoint(lo, hi);
    AggregateValid(p, t, lo, hi);
    AggregateValid(p, t.left, lo, mid);
    AggregateValid(p, t.right, mid + 1, hi);
    assert DistributesAt(p, t.tag, t.left.agg, mid - lo + 1, t.right.agg, hi - mid);
    assert NeutralAt(p, t.agg, hi - lo + 1);
  }

  /** What an update leaves when each half was acted on: the kept tag moves outside the new action. */
  lemma KeptTag<S(!new), A(!new)>(p: Policy<S, A>, push: bool, tag: A, f: A, xs: seq<S>, base: nat, l: nat, r: nat)
    requires Lawful(p) && AllValid(p, xs) && p.validAction(f) && p.validAction(tag)
    requires (push && tag == p.identity) || InducedActionsCommute(p)
    ensures MapApply(p, tag, ApplyRange(p, f, xs, base, l, r)) == ApplyRange(p, f, MapApply(p, tag, xs), base, l, r)
  {
    if push && tag == p.identity {
      ApplyRangeValid(p, f, xs, base, l, r);
      MapIdentity(p, xs);
      MapIdentity(p, ApplyRange(p, f, xs, base, l, r));
    } else {
      MapCommutes(p, tag, f, xs, base, l, r);
    }
  }

  /**
   One update is the element-wise action on [l, r]: always when the descent pushes, and for a retained tag when the
   induced actions commute.
   */
  lemma {:induction false} UpdateElements<S(!new), A(!new)>(
      p: Policy<S, A>, push: bool, t: Tree<S, A>, lo: nat, hi: nat, l: nat, r: nat, f: A)
    requires Lawful(p) && Consistent(p, t, lo, hi) && Meets(lo, hi, l, r) && p.validAction(f)
    requires push || InducedActionsCommute(p)
    ensures Consistent(p, Update(p, push, t, lo, hi, l, r, f), lo, hi)
    ensures Elements(p, Update(p, push, t, lo, hi, l, r, f)) == ApplyRange(p, f, Elements(p, t), lo, l, r)
    decreases hi - lo, 1
  {
    AggregateIsFold(p, t, lo, hi);
    if Covered(lo, hi, l, r) {
      StampConsistent(p, f, t, lo, hi);
      StampElements(p, f, t, lo, hi);
      ApplyRangeCovered(p, f, Elements(p, t), lo, l, r);
    } else {
      OpenedElements(p, push, t, lo, hi);
      RebuiltElements(p, push, Opened(p, push, t, lo, hi), lo, hi, l, r, f);
    }
  }

  lemma {:induction false} RebuiltElements<S(!new), A(!new)>(
      p: Policy<S, A>, push: bool, t: Tree<S, A>, lo: nat, hi: nat, l: nat, r: nat, f: A)
    requires Lawful(p) && Consistent(p, t, lo, hi) && t.Node? && Meets(lo, hi, l, r) && p.validAction(f)
    requires (push && t.tag == p.identity) || InducedActionsCommute(p)
    ensures Consistent(p, Rebuilt(p, push, t, lo, hi, l, r, f), lo, hi)
    ensures Elements(p, Rebuilt(p, push, t, lo, hi, l, r, f)) == ApplyRange(p, f, Elements(p, t), lo, l, r)
    decreases hi - lo, 0
  {
    var mid := Midpoint(lo, hi);
    var u := Rebuilt(p, push, t, lo, hi, l, r, f);
    assert u.left == UpdateIfMet(p, push, t.left, lo, mid, l, r, f);
    assert u.right == UpdateIfMet(p, push, t.right, mid + 1, hi, l, r, f);
    UpdateHalf(p, push, t.left, lo, mid, l, r, f);
    UpdateHalf(p, push, t.right, mid + 1, hi, l, r, f);
    ReassembledElements(p, push, t, lo, hi, l, r, f, u);
  }

  /** A node whose children were acted on, and whose own tag and aggregate were recomputed, was acted on. */
  lemma {:induction false} ReassembledElements<S(!new), A(!new)>(
      p: Policy<S, A>, push: bool, t: Tree<S, A>, lo: nat, hi: nat, l: nat, r: nat, f: A, u: Tree<S, A>)
    requires Lawful(p) && Consistent(p, t, lo, hi) && t.Node? && u.Node? && p.validAction(f)
    requires (push && t.tag == p.identity) || InducedActionsCommute(p)
    requires Elements(p, u.left) == ApplyRange(p, f, Elements(p, t.left), lo, l, r)
    requires Elements(p, u.right) == ApplyRange(p, f, Elements(p, t.right), Midpoint(lo, hi) + 1, l, r)
    requires u.tag == t.tag
    ensures Elements(p, u) == ApplyRange(p, f, Elements(p, t), lo, l, r)
  {
    var xs, ys := Elements(p, t.left), Elements(p, t.right);
    AggregateIsFold(p, t.left, lo, Midpoint(lo, hi));
    AggregateIsFold(p, t.right, Midpoint(lo, hi) + 1, hi);
    ApplyRangeConcat(p, f, xs, ys, lo, l, r);
    KeptTag(p, push, t.tag, f, xs + ys, lo, l, r);
  }

  /** One half of `UpdateElements`: entered when it meets the range, shared when it does not. */
  lemma {:induction false} UpdateHalf<S(!new), A(!new)>(
      p: Policy<S, A>, push: bool, t: Tree<S, A>, lo: nat, hi: nat, l: nat, r: nat, f: A)
    requires Lawful(p) && Consistent(p, t, lo, hi) && p.validAction(f)
    requires push || InducedActionsCommute(p)
    ensures Consistent(p, UpdateIfMet(p, push, t, lo, hi, l, r, f), lo, hi)
    ensures Elements(p, UpdateIfMet(p, push, t, lo, hi, l, r, f)) == ApplyRange(p, f, Elements(p, t), lo, l, r)
    decreases hi - lo, 2
  {
    if Meets(lo, hi, l, r) {
      UpdateElements(p, push, t, lo, hi, l, r, f);
    } else {
      AggregateIsFold(p, t, lo, hi);
      ApplyRangeOutside(p, f, Elements(p, t), lo, l, r);
    }
  }
}
