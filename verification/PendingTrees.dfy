/**
 The trees of PushedLazyTree (include/valseg/policy_trees.hpp:573-720), as values.  Here a node's tag is pending on the
 node itself too: its aggregate does not count it, and it is pushed down before anything is read or written below.
 */
module PendingTrees {
  import opened Canonical
  import opened Policies
  import opened TagTrees
  import opened Histories

  /** The aggregate once the node's own tag is applied. */
  function Effective<S, A>(p: Policy<S, A>, t: Tree<S, A>, lo: nat, hi: nat): S {
    p.apply(t.tag, t.agg, Length(lo, hi))
  }

  /** Every aggregate combines what its children amount to. */
  ghost predicate Pending<S, A>(p: Policy<S, A>, t: Tree<S, A>, lo: nat, hi: nat)
    decreases t
  {
    && lo <= hi
    && (t.Leaf? <==> lo == hi)
    && p.validAction(t.tag)
    && match t
       case Leaf(agg, _) => p.validAggregate(agg, 1)
       case Node(agg, _, left, right) =>
         && Pending(p, left, lo, Midpoint(lo, hi))
         && Pending(p, right, Midpoint(lo, hi) + 1, hi)
         && agg == p.combine(Effective(p, left, lo, Midpoint(lo, hi)), Effective(p, right, Midpoint(lo, hi) + 1, hi))
  }

  /** The elements: every tag on the path applied, deeper ones first. */
  ghost function PendingElements<S, A>(p: Policy<S, A>, t: Tree<S, A>): seq<S>
    decreases t
  {
    match t
    case Leaf(agg, tag) => [p.apply(tag, agg, 1)]
    case Node(_, tag, left, right) => MapApply(p, tag, PendingElements(p, left) + PendingElements(p, right))
  }

  /** What a node amounts to is the ordered combination of its elements. */
  lemma {:induction false} EffectiveIsFold<S(!new), A(!new)>(p: Policy<S, A>, t: Tree<S, A>, lo: nat, hi: nat)
    requires Lawful(p) && Pending(p, t, lo, hi)
    ensures |PendingElements(p, t)| == hi - lo + 1 && AllValid(p, PendingElements(p, t))
    ensures Effective(p, t, lo, hi) == Fold(p, PendingElements(p, t))
    decreases t
  {
    hide Lawful, Fold, MapApply, AllValid;
    if t.Leaf? {
      EffectiveLeaf(p, t, lo, hi);
    } else {
      EffectiveIsFold(p, t.left, lo, Midpoint(lo, hi));
      EffectiveIsFold(p, t.right, Midpoint(lo, hi) + 1, hi);
      var xs, ys := PendingElements(p, t.left), PendingElements(p, t.right);
      ValidConcat(p, xs, ys);
      FoldConcat(p, xs, ys);
      MapLength(p, t.tag, xs + ys);
      FoldMap(p, t.tag, xs + ys);
      MapApplyValid(p, t.tag, xs + ys);
    }
  }

  lemma {:induction false} EffectiveLeaf<S(!new), A(!new)>(p: Policy<S, A>, t: Tree<S, A>, lo: nat, hi: nat)
    requires Lawful(p) && Pending(p, t, lo, hi) && t.Leaf?
    ensures PendingElements(p, t) == [Effective(p, t, lo, hi)] && AllValid(p, PendingElements(p, t))
    ensures Effective(p, t, lo, hi) == Fold(p, PendingElements(p, t))
  {
    assert ApplyClosedAt(p, t.tag, t.agg, 1);
    LeafIsFold(p, p.apply(t.tag, t.agg, 1));
  }

  lemma {:induction false} EffectiveValid<S(!new), A(!new)>(p: Policy<S, A>, t: Tree<S, A>, lo: nat, hi: nat)
    requires Lawful(p) && Pending(p, t, lo, hi)
    ensures p.validAggregate(Effective(p, t, lo, hi), Length(lo, hi))
    ensures p.validAggregate(t.agg, Length(lo, hi))
    decreases t
  {
    if t.Node? {
      var mid := Midpoint(lo, hi);
      EffectiveValid(p, t.left, lo, mid);
      EffectiveValid(p, t.right, mid + 1, hi);
      assert CombineClosedAt(p, Effective(p, t.left, lo, mid), Length(lo, mid),
                             Effective(p, t.right, mid + 1, hi), Length(mid + 1, hi));
    }
    assert ApplyClosedAt(p, t.tag, t.agg, Length(lo, hi));
  }

  // ---------------------------------------------------------------- one more tag

  /** The node with an action composed outside its tag. */
  function Retagged<S, A>(p: Policy<S, A>, f: A, t: Tree<S, A>): Tree<S, A> {
    t.(tag := p.compose(f, t.tag))
  }

  lemma {:induction false} RetaggedElements<S(!new), A(!new)>(p: Policy<S, A>, f: A, t: Tree<S, A>, lo: nat, hi: nat)
    requires Lawful(p) && Pending(p, t, lo, hi) && p.validAction(f)
    ensures Pending(p, Retagged(p, f, t), lo, hi)
    ensures PendingElements(p, Retagged(p, f, t)) == MapApply(p, f, PendingElements(p, t))
    ensures Effective(p, Retagged(p, f, t), lo, hi) == p.apply(f, Effective(p, t, lo, hi), Length(lo, hi))
  {
    ComposedValid(p, f, t.tag);
    EffectiveValid(p, t, lo, hi);
    assert ComposeAt(p, f, t.tag, t.agg, Length(lo, hi));
    if t.Node? {
      hide Lawful;
      EffectiveIsFold(p, t.left, lo, Midpoint(lo, hi));
      EffectiveIsFold(p, t.right, Midpoint(lo, hi) + 1, hi);
      MapCompose(p, f, t.tag, PendingElements(p, t.left) + PendingElements(p, t.right));
    }
  }

  // ---------------------------------------------------------------- push

  /** `push`: the tag applied to the node and handed to its children, newest outside. */
  function Pushed<S, A(==)>(p: Policy<S, A>, t: Tree<S, A>, lo: nat, hi: nat): (u: Tree<S, A>)
    ensures u.tag == p.identity && (u.Leaf? <==> t.Leaf?)
  {
    if t.tag == p.identity then t
    else
      match t
      case Leaf(_, _) => Leaf(Effective(p, t, lo, hi), p.identity)
      case Node(_, tag, left, right) =>
        Node(Effective(p, t, lo, hi), p.identity, Retagged(p, tag, left), Retagged(p, tag, right))
  }

  /** Pushing changes neither the elements nor what the node amounts to. */
  lemma {:induction false} PushedElements<S(!new), A(!new)>(p: Policy<S, A>, t: Tree<S, A>, lo: nat, hi: nat)
    requires Lawful(p) && Pending(p, t, lo, hi)
    ensures var u := Pushed(p, t, lo, hi);
            && Pending(p, u, lo, hi) && PendingElements(p, u) == PendingElements(p, t)
            && u.agg == Effective(p, u, lo, hi) == Effective(p, t, lo, hi)
  {
    IdentityValid(p);
    EffectiveValid(p, t, lo, hi);
    IdentityNeutral(p, t.agg, Length(lo, hi));
    IdentityNeutral(p, Effective(p, t, lo, hi), Length(lo, hi));
    if t.tag != p.identity && t.Node? {
      PushedNode(p, t, lo, hi);
    }
    hide Lawful;
  }

  lemma IdentityNeutral<S(!new), A(!new)>(p: Policy<S, A>, x: S, n: nat)
    requires Lawful(p) && p.validAggregate(x, n)
    ensures p.apply(p.identity, x, n) == x
  {
    assert NeutralAt(p, x, n);
  }

  lemma {:induction false} PushedNode<S(!new), A(!new)>(p: Policy<S, A>, t: Tree<S, A>, lo: nat, hi: nat)
    requires Lawful(p) && Pending(p, t, lo, hi) && t.Node? && t.tag != p.identity
    ensures Pending(p, Pushed(p, t, lo, hi), lo, hi)
    ensures PendingElements(p, Pushed(p, t, lo, hi)) == PendingElements(p, t)
  {
    hide Lawful, MapApply, Effective, Retagged;
    var mid := Midpoint(lo, hi);
    IdentityValid(p);
    RetaggedElements(p, t.tag, t.left, lo, mid);
    RetaggedElements(p, t.tag, t.right, mid + 1, hi);
    EffectiveNode(p, t, lo, hi);
    EffectiveIsFold(p, t.left, lo, mid);
    EffectiveIsFold(p, t.right, mid + 1, hi);
    MapTwice(p, t.tag, PendingElements(p, t.left), PendingElements(p, t.right));
  }

  /** A node amounts to its children with its tag applied to each. */
  lemma {:induction false} EffectiveNode<S(!new), A(!new)>(p: Policy<S, A>, t: Tree<S, A>, lo: nat, hi: nat)
    requires Lawful(p) && Pending(p, t, lo, hi) && t.Node?
    ensures var mid := Midpoint(lo, hi);
            Effective(p, t, lo, hi)
            == p.combine(p.apply(t.tag, Effective(p, t.left, lo, mid), Length(lo, mid)),
                         p.apply(t.tag, Effective(p, t.right, mid + 1, hi), Length(mid + 1, hi)))
  {
    var mid := Midpoint(lo, hi);
    EffectiveValid(p, t.left, lo, mid);
    EffectiveValid(p, t.right, mid + 1, hi);
    DistributesOver(p, t.tag, Effective(p, t.left, lo, mid), Length(lo, mid),
                    Effective(p, t.right, mid + 1, hi), Length(mid + 1, hi));
    hide Lawful;
  }

  /** Applying a tag to both halves is applying it to the whole, with the identity left behind. */
  lemma {:induction false} MapTwice<S(!new), A(!new)>(p: Policy<S, A>, f: A, xs: seq<S>, ys: seq<S>)
    requires Lawful(p) && p.validAction(f) && AllValid(p, xs) && AllValid(p, ys)
    ensures MapApply(p, p.identity, MapApply(p, f, xs) + MapApply(p, f, ys)) == MapApply(p, f, xs + ys)
  {
    hide Lawful, MapApply;
    MapApplyValid(p, f, xs + ys);
    MapConcat(p, f, xs, ys);
    MapIdentity(p, MapApply(p, f, xs + ys));
  }

  lemma DistributesOver<S(!new), A(!new)>(p: Policy<S, A>, f: A, x: S, m: nat, y: S, n: nat)
    requires Lawful(p) && p.validAction(f) && p.validAggregate(x, m) && p.validAggregate(y, n)
    ensures p.apply(f, p.combine(x, y), m + n) == p.combine(p.apply(f, x, m), p.apply(f, y, n))
  {
    assert DistributesAt(p, f, x, m, y, n);
  }

  // ---------------------------------------------------------------- update

  /** `update`: pushes at every node it visits, both children included whether or not they meet the range. */
  function Applied<S, A(==)>(
      p: Policy<S, A>, t: Tree<S, A>, lo: nat, hi: nat, l: nat, r: nat, f: A): (u: Tree<S, A>)
    ensures u.Leaf? <==> t.Leaf?
    decreases Length(lo, hi)
  {
    var s := Pushed(p, t, lo, hi);
    if !Meets(lo, hi, l, r) then s
    else if s.Leaf? || hi <= lo || Covered(lo, hi, l, r) then Pushed(p, Retagged(p, f, s), lo, hi)
    else
      var left := Applied(p, s.left, lo, Midpoint(lo, hi), l, r, f);
      var right := Applied(p, s.right, Midpoint(lo, hi) + 1, hi, l, r, f);
      Node(p.combine(left.agg, right.agg), p.identity, left, right)
  }

  /** An update is the element-wise application, for any lawful policy. */
  lemma {:induction false} AppliedElements<S(!new), A(!new)>(
      p: Policy<S, A>, t: Tree<S, A>, lo: nat, hi: nat, l: nat, r: nat, f: A)
    requires Lawful(p) && Pending(p, t, lo, hi) && p.validAction(f)
    ensures var u := Applied(p, t, lo, hi, l, r, f);
            && Pending(p, u, lo, hi) && u.agg == Effective(p, u, lo, hi) && u.tag == p.identity
            && PendingElements(p, u) == ApplyRange(p, f, PendingElements(p, t), lo, l, r)
    decreases hi - lo
  {
    hide Lawful, Pending, PendingElements, Effective, Retagged, Pushed, ApplyRange;
    var s := Pushed(p, t, lo, hi);
    PushedElements(p, t, lo, hi);
    EffectiveIsFold(p, s, lo, hi);
    PendingShape(p, s, lo, hi);
    if !Meets(lo, hi, l, r) {
      ApplyRangeOutside(p, f, PendingElements(p, s), lo, l, r);
    } else if Covered(lo, hi, l, r) {
      RetaggedElements(p, f, s, lo, hi);
      PushedElements(p, Retagged(p, f, s), lo, hi);
      ApplyRangeCovered(p, f, PendingElements(p, s), lo, l, r);
    } else {
      var mid := Midpoint(lo, hi);
      AppliedElements(p, s.left, lo, mid, l, r, f);
      AppliedElements(p, s.right, mid + 1, hi, l, r, f);
      EffectiveIsFold(p, s.left, lo, mid);
      EffectiveIsFold(p, s.right, mid + 1, hi);
      SettledNode(p, s, lo, hi);
      ApplyRangeConcat(p, f, PendingElements(p, s.left), PendingElements(p, s.right), lo, l, r);
      SettledJoin(p, Applied(p, s.left, lo, mid, l, r, f), Applied(p, s.right, mid + 1, hi, l, r, f), lo, hi);
    }
  }

  lemma {:induction false} PendingShape<S, A>(p: Policy<S, A>, t: Tree<S, A>, lo: nat, hi: nat)
    requires Pending(p, t, lo, hi)
    ensures lo <= hi && (t.Leaf? <==> lo == hi)
    ensures t.Node? ==> Pending(p, t.left, lo, Midpoint(lo, hi)) && Pending(p, t.right, Midpoint(lo, hi) + 1, hi)
  {
  }

  /** A node without a tag has exactly its children's elements. */
  lemma {:induction false} SettledNode<S(!new), A(!new)>(p: Policy<S, A>, t: Tree<S, A>, lo: nat, hi: nat)
    requires Lawful(p) && Pending(p, t, lo, hi) && t.Node? && t.tag == p.identity
    ensures PendingElements(p, t) == PendingElements(p, t.left) + PendingElements(p, t.right)
  {
    hide Lawful, MapApply, AllValid;
    EffectiveIsFold(p, t.left, lo, Midpoint(lo, hi));
    EffectiveIsFold(p, t.right, Midpoint(lo, hi) + 1, hi);
    ValidConcat(p, PendingElements(p, t.left), PendingElements(p, t.right));
    MapIdentity(p, PendingElements(p, t.left) + PendingElements(p, t.right));
  }

  /** A node without a tag above two such children. */
  lemma {:induction false} SettledJoin<S(!new), A(!new)>(
      p: Policy<S, A>, left: Tree<S, A>, right: Tree<S, A>, lo: nat, hi: nat)
    requires Lawful(p) && lo < hi && Pending(p, left, lo, Midpoint(lo, hi))
    requires Pending(p, right, Midpoint(lo, hi) + 1, hi)
    requires left.agg == Effective(p, left, lo, Midpoint(lo, hi))
    requires right.agg == Effective(p, right, Midpoint(lo, hi) + 1, hi)
    ensures var u := Node(p.combine(left.agg, right.agg), p.identity, left, right);
            && Pending(p, u, lo, hi) && u.agg == Effective(p, u, lo, hi)
            && PendingElements(p, u) == PendingElements(p, left) + PendingElements(p, right)
  {
    var u := Node(p.combine(left.agg, right.agg), p.identity, left, right);
    IdentityValid(p);
    assert Pending(p, u, lo, hi);
    hide Lawful, PendingElements;
    EffectiveValid(p, u, lo, hi);
    IdentityNeutral(p, u.agg, Length(lo, hi));
    SettledNode(p, u, lo, hi);
  }

  // ---------------------------------------------------------------- query

  /** What a query leaves: every visited node pushed. */
  function Traversed<S, A(==)>(p: Policy<S, A>, t: Tree<S, A>, lo: nat, hi: nat, l: nat, r: nat): (u: Tree<S, A>)
    ensures u.Leaf? <==> t.Leaf?
    decreases Length(lo, hi)
  {
    var s := Pushed(p, t, lo, hi);
    if !Meets(lo, hi, l, r) || s.Leaf? || hi <= lo || Covered(lo, hi, l, r) then s
    else Node(s.agg, s.tag, Traversed(p, s.left, lo, Midpoint(lo, hi), l, r),
              Traversed(p, s.right, Midpoint(lo, hi) + 1, hi, l, r))
  }

  /** ... and what it answers. */
  function Combined<S, A(==)>(p: Policy<S, A>, t: Tree<S, A>, lo: nat, hi: nat, l: nat, r: nat): S
    decreases Length(lo, hi)
  {
    var s := Pushed(p, t, lo, hi);
    if !Meets(lo, hi, l, r) then p.empty
    else if s.Leaf? || hi <= lo || Covered(lo, hi, l, r) then s.agg
    else p.combine(Combined(p, s.left, lo, Midpoint(lo, hi), l, r),
                   Combined(p, s.right, Midpoint(lo, hi) + 1, hi, l, r))
  }

  /** A query rewrites the nodes it visits, changes no element, and combines the ones asked for in index order. */
  lemma {:induction false} QueryKeepsElements<S(!new), A(!new)>(
      p: Policy<S, A>, t: Tree<S, A>, lo: nat, hi: nat, l: nat, r: nat)
    requires Lawful(p) && Pending(p, t, lo, hi)
    ensures var u := Traversed(p, t, lo, hi, l, r);
            && Pending(p, u, lo, hi) && u.agg == Effective(p, u, lo, hi) == Effective(p, t, lo, hi)
            && u.tag == p.identity && PendingElements(p, u) == PendingElements(p, t)
    ensures Combined(p, t, lo, hi, l, r) == FoldRange(p, PendingElements(p, t), lo, l, r)
    decreases hi - lo
  {
    hide Lawful, Pending, PendingElements, Effective, Retagged, Pushed, Fold, FoldRange, MapApply;
    var s := Pushed(p, t, lo, hi);
    PushedElements(p, t, lo, hi);
    EffectiveIsFold(p, s, lo, hi);
    PendingShape(p, s, lo, hi);
    if !Meets(lo, hi, l, r) {
      FoldRangeOutside(p, PendingElements(p, s), lo, l, r);
    } else if Covered(lo, hi, l, r) {
      CoveredFold(p, PendingElements(p, s), lo, hi, l, r);
    } else {
      var mid := Midpoint(lo, hi);
      QueryKeepsElements(p, s.left, lo, mid, l, r);
      QueryKeepsElements(p, s.right, mid + 1, hi, l, r);
      EffectiveIsFold(p, s.left, lo, mid);
      EffectiveIsFold(p, s.right, mid + 1, hi);
      SettledNode(p, s, lo, hi);
      SettledAggregate(p, s, lo, hi);
      FoldRangeConcat(p, PendingElements(p, s.left), PendingElements(p, s.right), lo, l, r);
      SettledJoin(p, Traversed(p, s.left, lo, mid, l, r), Traversed(p, s.right, mid + 1, hi, l, r), lo, hi);
    }
  }

  lemma {:induction false} SettledAggregate<S, A>(p: Policy<S, A>, t: Tree<S, A>, lo: nat, hi: nat)
    requires Pending(p, t, lo, hi) && t.Node?
    ensures t.agg == p.combine(Effective(p, t.left, lo, Midpoint(lo, hi)),
                               Effective(p, t.right, Midpoint(lo, hi) + 1, hi))
  {
  }
}
