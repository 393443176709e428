/**
 Trees inside an arena whose records are rewritten: every index carries the canonical interval it stands for, so that
 rewriting the records of one interval leaves the trees of the others alone.
 */
module Placements {
  import opened Canonical
  import opened TagTrees
  import opened Arenas

  type Interval = (nat, nat)

  predicate Inside(at: Interval, lo: nat, hi: nat) {
    lo <= at.0 && at.1 <= hi
  }

  predicate Proper(labels: seq<Interval>) {
    forall j :: 0 <= j < |labels| ==> labels[j].0 <= labels[j].1
  }

  /** The tree t over [lo, hi] hangs off index i, every record under its own interval. */
  ghost predicate Placed<S, A>(arena: seq<Cell<S, A>>, labels: seq<Interval>, i: nat, t: Tree<S, A>, lo: nat, hi: nat)
    decreases t
  {
    && i < |arena| && i < |labels|
    && arena[i].Cell?
    && arena[i].agg == t.agg
    && arena[i].tag == t.tag
    && labels[i] == (lo, hi)
    && lo <= hi
    && (t.Leaf? <==> lo == hi)
    && (t.Node? ==>
          && Placed(arena, labels, arena[i].left, t.left, lo, Midpoint(lo, hi))
          && Placed(arena, labels, arena[i].right, t.right, Midpoint(lo, hi) + 1, hi))
  }

  lemma {:induction false} PlacedStands<S, A>(
      arena: seq<Cell<S, A>>, labels: seq<Interval>, i: nat, t: Tree<S, A>, lo: nat, hi: nat)
    requires Placed(arena, labels, i, t, lo, hi)
    ensures Stands(arena, i, t) && Shaped(t, lo, hi)
    decreases t
  {
    if t.Node? {
      PlacedStands(arena, labels, arena[i].left, t.left, lo, Midpoint(lo, hi));
      PlacedStands(arena, labels, arena[i].right, t.right, Midpoint(lo, hi) + 1, hi);
    }
  }

  /** A canonical tree of zeros: what the nodes of a fresh build hold beyond their creation. */
  function Zeros(lo: nat, hi: nat): Tree<nat, nat>
    decreases Length(lo, hi)
  {
    if hi <= lo then Leaf(0, 0) else Node(0, 0, Zeros(lo, Midpoint(lo, hi)), Zeros(Midpoint(lo, hi) + 1, hi))
  }

  /** The two arenas read the same at every index labelled inside [lo, hi]. */
  ghost predicate AgreeInside<S, A>(
      arena: seq<Cell<S, A>>, other: seq<Cell<S, A>>, labels: seq<Interval>, lo: nat, hi: nat)
  {
    && |arena| <= |other|
    && |labels| == |arena|
    && forall j :: 0 <= j < |arena| && Inside(labels[j], lo, hi) ==> other[j] == arena[j]
  }

  /** A tree depends only on the records labelled inside its interval. */
  lemma {:induction false} PlacedAgrees<S, A>(
      arena: seq<Cell<S, A>>, labels: seq<Interval>, other: seq<Cell<S, A>>, labels': seq<Interval>,
      i: nat, t: Tree<S, A>, lo: nat, hi: nat, outerLo: nat, outerHi: nat)
    requires Placed(arena, labels, i, t, lo, hi) && AgreeInside(arena, other, labels, outerLo, outerHi)
    requires labels <= labels' && outerLo <= lo && hi <= outerHi
    ensures Placed(other, labels', i, t, lo, hi)
    decreases t
  {
    if t.Node? {
      var mid := Midpoint(lo, hi);
      PlacedAgrees(arena, labels, other, labels', arena[i].left, t.left, lo, mid, outerLo, outerHi);
      PlacedAgrees(arena, labels, other, labels', arena[i].right, t.right, mid + 1, hi, outerLo, outerHi);
    }
  }

  lemma {:induction false} GrownAgrees<S, A>(
      arena: seq<Cell<S, A>>, other: seq<Cell<S, A>>, labels: seq<Interval>, lo: nat, hi: nat)
    requires arena <= other && |labels| == |arena|
    ensures AgreeInside(arena, other, labels, lo, hi)
  {
  }

  /** A record written above two children that the write left alone. */
  lemma {:induction false} PlacedAbove<S, A>(
      arena: seq<Cell<S, A>>, labels: seq<Interval>, other: seq<Cell<S, A>>, labels': seq<Interval>,
      left: nat, right: nat, i: nat, u: Tree<S, A>, lo: nat, hi: nat)
    requires i < |other| && i < |labels'| && labels'[i] == (lo, hi) && lo <= hi && (u.Leaf? <==> lo == hi)
    requires other[i] == Cell(left, right, u.agg, u.tag) && labels <= labels'
    requires u.Node? ==>
               && Placed(arena, labels, left, u.left, lo, Midpoint(lo, hi))
               && Placed(arena, labels, right, u.right, Midpoint(lo, hi) + 1, hi)
               && AgreeInside(arena, other, labels, lo, Midpoint(lo, hi))
               && AgreeInside(arena, other, labels, Midpoint(lo, hi) + 1, hi)
    ensures Placed(other, labels', i, u, lo, hi)
  {
    if u.Node? {
      var mid := Midpoint(lo, hi);
      PlacedAgrees(arena, labels, other, labels', left, u.left, lo, mid, lo, mid);
      PlacedAgrees(arena, labels, other, labels', right, u.right, mid + 1, hi, mid + 1, hi);
    }
  }
}
