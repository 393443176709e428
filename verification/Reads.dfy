/** The read-only recursions over an arena: `query` and `materialize`. */
module Reads {
  import opened Wrappers
  import opened Canonical
  import opened Policies
  import opened TagTrees
  import opened Histories
  import opened Arenas

  /** `query` over the arena. */
  function QueryArena<S, A>(
      p: Policy<S, A>, nodes: seq<Cell<S, A>>, i: nat, lo: nat, hi: nat, l: nat, r: nat, inherited: A,
      ghost t: Tree<S, A>)
    : (answer: Option<S>)
    requires Stands(nodes, i, t) && Shaped(t, lo, hi)
    ensures answer == TryQuery(p, t, lo, hi, l, r, inherited)
    decreases t
  {
    if !Meets(lo, hi, l, r) then Some(p.empty)
    else if Covered(lo, hi, l, r) then p.TryApply(inherited, nodes[i].agg, Length(lo, hi))
    else
      var mid := Midpoint(lo, hi);
      var next :- p.TryCompose(inherited, nodes[i].tag);
      var a :- QueryArena(p, nodes, nodes[i].left, lo, mid, l, r, next, t.left);
      var b :- QueryArena(p, nodes, nodes[i].right, mid + 1, hi, l, r, next, t.right);
      p.TryCombine(a, b)
  }

  /** The leaves a tree represents, evaluated in the machine representation. */
  function TryMaterialize<S, A>(p: Policy<S, A>, t: Tree<S, A>, inherited: A): Option<seq<S>>
    decreases t
  {
    if t.Leaf? then
      var leaf :- p.TryApply(inherited, t.agg, 1);
      Some([leaf])
    else
      var next :- p.TryCompose(inherited, t.tag);
      var left :- TryMaterialize(p, t.left, next);
      var right :- TryMaterialize(p, t.right, next);
      Some(left + right)
  }

  /** `materialize` over the arena. */
  function MaterializeArena<S, A>(
      p: Policy<S, A>, nodes: seq<Cell<S, A>>, i: nat, lo: nat, hi: nat, inherited: A, ghost t: Tree<S, A>)
    : (leaves: Option<seq<S>>)
    requires Stands(nodes, i, t) && Shaped(t, lo, hi)
    ensures leaves == TryMaterialize(p, t, inherited)
    decreases t
  {
    if lo == hi then
      var leaf :- p.TryApply(inherited, nodes[i].agg, 1);
      Some([leaf])
    else
      var mid := Midpoint(lo, hi);
      var next :- p.TryCompose(inherited, nodes[i].tag);
      var left :- MaterializeArena(p, nodes, nodes[i].left, lo, mid, next, t.left);
      var right :- MaterializeArena(p, nodes, nodes[i].right, mid + 1, hi, next, t.right);
      Some(left + right)
  }

  lemma {:induction false} LeafElements<S, A>(p: Policy<S, A>, t: Tree<S, A>, inherited: A)
    requires t.Leaf?
    ensures Elements(p, t) == [t.agg] && MapApply(p, inherited, [t.agg]) == [p.apply(inherited, t.agg, 1)]
  {
  }

  lemma {:induction false} NodeElements<S, A>(p: Policy<S, A>, t: Tree<S, A>)
    requires t.Node?
    ensures Elements(p, t) == MapApply(p, t.tag, Elements(p, t.left) + Elements(p, t.right))
  {
  }

  /** What a traversal yields is what the tree represents, in index order. */
  lemma {:induction false} MaterializeIsElements<S(!new), A(!new)>(
      p: Policy<S, A>, t: Tree<S, A>, lo: nat, hi: nat, inherited: A)
    requires Lawful(p) && Consistent(p, t, lo, hi) && p.validAction(inherited)
    requires TryMaterialize(p, t, inherited).Some?
    ensures TryMaterialize(p, t, inherited).value == MapApply(p, inherited, Elements(p, t))
    decreases t
  {
    hide Lawful, MapApply, Elements, Fold, AllValid;
    if t.Leaf? {
      LeafElements(p, t, inherited);
    } else {
      var mid := Midpoint(lo, hi);
      ComposedValid(p, inherited, t.tag);
      NodeElements(p, t);
      var next := p.compose(inherited, t.tag);
      MaterializeIsElements(p, t.left, lo, mid, next);
      MaterializeIsElements(p, t.right, mid + 1, hi, next);
      AggregateIsFold(p, t.left, lo, mid);
      AggregateIsFold(p, t.right, mid + 1, hi);
      ValidConcat(p, Elements(p, t.left), Elements(p, t.right));
      MapCompose(p, inherited, t.tag, Elements(p, t.left) + Elements(p, t.right));
      MapConcat(p, next, Elements(p, t.left), Elements(p, t.right));
    }
  }
}
