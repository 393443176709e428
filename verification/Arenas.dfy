/** Append-only arenas of tree records: an arena index stands for the tree hanging off it. */
module Arenas {
  import opened Canonical
  import opened TagTrees

  /** One record as read at some version; `Dead` is a record that did not exist yet at that version. */
  datatype Cell<S, A> = Dead | Cell(left: nat, right: nat, agg: S, tag: A)

  /** `noNode`: the child index of a leaf and the root of an empty array. */
  const NO_NODE: nat := 0xFFFF_FFFF_FFFF_FFFF

  /** The tree t hangs off index i. */
  ghost predicate Stands<S, A>(arena: seq<Cell<S, A>>, i: nat, t: Tree<S, A>)
    decreases t
  {
    && i < |arena|
    && arena[i].Cell?
    && arena[i].agg == t.agg
    && arena[i].tag == t.tag
    && (t.Node? ==> Stands(arena, arena[i].left, t.left) && Stands(arena, arena[i].right, t.right))
  }

  /** Persistence: appending to an arena changes no tree already hanging in it. */
  lemma {:induction false} GrowthKeeps<S, A>(
      arena: seq<Cell<S, A>>, grown: seq<Cell<S, A>>, i: nat, t: Tree<S, A>)
    requires Stands(arena, i, t) && arena <= grown
    ensures Stands(grown, i, t)
    decreases t
  {
    if t.Node? {
      GrowthKeeps(arena, grown, arena[i].left, t.left);
      GrowthKeeps(arena, grown, arena[i].right, t.right);
    }
  }
}
