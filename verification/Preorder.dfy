/**
 The preorder layout of the checkpointing tree (src/checkpointing_segment_tree.cpp:167-300): the 2m - 1 slots of a
 subtree follow its root without a gap, so no child index is stored.
 */
module Preorder {
  import opened Wrappers
  import opened Canonical
  import opened Policies
  import opened TagTrees
  import opened Histories
  import opened Reads
  import opened CheckedUpdates
  import opened SumAdd
  import opened SumAddRuns

  datatype Slot = Slot(sum: int, lazy: int)

  /** `rightChild` */
  function RightChild(i: nat, lo: nat, mid: nat): nat {
    i + 2 * Length(lo, mid)
  }

  /** The first slot after the block of the subtree over [lo, hi] at slot i. */
  function BlockEnd(i: nat, lo: nat, hi: nat): int {
    i + 2 * Length(lo, hi) - 1
  }

  /** The blocks of the two children are exactly the slots of the node's block after its own. */
  lemma BlocksTile(i: nat, lo: nat, hi: nat)
    requires lo < hi
    ensures BlockEnd(i + 1, lo, Midpoint(lo, hi)) == RightChild(i, lo, Midpoint(lo, hi))
    ensures BlockEnd(RightChild(i, lo, Midpoint(lo, hi)), Midpoint(lo, hi) + 1, hi) == BlockEnd(i, lo, hi)
  {
  }

  /** The tree over [lo, hi] lies in the block at slot i. */
  ghost predicate Packed(nodes: seq<Slot>, i: nat, t: Tree<int, int>, lo: nat, hi: nat)
    decreases t
  {
    && lo <= hi && (t.Leaf? <==> lo == hi)
    && BlockEnd(i, lo, hi) <= |nodes|
    && nodes[i] == Slot(t.agg, t.tag)
    && (t.Node? ==>
          && Packed(nodes, i + 1, t.left, lo, Midpoint(lo, hi))
          && Packed(nodes, RightChild(i, lo, Midpoint(lo, hi)), t.right, Midpoint(lo, hi) + 1, hi))
  }

  /** The two arrays agree on the slots [from, to). */
  ghost predicate AgreeOn(nodes: seq<Slot>, other: seq<Slot>, from: int, to: int) {
    |other| == |nodes| && forall j :: 0 <= j < |nodes| && from <= j < to ==> other[j] == nodes[j]
  }

  /** The two arrays agree outside the slots [from, to). */
  ghost predicate AgreeOutside(nodes: seq<Slot>, other: seq<Slot>, from: int, to: int) {
    |other| == |nodes| && forall j :: 0 <= j < |nodes| && !(from <= j < to) ==> other[j] == nodes[j]
  }

  /** A tree depends on its block alone. */
  lemma {:induction false} PackedAgrees(nodes: seq<Slot>, other: seq<Slot>, i: nat, t: Tree<int, int>, lo: nat, hi: nat)
    requires Packed(nodes, i, t, lo, hi) && AgreeOn(nodes, other, i, BlockEnd(i, lo, hi))
    ensures Packed(other, i, t, lo, hi)
    decreases t
  {
    if t.Node? {
      BlocksTile(i, lo, hi);
      PackedAgrees(nodes, other, i + 1, t.left, lo, Midpoint(lo, hi));
      PackedAgrees(nodes, other, RightChild(i, lo, Midpoint(lo, hi)), t.right, Midpoint(lo, hi) + 1, hi);
    }
  }

  lemma {:induction false} PackedChildren(nodes: seq<Slot>, i: nat, t: Tree<int, int>, lo: nat, hi: nat)
    requires Packed(nodes, i, t, lo, hi)
    ensures i < |nodes| && nodes[i] == Slot(t.agg, t.tag) && lo <= hi && (t.Leaf? <==> lo == hi)
    ensures BlockEnd(i, lo, hi) <= |nodes|
    ensures t.Node? ==>
              var mid, right := Midpoint(lo, hi), RightChild(i, lo, Midpoint(lo, hi));
              && Packed(nodes, i + 1, t.left, lo, mid) && Packed(nodes, right, t.right, mid + 1, hi)
              && right < |nodes| && nodes[i + 1].sum == t.left.agg && nodes[right].sum == t.right.agg
  {
  }

  /** The root of a block rewritten above children that stay. */
  lemma {:induction false} PackedRoot(nodes: seq<Slot>, i: nat, u: Tree<int, int>, lo: nat, hi: nat)
    requires lo <= hi && (u.Leaf? <==> lo == hi) && BlockEnd(i, lo, hi) <= |nodes|
    requires u.Node? ==>
               && Packed(nodes, i + 1, u.left, lo, Midpoint(lo, hi))
               && Packed(nodes, RightChild(i, lo, Midpoint(lo, hi)), u.right, Midpoint(lo, hi) + 1, hi)
    ensures var other := nodes[i := Slot(u.agg, u.tag)];
            Packed(other, i, u, lo, hi) && AgreeOutside(nodes, other, i, BlockEnd(i, lo, hi))
  {
    var other := nodes[i := Slot(u.agg, u.tag)];
    if u.Node? {
      var mid := Midpoint(lo, hi);
      BlocksTile(i, lo, hi);
      PackedAgrees(nodes, other, i + 1, u.left, lo, mid);
      PackedAgrees(nodes, other, RightChild(i, lo, mid), u.right, mid + 1, hi);
    }
  }

  /** Both children rewritten, one after the other, then the node. */
  lemma {:induction false} PackedBoth(
      nodes: seq<Slot>, nodes1: seq<Slot>, nodes2: seq<Slot>, i: nat, u: Tree<int, int>, lo: nat, hi: nat)
    requires lo < hi && u.Node? && BlockEnd(i, lo, hi) <= |nodes|
    requires var right := RightChild(i, lo, Midpoint(lo, hi));
             && AgreeOutside(nodes, nodes1, i + 1, right)
             && Packed(nodes1, i + 1, u.left, lo, Midpoint(lo, hi))
             && AgreeOutside(nodes1, nodes2, right, BlockEnd(i, lo, hi))
             && Packed(nodes2, right, u.right, Midpoint(lo, hi) + 1, hi)
    ensures var right, other := RightChild(i, lo, Midpoint(lo, hi)), nodes2[i := Slot(u.agg, u.tag)];
            && i < |nodes2| && nodes2[i] == nodes[i]
            && right < |nodes2| && nodes2[i + 1].sum == u.left.agg && nodes2[right].sum == u.right.agg
            && Packed(other, i, u, lo, hi) && AgreeOutside(nodes, other, i, BlockEnd(i, lo, hi))
  {
    hide Packed;
    var mid, right := Midpoint(lo, hi), RightChild(i, lo, Midpoint(lo, hi));
    BlocksTile(i, lo, hi);
    PackedAgrees(nodes1, nodes2, i + 1, u.left, lo, mid);
    PackedChildren(nodes2, i + 1, u.left, lo, mid);
    PackedChildren(nodes2, right, u.right, mid + 1, hi);
    PackedRoot(nodes2, i, u, lo, hi);
  }

  /** The right child keeps its block while the left one is rewritten. */
  lemma {:induction false} PackedRight(
      nodes: seq<Slot>, nodes1: seq<Slot>, i: nat, right: Tree<int, int>, lo: nat, hi: nat)
    requires lo < hi && AgreeOutside(nodes, nodes1, i + 1, RightChild(i, lo, Midpoint(lo, hi)))
    requires Packed(nodes, RightChild(i, lo, Midpoint(lo, hi)), right, Midpoint(lo, hi) + 1, hi)
    ensures Packed(nodes1, RightChild(i, lo, Midpoint(lo, hi)), right, Midpoint(lo, hi) + 1, hi)
  {
    hide Packed;
    PackedAgrees(nodes, nodes1, RightChild(i, lo, Midpoint(lo, hi)), right, Midpoint(lo, hi) + 1, hi);
  }

  // ---------------------------------------------------------------- reads

  /** `query` */
  function QueryPacked(
      nodes: seq<Slot>, i: nat, lo: nat, hi: nat, l: nat, r: nat, inherited: int, ghost t: Tree<int, int>)
    : (answer: Option<int>)
    requires Packed(nodes, i, t, lo, hi)
    ensures answer == TryQuery(SumAddPolicy(), t, lo, hi, l, r, inherited)
    decreases t
  {
    if !Meets(lo, hi, l, r) then Some(0)
    else if Covered(lo, hi, l, r) then SumAddPolicy().TryApply(inherited, nodes[i].sum, Length(lo, hi))
    else
      var mid := Midpoint(lo, hi);
      var next :- SumAddPolicy().TryCompose(inherited, nodes[i].lazy);
      var a :- QueryPacked(nodes, i + 1, lo, mid, l, r, next, t.left);
      var b :- QueryPacked(nodes, RightChild(i, lo, mid), mid + 1, hi, l, r, next, t.right);
      SumAddPolicy().TryCombine(a, b)
  }

  /** `materialize` */
  function MaterializePacked(nodes: seq<Slot>, i: nat, lo: nat, hi: nat, inherited: int, ghost t: Tree<int, int>)
    : (leaves: Option<seq<int>>)
    requires Packed(nodes, i, t, lo, hi)
    ensures leaves == TryMaterialize(SumAddPolicy(), t, inherited)
    decreases t
  {
    if lo == hi then
      var leaf :- SumAddPolicy().TryApply(inherited, nodes[i].sum, 1);
      Some([leaf])
    else
      var mid := Midpoint(lo, hi);
      var next :- SumAddPolicy().TryCompose(inherited, nodes[i].lazy);
      var left :- MaterializePacked(nodes, i + 1, lo, mid, next, t.left);
      var right :- MaterializePacked(nodes, RightChild(i, lo, mid), mid + 1, hi, next, t.right);
      Some(left + right)
  }

  /** `validateUpdate` */
  function ValidatePacked(
      nodes: seq<Slot>, i: nat, lo: nat, hi: nat, l: nat, r: nat, value: int, ghost t: Tree<int, int>): Option<int>
    requires Packed(nodes, i, t, lo, hi) && Meets(lo, hi, l, r)
    decreases t
  {
    PackedChildren(nodes, i, t, lo, hi);
    if Covered(lo, hi, l, r) then
      var sum := SumAddPolicy().TryApply(value, nodes[i].sum, Length(lo, hi));
      var lazy :- SumAddPolicy().TryCompose(value, nodes[i].lazy);
      sum
    else
      var mid, right := Midpoint(lo, hi), RightChild(i, lo, Midpoint(lo, hi));
      var leftSum :- if l <= mid then ValidatePacked(nodes, i + 1, lo, mid, l, r, value, t.left)
                     else Some(nodes[i + 1].sum);
      var rightSum :- if mid < r then ValidatePacked(nodes, right, mid + 1, hi, l, r, value, t.right)
                      else Some(nodes[right].sum);
      var children :- SumAddPolicy().TryCombine(leftSum, rightSum);
      SumAddPolicy().TryApply(nodes[i].lazy, children, Length(lo, hi))
  }

  lemma {:induction false} CoveredIsStamp(t: Tree<int, int>, lo: nat, hi: nat, l: nat, r: nat, value: int)
    requires Covered(lo, hi, l, r)
    ensures var sum := SumAddPolicy().TryApply(value, t.agg, Length(lo, hi));
            SumOf(TryUpdate(SumAddPolicy(), false, t, lo, hi, l, r, value))
            == if SumAddPolicy().TryCompose(value, t.tag).None? then None else sum
  {
  }

  /** The preflight returns the root sum of the update, and fails exactly when the update would. */
  lemma {:induction false} ValidateIsUpdate(
      nodes: seq<Slot>, i: nat, lo: nat, hi: nat, l: nat, r: nat, value: int, t: Tree<int, int>)
    requires Packed(nodes, i, t, lo, hi) && Meets(lo, hi, l, r)
    ensures ValidatePacked(nodes, i, lo, hi, l, r, value, t)
         == SumOf(TryUpdate(SumAddPolicy(), false, t, lo, hi, l, r, value))
    decreases t
  {
    hide Packed, TryUpdate, SumAddPolicy;
    PackedChildren(nodes, i, t, lo, hi);
    if Covered(lo, hi, l, r) {
      CoveredIsStamp(t, lo, hi, l, r, value);
    } else {
      var mid, right := Midpoint(lo, hi), RightChild(i, lo, Midpoint(lo, hi));
      PartialRetained(t, lo, hi, l, r, value);
      if l <= mid {
        ValidateIsUpdate(nodes, i + 1, lo, mid, l, r, value, t.left);
      }
      if mid < r {
        ValidateIsUpdate(nodes, right, mid + 1, hi, l, r, value, t.right);
      }
    }
  }
}
