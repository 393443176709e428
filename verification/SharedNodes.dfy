/**
 The vendored persistent lazy tree (bench/external/thealgorithms_persistent_lazy.hpp): heap nodes shared by many
 versions, rewritten in place by updates and by queries.
 */
module SharedNodes {
  import opened Canonical
  import opened RangeSum
  import opened Frontier

  /** The value added to every element. */
  function AddAll(xs: seq<int>, value: int): (ys: seq<int>)
    ensures |ys| == |xs|
    ensures forall k :: 0 <= k < |xs| ==> ys[k] == xs[k] + value
  {
    seq(|xs|, k requires 0 <= k < |xs| => xs[k] + value)
  }

  /** The sum of the elements whose index, counted from `base`, lies in [l, r]. */
  function SumFrom(xs: seq<int>, base: nat, l: nat, r: nat): int {
    if xs == [] then 0 else (if l <= base <= r then xs[0] else 0) + SumFrom(xs[1..], base + 1, l, r)
  }

  lemma {:induction false} SumAddAll(xs: seq<int>, value: int)
    ensures Sum(AddAll(xs, value)) == Sum(xs) + value * |xs|
  {
    if xs != [] {
      SumAddAll(xs[1..], value);
      assert AddAll(xs, value)[1..] == AddAll(xs[1..], value);
      assert value * |xs| == value * (|xs| - 1) + value;
    }
  }

  lemma {:induction false} SumFromConcat(xs: seq<int>, ys: seq<int>, base: nat, l: nat, r: nat)
    ensures SumFrom(xs + ys, base, l, r) == SumFrom(xs, base, l, r) + SumFrom(ys, base + |xs|, l, r)
  {
    if xs == [] {
      assert xs + ys == ys;
    } else {
      assert (xs + ys)[1..] == xs[1..] + ys;
      SumFromConcat(xs[1..], ys, base + 1, l, r);
    }
  }

  lemma {:induction false} SumFromCovered(xs: seq<int>, base: nat, l: nat, r: nat)
    requires xs != [] && Covered(base, base + |xs| - 1, l, r)
    ensures SumFrom(xs, base, l, r) == Sum(xs)
  {
    if |xs| > 1 {
      SumFromCovered(xs[1..], base + 1, l, r);
    }
  }

  lemma {:induction false} SumFromOutside(xs: seq<int>, base: nat, l: nat, r: nat)
    requires xs == [] || !Meets(base, base + |xs| - 1, l, r)
    ensures SumFrom(xs, base, l, r) == 0
  {
    if xs != [] {
      SumFromOutside(xs[1..], base + 1, l, r);
    }
  }

  /** On a valid range this is the sum of the slice. */
  lemma {:induction false} SumFromIsSlice(xs: seq<int>, l: nat, r: nat)
    requires ValidRange(|xs|, l, r)
    ensures SumFrom(xs, 0, l, r) == Sum(xs[l..r + 1])
  {
    var a, b, c := xs[..l], xs[l..r + 1], xs[r + 1..];
    assert xs == a + (b + c);
    SumFromConcat(a, b + c, 0, l, r);
    SumFromConcat(b, c, l, l, r);
    SumFromOutside(a, 0, l, r);
    SumFromOutside(c, r + 1, l, r);
    SumFromCovered(b, l, l, r);
  }

  class Node {
    var left: Node?
    var right: Node?
    var val: int
    var prop: int
    /** The elements the node stands for, fixed when it is created. */
    ghost const elems: seq<int>

    constructor (left: Node?, right: Node?, val: int, prop: int, ghost elems: seq<int>)
      ensures this.left == left && this.right == right && this.val == val && this.prop == prop && this.elems == elems
    {
      this.left, this.right, this.val, this.prop, this.elems := left, right, val, prop, elems;
    }

    ghost predicate Faithful(nodes: set<Node>)
      reads this
    {
      StandsFor(left, right, val, prop, elems, nodes)
    }
  }

  /**
   A node with these fields stands for these elements: `prop` is pending on all of them, and on nothing that `val`
   counts.  Nothing is said of the children beyond what they stand for, so this survives any rewriting of them.
   */
  ghost predicate StandsFor(left: Node?, right: Node?, val: int, prop: int, elems: seq<int>, nodes: set<Node>) {
    && (left == null <==> right == null)
    && (left == null ==> elems == [val + prop])
    && (left != null ==>
          && left in nodes && right in nodes
          && |elems| >= 2
          && |left.elems| == Midpoint(0, |elems| - 1) + 1 && |left.elems| + |right.elems| == |elems|
          && val == Sum(left.elems + right.elems)
          && elems == AddAll(left.elems + right.elems, prop))
  }

  lemma {:induction false} MoreNodes(
      left: Node?, right: Node?, val: int, prop: int, elems: seq<int>, nodes: set<Node>, more: set<Node>)
    requires StandsFor(left, right, val, prop, elems, nodes) && nodes <= more
    ensures StandsFor(left, right, val, prop, elems, more)
  {
    hide Sum;
  }

  /** A copy with more pending stands for the elements with that much added. */
  lemma {:induction false} PendMore(
      left: Node?, right: Node?, val: int, prop: int, elems: seq<int>, nodes: set<Node>, extra: int, more: set<Node>)
    requires StandsFor(left, right, val, prop, elems, nodes) && nodes <= more
    ensures StandsFor(left, right, val, prop + extra, AddAll(elems, extra), more)
  {
    hide Sum;
  }

  lemma {:induction false} TwoChildren(
      left: Node?, right: Node?, val: int, prop: int, elems: seq<int>, nodes: set<Node>)
    requires StandsFor(left, right, val, prop, elems, nodes) && |elems| > 1
    ensures left != null && right != null && left in nodes && right in nodes
    ensures |left.elems| == Midpoint(0, |elems| - 1) + 1 && |left.elems| + |right.elems| == |elems|
  {
  }

  /** What is pending moved into the value and onto copies of the children. */
  lemma {:induction false} Materialized(
      left: Node, right: Node, val: int, prop: int, elems: seq<int>, nodes: set<Node>,
      left': Node, right': Node, more: set<Node>)
    requires StandsFor(left, right, val, prop, elems, nodes) && left' in more && right' in more
    requires left'.elems == AddAll(left.elems, prop) && right'.elems == AddAll(right.elems, prop)
    ensures StandsFor(left', right', val + |elems| * prop, 0, elems, more)
  {
    var xs := left.elems + right.elems;
    SumAddAll(xs, prop);
    assert left'.elems + right'.elems == AddAll(xs, prop);
    assert AddAll(AddAll(xs, prop), 0) == AddAll(xs, prop);
    hide Sum;
  }

  lemma {:induction false} LeafMaterialized(
      left: Node?, right: Node?, val: int, prop: int, elems: seq<int>, nodes: set<Node>)
    requires StandsFor(left, right, val, prop, elems, nodes) && |elems| == 1
    ensures left == null && right == null && StandsFor(left, right, val + prop, 0, elems, nodes)
  {
  }

  /** With nothing pending the value is the sum of the elements. */
  lemma {:induction false} SettledValue(left: Node?, right: Node?, val: int, elems: seq<int>, nodes: set<Node>)
    requires StandsFor(left, right, val, 0, elems, nodes)
    ensures val == Sum(elems)
    ensures left != null ==> elems == left.elems + right.elems
  {
    if left == null {
      assert elems[1..] == [];
    } else {
      assert elems == left.elems + right.elems;
    }
  }

  /** A node above two settled ones. */
  lemma {:induction false} Joined(left: Node, right: Node, a: int, b: int, elems: seq<int>, nodes: set<Node>)
    requires left in nodes && right in nodes && |elems| >= 2 && elems == left.elems + right.elems
    requires |left.elems| == Midpoint(0, |elems| - 1) + 1
    requires a == Sum(left.elems) && b == Sum(right.elems)
    ensures StandsFor(left, right, a + b, 0, elems, nodes)
  {
    SumConcat(left.elems, right.elems);
    hide Sum;
  }

  /** Every node ever created stands for its elements. */
  ghost predicate AllFaithful(nodes: set<Node>)
    reads nodes
  {
    forall x <- nodes :: x.Faithful(nodes)
  }

  /** A settled node: its value is the sum it stands for, and its children split its elements. */
  lemma SettledNode(nodes: set<Node>, x: Node)
    requires AllFaithful(nodes) && x in nodes && x.prop == 0
    ensures x.val == Sum(x.elems)
    ensures |x.elems| > 1 ==>
              && x.left != null && x.right != null && x.left in nodes && x.right in nodes
              && x.elems == x.left.elems + x.right.elems
              && |x.left.elems| == Midpoint(0, |x.elems| - 1) + 1
  {
    assert x.Faithful(nodes);
    SettledValue(x.left, x.right, x.val, x.elems, nodes);
    hide Sum;
    if |x.elems| > 1 {
      TwoChildren(x.left, x.right, x.val, 0, x.elems, nodes);
    }
  }

  lemma FaithfulAt(nodes: set<Node>, x: Node)
    requires AllFaithful(nodes) && x in nodes
    ensures StandsFor(x.left, x.right, x.val, x.prop, x.elems, nodes)
  {
    assert x.Faithful(nodes);
  }

  lemma LeafStands(value: int, nodes: set<Node>)
    ensures StandsFor(null, null, value, 0, [value], nodes)
  {
  }

  /** One more faithful node. */
  lemma OneMoreNode(nodes: set<Node>, x: Node)
    requires AllFaithful(nodes) && StandsFor(x.left, x.right, x.val, x.prop, x.elems, nodes)
    ensures AllFaithful(nodes + {x})
  {
    hide StandsFor;
    forall y | y in nodes + {x} ensures y.Faithful(nodes + {x}) {
      assert y in nodes ==> y.Faithful(nodes);
      MoreNodes(y.left, y.right, y.val, y.prop, y.elems, nodes, nodes + {x});
    }
  }

  /** The three cases of a range addition on [i, j]. */
  lemma {:induction false} AddFromCases(xs: seq<int>, i: nat, j: nat, l: nat, r: nat, value: int)
    requires i <= j && |xs| == j - i + 1
    ensures Covered(i, j, l, r) ==> AddFrom(xs, i, l, r, value) == AddAll(xs, value)
    ensures !Meets(i, j, l, r) ==> AddFrom(xs, i, l, r, value) == xs
  {
  }

  lemma {:induction false} AddFromConcat(xs: seq<int>, ys: seq<int>, base: nat, l: nat, r: nat, value: int)
    ensures AddFrom(xs + ys, base, l, r, value)
         == AddFrom(xs, base, l, r, value) + AddFrom(ys, base + |xs|, l, r, value)
  {
  }

  /** A node with nothing pending: no later `lazy` rewrites it. */
  twostate predicate Settled(nodes: set<Node>)
    reads nodes
  {
    forall x <- nodes :: old(x.prop) == 0 ==>
      x.prop == 0 && x.val == old(x.val) && x.left == old(x.left) && x.right == old(x.right)
  }

  lemma EveryField(nodes: set<Node>)
    ensures AllFaithful(nodes) <==>
              forall x <- nodes :: StandsFor(x.left, x.right, x.val, x.prop, x.elems, nodes)
  {
    hide StandsFor;
  }

  /** The array hanging off a node, read from its fields alone: every pending value counted below it. */
  ghost function Denoted(nodes: set<Node>, x: Node, length: nat): seq<int>
    reads nodes, x
    decreases length
  {
    if x.left == null || x.right == null || length < 2 || x.left !in nodes || x.right !in nodes then [x.val + x.prop]
    else
      AddAll(Denoted(nodes, x.left, Midpoint(0, length - 1) + 1)
             + Denoted(nodes, x.right, length - 1 - Midpoint(0, length - 1)), x.prop)
  }

  /** Among faithful nodes, what hangs off a node is what it was created to stand for. */
  lemma {:induction false} DenotedIsElems(nodes: set<Node>, x: Node)
    requires AllFaithful(nodes) && x in nodes
    ensures Denoted(nodes, x, |x.elems|) == x.elems
    decreases |x.elems|
  {
    hide AllFaithful, StandsFor, AddAll;
    FaithfulAt(nodes, x);
    Anatomy(x.left, x.right, x.val, x.prop, x.elems, nodes);
    if x.left != null {
      DenotedIsElems(nodes, x.left);
      DenotedIsElems(nodes, x.right);
    }
  }

  lemma {:induction false} Anatomy(
      left: Node?, right: Node?, val: int, prop: int, elems: seq<int>, nodes: set<Node>)
    requires StandsFor(left, right, val, prop, elems, nodes)
    ensures (left == null <==> right == null) && (left == null ==> elems == [val + prop])
    ensures left != null ==>
              && left in nodes && right in nodes && |elems| >= 2
              && |left.elems| == Midpoint(0, |elems| - 1) + 1
              && |right.elems| == |elems| - 1 - Midpoint(0, |elems| - 1)
              && elems == AddAll(left.elems + right.elems, prop)
  {
  }

  /** Two copies for a pending value above a leaf. */
  function Kids(i: nat, j: nat): nat {
    if i < j then 2 else 0
  }

  /** The most nodes an update can create: its own, and the copies under everything that was pending on its way. */
  function MostCreated(i: nat, j: nat, l: nat, r: nat): nat
    decreases Length(i, j)
  {
    Kids(i, j)
    + if !Meets(i, j, l, r) then 0
      else if Covered(i, j, l, r) || j <= i then 1 + Kids(i, j)
      else 1 + MostCreated(i, Midpoint(i, j), l, r) + MostCreated(Midpoint(i, j) + 1, j, l, r)
  }

  /** The most nodes a query can create: the copies under everything that was pending on its way. */
  function MostCopied(i: nat, j: nat, l: nat, r: nat): nat
    decreases Length(i, j)
  {
    Kids(i, j)
    + if !Meets(i, j, l, r) || Covered(i, j, l, r) || j <= i then 0
      else MostCopied(i, Midpoint(i, j), l, r) + MostCopied(Midpoint(i, j) + 1, j, l, r)
  }

  class PersistentLazyTree {
    var n: nat
    var ptrs: seq<Node>
    var vec: seq<int>
    var created: nat
    /** Every node ever created, and the array of every version. */
    ghost var nodes: set<Node>
    ghost var arrays: seq<seq<int>>

    /** Every root is settled and stands for the array of its version; the latest one has n elements. */
    ghost predicate Kept()
      reads this, nodes
    {
      && AllFaithful(nodes)
      && created == |nodes|
      && |arrays| == |ptrs|
      && (ptrs != [] ==> n > 0 && |arrays[|arrays| - 1]| == n)
      && forall v :: 0 <= v < |ptrs| ==> ptrs[v] in nodes && ptrs[v].elems == arrays[v] && ptrs[v].prop == 0
    }

    /** ... and so have all the others. */
    ghost predicate Valid()
      reads this, nodes
    {
      Kept() && forall v :: 0 <= v < |arrays| ==> |arrays[v]| == n
    }

    constructor ()
      ensures Valid() && ptrs == [] && arrays == [] && nodes == {}
    {
      n, ptrs, vec, created, nodes, arrays := 0, [], [], 0, {}, [];
    }

    /** The array of a version, read from the nodes. */
    ghost function VersionArray(v: nat): seq<int>
      requires v < |ptrs|
      reads this, nodes, ptrs[v]
    {
      Denoted(nodes, ptrs[v], |ptrs[v].elems|)
    }

    lemma VersionArrays()
      requires Kept()
      ensures forall v :: 0 <= v < |ptrs| ==> VersionArray(v) == arrays[v]
    {
      forall v | 0 <= v < |ptrs| ensures VersionArray(v) == arrays[v] {
        DenotedIsElems(nodes, ptrs[v]);
      }
    }

    /** `newKid`: a copy; what it is to stand for is fixed by the pending value its maker adds next. */
    method NewKid(curr: Node, ghost extra: int) returns (kid: Node)
      modifies this`created
      ensures fresh(kid) && created == old(created) + 1
      ensures kid.left == curr.left && kid.right == curr.right && kid.val == curr.val && kid.prop == curr.prop
      ensures kid.elems == AddAll(curr.elems, extra)
    {
      kid := new Node(curr.left, curr.right, curr.val, curr.prop, AddAll(curr.elems, extra));
      created := created + 1;
    }

    /** `lazy`: rewrites a node that any number of versions may share; its children are replaced by copies. */
    method Lazy(i: nat, j: nat, curr: Node)
      requires curr in nodes && AllFaithful(nodes) && i <= j
      requires curr.prop != 0 ==> |curr.elems| == j - i + 1
      modifies this`created, this`nodes, curr
      ensures old(nodes) <= nodes && fresh(nodes - old(nodes)) && AllFaithful(nodes)
      ensures created - |nodes| == old(created - |nodes|)
      ensures created == old(created) + if old(curr.prop) == 0 then 0 else Kids(i, j)
      ensures curr.prop == 0
      ensures old(curr.prop) == 0 ==>
                curr.val == old(curr.val) && curr.left == old(curr.left) && curr.right == old(curr.right)
    {
      hide AllFaithful, StandsFor, AddAll;
      if curr.prop == 0 {
        return;
      }
      if i != j {
        MaterializeNode(i, j, curr);
      } else {
        FaithfulAt(nodes, curr);
        LeafMaterialized(curr.left, curr.right, curr.val, curr.prop, curr.elems, nodes);
        Settle(curr, curr.val + (j - i + 1) * curr.prop, curr.left, curr.right);
      }
    }

    /** A node with children: the pending value goes onto copies of them. */
    method MaterializeNode(i: nat, j: nat, curr: Node)
      requires curr in nodes && AllFaithful(nodes) && i < j && |curr.elems| == j - i + 1
      modifies this`created, this`nodes, curr
      ensures old(nodes) <= nodes && fresh(nodes - old(nodes)) && AllFaithful(nodes)
      ensures created - |nodes| == old(created - |nodes|)
      ensures created == old(created) + 2
      ensures curr.prop == 0
    {
      hide AllFaithful, StandsFor, AddAll;
      var left, right := NewKids(curr);
      FaithfulAt(nodes, curr);
      Materialized(curr.left, curr.right, curr.val, curr.prop, curr.elems, nodes, left, right, nodes);
      Settle(curr, curr.val + (j - i + 1) * curr.prop, left, right);
    }

    /** The node rewritten, nothing pending on it: what the others stand for does not depend on its fields. */
    method Settle(curr: Node, val: int, left: Node?, right: Node?)
      requires curr in nodes && AllFaithful(nodes) && StandsFor(left, right, val, 0, curr.elems, nodes)
      modifies curr
      ensures AllFaithful(nodes)
      ensures curr.val == val && curr.left == left && curr.right == right && curr.prop == 0
    {
      hide AllFaithful, StandsFor;
      EveryField(nodes);
      curr.val, curr.left, curr.right, curr.prop := val, left, right, 0;
      EveryField(nodes);
    }

    /** Copies of both children, with what is pending on their parent added. */
    method NewKids(curr: Node) returns (left: Node, right: Node)
      requires curr in nodes && AllFaithful(nodes) && |curr.elems| > 1
      modifies this`created, this`nodes
      ensures fresh({left, right}) && nodes == old(nodes) + {left, right} && AllFaithful(nodes)
      ensures created - |nodes| == old(created - |nodes|)
      ensures created == old(created) + 2
      ensures curr.left != null && left.elems == AddAll(curr.left.elems, curr.prop)
      ensures curr.right != null && right.elems == AddAll(curr.right.elems, curr.prop)
    {
      hide AllFaithful, StandsFor, AddAll;
      FaithfulAt(nodes, curr);
      TwoChildren(curr.left, curr.right, curr.val, curr.prop, curr.elems, nodes);
      left := PendedKid(curr.left, curr.prop);
      right := PendedKid(curr.right, curr.prop);
    }

    /** A copy with that much more pending. */
    method PendedKid(curr: Node, value: int) returns (kid: Node)
      requires curr in nodes && AllFaithful(nodes)
      modifies this`created, this`nodes
      ensures fresh(kid) && nodes == old(nodes) + {kid} && AllFaithful(nodes)
      ensures created - |nodes| == old(created - |nodes|)
      ensures created == old(created) + 1 && kid.prop == old(curr.prop) + value
      ensures kid.elems == AddAll(curr.elems, value)
    {
      hide AllFaithful, StandsFor, AddAll;
      FaithfulAt(nodes, curr);
      kid := NewKid(curr, value);
      kid.prop := kid.prop + value;
      PendMore(curr.left, curr.right, curr.val, curr.prop, curr.elems, nodes, value, nodes);
      OneMoreNode(nodes, kid);
      nodes := nodes + {kid};
    }

    /** `update` (private): the node of the new version, nothing pending on it. */
    method UpdateNode(i: nat, j: nat, l: nat, r: nat, value: int, curr: Node) returns (result: Node)
      requires curr in nodes && AllFaithful(nodes) && i <= j && |curr.elems| == j - i + 1
      modifies this`created, this`nodes, nodes
      ensures old(nodes) <= nodes && fresh(nodes - old(nodes)) && AllFaithful(nodes)
      ensures created - |nodes| == old(created - |nodes|)
      ensures old(created) + Visited(i, j, l, r) <= created <= old(created) + MostCreated(i, j, l, r)
      ensures Settled(old(nodes))
      ensures result in nodes && result.elems == AddFrom(curr.elems, i, l, r, value) && result.prop == 0
      decreases j - i, 2
    {
      hide AllFaithful, StandsFor, AddAll, AddFrom, Sum, Visited;
      VisitedStops(i, j, l, r);
      if i < j && Meets(i, j, l, r) && !Covered(i, j, l, r) {
        VisitedSplits(i, j, l, r);
      }
      Lazy(i, j, curr);
      AddFromCases(curr.elems, i, j, l, r, value);
      if i >= l && j <= r {
        result := CopyWith(i, j, value, curr);
        return;
      }
      if i > r || j < l {
        return curr;
      }
      result := Rejoin(i, j, l, r, value, curr);
    }

    /** A covered node: a copy, with the value materialized at once. */
    method CopyWith(i: nat, j: nat, value: int, curr: Node) returns (result: Node)
      requires curr in nodes && AllFaithful(nodes) && i <= j && |curr.elems| == j - i + 1
      modifies this`created, this`nodes
      ensures old(nodes) <= nodes && fresh(nodes - old(nodes)) && AllFaithful(nodes)
      ensures created - |nodes| == old(created - |nodes|)
      ensures created == old(created) + 1 + if old(curr.prop) + value == 0 then 0 else Kids(i, j)
      ensures result in nodes && result.elems == AddAll(curr.elems, value) && result.prop == 0
    {
      hide AllFaithful, AddAll;
      result := PendedKid(curr, value);
      Lazy(i, j, result);
    }

    /** A partially covered node: a fresh one above the updated children, nothing pending on it. */
    method Rejoin(i: nat, j: nat, l: nat, r: nat, value: int, curr: Node) returns (result: Node)
      requires curr in nodes && AllFaithful(nodes) && i < j && |curr.elems| == j - i + 1 && curr.prop == 0
      modifies this`created, this`nodes, nodes
      ensures old(nodes) <= nodes && fresh(nodes - old(nodes)) && AllFaithful(nodes)
      ensures created - |nodes| == old(created - |nodes|)
      ensures created >= old(created) + 1 + Visited(i, Midpoint(i, j), l, r) + Visited(Midpoint(i, j) + 1, j, l, r)
      ensures created <= old(created) + 1 + MostCreated(i, Midpoint(i, j), l, r)
                         + MostCreated(Midpoint(i, j) + 1, j, l, r)
      ensures Settled(old(nodes))
      ensures result in nodes && result.elems == AddFrom(curr.elems, i, l, r, value) && result.prop == 0
      decreases j - i, 1
    {
      hide AllFaithful, StandsFor, AddAll, AddFrom, Sum, MostCreated, Visited;
      result := new Node(null, null, 0, 0, AddFrom(curr.elems, i, l, r, value));
      created := created + 1;
      result.left, result.right := UpdateBoth(i, j, l, r, value, curr);
      result.val := result.left.val + result.right.val;
      Joined(result.left, result.right, result.left.val, result.right.val, result.elems, nodes);
      OneMoreNode(nodes, result);
      nodes := nodes + {result};
    }

    /** The recursive calls on both children; the second one leaves the settled result of the first alone. */
    method UpdateBoth(i: nat, j: nat, l: nat, r: nat, value: int, curr: Node) returns (left: Node, right: Node)
      requires curr in nodes && AllFaithful(nodes) && i < j && |curr.elems| == j - i + 1 && curr.prop == 0
      modifies this`created, this`nodes, nodes
      ensures old(nodes) <= nodes && fresh(nodes - old(nodes)) && AllFaithful(nodes)
      ensures created - |nodes| == old(created - |nodes|)
      ensures created >= old(created) + Visited(i, Midpoint(i, j), l, r) + Visited(Midpoint(i, j) + 1, j, l, r)
      ensures created <= old(created) + MostCreated(i, Midpoint(i, j), l, r) + MostCreated(Midpoint(i, j) + 1, j, l, r)
      ensures Settled(old(nodes))
      ensures left in nodes && right in nodes && left.val == Sum(left.elems) && right.val == Sum(right.elems)
      ensures AddFrom(curr.elems, i, l, r, value) == left.elems + right.elems
      ensures |left.elems| == Midpoint(0, |curr.elems| - 1) + 1
      decreases j - i, 0
    {
      hide AllFaithful, StandsFor, AddFrom, Sum, MostCreated, Visited;
      SettledNode(nodes, curr);
      var mid := Midpoint(i, j);
      AddFromConcat(curr.left.elems, curr.right.elems, i, l, r, value);
      left := UpdateNode(i, mid, l, r, value, curr.left);
      right := UpdateNode(mid + 1, j, l, r, value, curr.right);
      SettledNode(nodes, left);
      SettledNode(nodes, right);
    }

    /**
     `query` (private): reads one version, and materializes what is pending on the nodes it visits.  A settled node
     whose segment is covered answers with all it stands for, whatever the length of that segment.
     */
    method QueryNode(i: nat, j: nat, l: nat, r: nat, curr: Node) returns (sum: int)
      requires curr in nodes && AllFaithful(nodes) && i <= j
      requires |curr.elems| == j - i + 1 || (curr.prop == 0 && l <= i && j <= r)
      modifies this`created, this`nodes, nodes
      ensures old(nodes) <= nodes && fresh(nodes - old(nodes)) && AllFaithful(nodes)
      ensures created - |nodes| == old(created - |nodes|)
      ensures old(created) <= created <= old(created) + MostCopied(i, j, l, r)
      ensures Settled(old(nodes))
      ensures sum == if |curr.elems| == j - i + 1 then SumFrom(curr.elems, i, l, r) else Sum(curr.elems)
      decreases j - i
    {
      hide AllFaithful, StandsFor, Sum, SumFrom;
      Lazy(i, j, curr);
      SettledNode(nodes, curr);
      if j < l || r < i {
        SumFromOutside(curr.elems, i, l, r);
        return 0;
      }
      if i >= l && j <= r {
        if |curr.elems| == j - i + 1 {
          SumFromCovered(curr.elems, i, l, r);
        }
        return curr.val;
      }
      var mid := Midpoint(i, j);
      SumFromConcat(curr.left.elems, curr.right.elems, i, l, r);
      var a := QueryNode(i, mid, l, r, curr.left);
      var b := QueryNode(mid + 1, j, l, r, curr.right);
      return a + b;
    }

    /** `construct` (private) */
    method ConstructNode(i: nat, j: nat) returns (result: Node)
      requires AllFaithful(nodes) && i <= j < |vec|
      modifies this`created, this`nodes
      ensures old(nodes) <= nodes && fresh(nodes - old(nodes)) && AllFaithful(nodes)
      ensures created - |nodes| == old(created - |nodes|)
      ensures created == old(created) + 2 * (j - i + 1) - 1
      ensures result in nodes && result.elems == vec[i..j + 1] && result.prop == 0
      decreases j - i, 1
    {
      hide AllFaithful, Sum, StandsFor;
      result := new Node(null, null, 0, 0, vec[i..j + 1]);
      created := created + 1;
      if i == j {
        result.val := vec[i];
        assert vec[i..j + 1] == [vec[i]];
        LeafStands(vec[i], nodes);
      } else {
        var leftt, right := ConstructBoth(i, j);
        Joined(leftt, right, leftt.val, right.val, vec[i..j + 1], nodes);
        result.val := leftt.val + right.val;
        result.left := leftt;
        result.right := right;
      }
      OneMoreNode(nodes, result);
      nodes := nodes + {result};
    }

    method ConstructBoth(i: nat, j: nat) returns (leftt: Node, right: Node)
      requires AllFaithful(nodes) && i < j < |vec|
      modifies this`created, this`nodes
      ensures old(nodes) <= nodes && fresh(nodes - old(nodes)) && AllFaithful(nodes)
      ensures created - |nodes| == old(created - |nodes|)
      ensures created == old(created) + 2 * (j - i + 1) - 2
      ensures leftt in nodes && right in nodes && leftt.val == Sum(leftt.elems) && right.val == Sum(right.elems)
      ensures vec[i..j + 1] == leftt.elems + right.elems && |leftt.elems| == Midpoint(0, j - i) + 1
      decreases j - i, 0
    {
      hide AllFaithful, Sum, StandsFor;
      var mid := Midpoint(i, j);
      leftt := ConstructNode(i, mid);
      right := ConstructNode(mid + 1, j);
      SettledNode(nodes, leftt);
      SettledNode(nodes, right);
      assert vec[i..j + 1] == vec[i..mid + 1] + vec[mid + 1..j + 1];
    }

    /**
     `construct`: one more version, over these elements.  The nodes of all versions still stand for their arrays, but
     the tree keeps one length: it stays valid exactly when this is the length it had, which nothing in the interface
     enforces.
     */
    method Construct(values: seq<int>)
      requires Kept()
      modifies this
      ensures Kept() && fresh(nodes - old(nodes))
      ensures values == [] ==> unchanged(this)
      ensures values != [] ==> arrays == old(arrays) + [values] && n == |values| && |ptrs| == |old(ptrs)| + 1
      ensures values != [] ==> created == old(created) + 2 * |values| - 1
      ensures Valid() <==>
                if values == [] then old(Valid()) else old(ptrs) == [] || (old(Valid()) && |values| == old(n))
    {
      hide AllFaithful;
      if values == [] {
        return;
      }
      n, vec := |values|, values;
      var root := ConstructNode(0, n - 1);
      ptrs := ptrs + [root];
      arrays := arrays + [values];
      assert vec[0..|vec|] == vec;
      assert forall v :: 0 <= v < |old(arrays)| ==> arrays[v] == old(arrays)[v];
      assert arrays[|old(arrays)|] == values;
    }

    /** `update`: one more version; the nodes it rewrites leave every published version's array alone. */
    method Update(l: nat, r: nat, value: int)
      requires Kept() && ptrs != []
      modifies this, nodes
      ensures Kept() && (old(Valid()) ==> Valid()) && fresh(nodes - old(nodes))
      ensures n == old(n) && |ptrs| == |old(ptrs)| + 1
      ensures old(created) + Visited(0, n - 1, l, r) <= created <= old(created) + MostCreated(0, n - 1, l, r)
      ensures arrays == old(arrays) + [AddRange(old(arrays[|arrays| - 1]), l, r, value)]
      ensures forall v :: 0 <= v < |old(ptrs)| ==> VersionArray(v) == old(VersionArray(v)) == arrays[v]
    {
      hide AllFaithful, Denoted, MostCreated, Visited;
      VersionArrays();
      var root := UpdateNode(0, n - 1, l, r, value, ptrs[|ptrs| - 1]);
      assert AddFrom(arrays[|arrays| - 1], 0, l, r, value) == AddRange(arrays[|arrays| - 1], l, r, value);
      ptrs := ptrs + [root];
      arrays := arrays + [AddRange(arrays[|arrays| - 1], l, r, value)];
      VersionArrays();
    }

    /**
     `query`: the exact sum over that version; the nodes it rewrites leave every version's array alone.  Over the
     whole of the latest length, a version of another length answers with its whole sum instead: of a longer one that
     is right exactly when what lies beyond adds up to nothing.
     */
    method Query(l: nat, r: nat, version: nat) returns (sum: int)
      requires Kept() && version < |ptrs| && (|arrays[version]| == n || (l == 0 && n <= r + 1))
      modifies this`created, this`nodes, nodes
      ensures Kept() && (old(Valid()) ==> Valid()) && fresh(nodes - old(nodes))
      ensures arrays == old(arrays)
      ensures old(created) <= created <= old(created) + MostCopied(0, n - 1, l, r)
      ensures sum == if |arrays[version]| == n then SumFrom(arrays[version], 0, l, r) else Sum(arrays[version])
      ensures |arrays[version]| == n && ValidRange(n, l, r) ==> sum == Sum(arrays[version][l..r + 1])
      ensures |arrays[version]| > n && ValidRange(n, l, r) ==>
                (sum == Sum(arrays[version][l..r + 1]) <==> Sum(arrays[version][n..]) == 0)
      ensures forall v :: 0 <= v < |ptrs| ==> VersionArray(v) == old(VersionArray(v)) == arrays[v]
    {
      hide AllFaithful, Denoted, SumFrom, Sum, MostCopied;
      VersionArrays();
      sum := QueryNode(0, n - 1, l, r, ptrs[version]);
      if |arrays[version]| == n && ValidRange(n, l, r) {
        SumFromIsSlice(arrays[version], l, r);
      }
      if |arrays[version]| > n {
        SumSplits(arrays[version], n);
      }
      VersionArrays();
    }
  }

  /** Two constructions of different lengths: the first element of version zero is 1, and its query answers 3. */
  method AnotherLength() returns (answer: int)
    ensures answer == 3 && Sum([1, 2][0..1]) == 1
  {
    hide PersistentLazyTree.Kept, AllFaithful, SumFrom, Sum, Denoted, MostCopied;
    SmallSums();
    var tree := new PersistentLazyTree();
    tree.Construct([1, 2]);
    tree.Construct([5]);
    assert tree.arrays[0] == [1, 2];
    answer := tree.Query(0, 0, 0);
  }

  lemma {:induction false} SumSplits(xs: seq<int>, n: nat)
    requires n <= |xs|
    ensures Sum(xs) == Sum(xs[..n]) + Sum(xs[n..])
  {
    SumConcat(xs[..n], xs[n..]);
    assert xs[..n] + xs[n..] == xs;
  }

  lemma SmallSums()
    ensures Sum([1, 2]) == 3 && Sum([1, 2][0..1]) == 1
  {
    assert [1, 2][1..] == [2] && [2][1..] == [] && [1, 2][0..1] == [1] && [1][1..] == [];
  }
}
