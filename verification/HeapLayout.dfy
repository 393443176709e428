/** The heap layout of the in-place trees: the children of slot i are 2i + 1 and 2i + 2, in 4n slots. */
module HeapLayout {
  import opened Canonical
  import opened Policies
  import opened TagTrees
  import opened Histories
  import opened Heights

  /** Slot j belongs to the subtree of slot i. */
  predicate Below(i: nat, j: nat)
    decreases j
  {
    j == i || (j > i && Below(i, (j - 1) / 2))
  }

  lemma {:induction false} ChildrenBelow(i: nat, j: nat)
    ensures Below(2 * i + 1, j) || Below(2 * i + 2, j) ==> j > i && Below(i, j)
    ensures !(Below(2 * i + 1, j) && Below(2 * i + 2, j))
    decreases j
  {
    if j > 2 * i + 1 {
      ChildrenBelow(i, (j - 1) / 2);
    }
  }

  // ---------------------------------------------------------------- 4n slots are enough

  /** Slot i has room for a subtree over m elements in the heap of n elements. */
  ghost predicate Room(i: nat, m: nat, n: nat) {
    (i + 2) * Pow2(Height(m)) <= 2 * Pow2(Height(n))
  }

  lemma {:induction false} RoomScales(i: nat, child: nat, p: nat, q: nat, total: nat)
    requires (i + 2) * (2 * p) <= total && q <= p && child <= 2 * i + 2
    ensures (child + 2) * q <= total
  {
    TimesMonotone(child + 2, 2 * i + 4, q);
    TimesMonotone(q, p, 2 * i + 4);
    assert (2 * i + 4) * p == (i + 2) * (2 * p);
  }

  lemma TimesMonotone(x: nat, y: nat, z: nat)
    requires x <= y
    ensures x * z <= y * z && z * x <= z * y
  {
  }

  lemma {:induction false} ChildrenRoom(i: nat, lo: nat, hi: nat, n: nat)
    requires lo < hi && Room(i, Length(lo, hi), n)
    ensures Room(2 * i + 1, Length(lo, Midpoint(lo, hi)), n)
    ensures Room(2 * i + 2, Length(Midpoint(lo, hi) + 1, hi), n)
  {
    HalvesAreLower(lo, hi);
    var h, mid := Height(Length(lo, hi)), Midpoint(lo, hi);
    var left, right := Height(Length(lo, mid)), Height(Length(mid + 1, hi));
    Pow2Monotone(right, h - 1);
    assert Pow2(h) == 2 * Pow2(h - 1);
    RoomScales(i, 2 * i + 1, Pow2(h - 1), Pow2(left), 2 * Pow2(Height(n)));
    RoomScales(i, 2 * i + 2, Pow2(h - 1), Pow2(right), 2 * Pow2(Height(n)));
  }

  /** Every slot with room lies among the `lazyStorageCount(n)` = 4n slots. */
  lemma {:induction false} RoomIsInside(i: nat, m: nat, n: nat)
    requires n > 0 && Room(i, m, n)
    ensures i < 4 * n
  {
    HeightIsCeilLog2(n);
    AtLeast(i + 2, Pow2(Height(m)));
  }

  lemma {:induction false} AtLeast(k: nat, p: nat)
    requires p >= 1
    ensures k <= k * p
  {
    assert k * p == k * (p - 1) + k && k * (p - 1) >= 0;
  }

  // ---------------------------------------------------------------- trees in a heap

  function TagOf<S, A>(t: Tree<S, A>): A {
    t.tag
  }

  function AggregateOf<S, A>(t: Tree<S, A>): S {
    t.agg
  }

  /** The attribute `read` of every node of t lies in its slot, from slot i down. */
  ghost predicate Laid<S, A, X>(cells: seq<X>, read: Tree<S, A> -> X, i: nat, t: Tree<S, A>)
    decreases t
  {
    && i < |cells|
    && cells[i] == read(t)
    && (t.Node? ==> Laid(cells, read, 2 * i + 1, t.left) && Laid(cells, read, 2 * i + 2, t.right))
  }

  /** The two heaps agree on the subtree of slot i. */
  ghost predicate AgreeBelow<X>(cells: seq<X>, other: seq<X>, i: nat) {
    && |other| == |cells|
    && forall j :: 0 <= j < |cells| && Below(i, j) ==> other[j] == cells[j]
  }

  /** The two heaps agree outside the subtree of slot i. */
  ghost predicate AgreeElsewhere<X>(cells: seq<X>, other: seq<X>, i: nat) {
    && |other| == |cells|
    && forall j :: 0 <= j < |cells| && !Below(i, j) ==> other[j] == cells[j]
  }

  lemma {:induction false} LaidAgrees<S, A, X>(
      cells: seq<X>, other: seq<X>, read: Tree<S, A> -> X, i: nat, t: Tree<S, A>)
    requires Laid(cells, read, i, t) && AgreeBelow(cells, other, i)
    ensures Laid(other, read, i, t)
    decreases t
  {
    if t.Node? {
      forall j | 0 <= j < |cells|
        ensures Below(2 * i + 1, j) || Below(2 * i + 2, j) ==> other[j] == cells[j]
      {
        ChildrenBelow(i, j);
      }
      LaidAgrees(cells, other, read, 2 * i + 1, t.left);
      LaidAgrees(cells, other, read, 2 * i + 2, t.right);
    }
  }

  lemma {:induction false} LaidChildren<S, A, X>(cells: seq<X>, read: Tree<S, A> -> X, i: nat, t: Tree<S, A>)
    requires Laid(cells, read, i, t)
    ensures i < |cells| && cells[i] == read(t)
    ensures t.Node? ==> Laid(cells, read, 2 * i + 1, t.left) && Laid(cells, read, 2 * i + 2, t.right)
    ensures t.Node? ==> 2 * i + 2 < |cells| && cells[2 * i + 1] == read(t.left) && cells[2 * i + 2] == read(t.right)
  {
  }

  /** What happens in the subtree of one child leaves the other child and the node itself alone. */
  lemma {:induction false} ElsewhereIsAside<X>(cells: seq<X>, other: seq<X>, i: nat, child: nat)
    requires AgreeElsewhere(cells, other, child) && (child == 2 * i + 1 || child == 2 * i + 2)
    ensures AgreeBelow(cells, other, if child == 2 * i + 1 then 2 * i + 2 else 2 * i + 1)
    ensures AgreeElsewhere(cells, other, i)
    ensures i < |cells| ==> other[i] == cells[i]
  {
    forall j | 0 <= j < |cells|
      ensures Below(if child == 2 * i + 1 then 2 * i + 2 else 2 * i + 1, j) ==> other[j] == cells[j]
      ensures !Below(i, j) || j == i ==> other[j] == cells[j]
    {
      ChildrenBelow(i, j);
    }
  }

  /** The right child keeps its place while the left one changes. */
  lemma {:induction false} BesideLeft<S, A, X>(
      cells: seq<X>, other: seq<X>, read: Tree<S, A> -> X, i: nat, right: Tree<S, A>)
    requires AgreeElsewhere(cells, other, 2 * i + 1) && Laid(cells, read, 2 * i + 2, right)
    ensures Laid(other, read, 2 * i + 2, right)
  {
    ElsewhereIsAside(cells, other, i, 2 * i + 1);
    LaidAgrees(cells, other, read, 2 * i + 2, right);
  }

  /** Both children rewritten, left then right, under an unchanged node. */
  lemma {:induction false} LaidBoth<S, A, X>(
      a: seq<X>, b: seq<X>, c: seq<X>, read: Tree<S, A> -> X, i: nat, u: Tree<S, A>)
    requires u.Node? && i < |a| && a[i] == read(u)
    requires AgreeElsewhere(a, b, 2 * i + 1) && Laid(b, read, 2 * i + 1, u.left)
    requires AgreeElsewhere(b, c, 2 * i + 2) && Laid(c, read, 2 * i + 2, u.right)
    ensures Laid(c, read, i, u) && AgreeElsewhere(a, c, i)
  {
    ElsewhereIsAside(a, b, i, 2 * i + 1);
    ElsewhereIsAside(b, c, i, 2 * i + 2);
    LaidAgrees(b, c, read, 2 * i + 1, u.left);
  }

  /** A node written above its two children. */
  lemma {:induction false} LaidAbove<S, A, X>(cells: seq<X>, read: Tree<S, A> -> X, i: nat, u: Tree<S, A>)
    requires i < |cells|
    requires u.Node? ==> Laid(cells, read, 2 * i + 1, u.left) && Laid(cells, read, 2 * i + 2, u.right)
    ensures Laid(cells[i := read(u)], read, i, u) && AgreeElsewhere(cells, cells[i := read(u)], i)
  {
    if u.Node? {
      var other := cells[i := read(u)];
      forall j | 0 <= j < |cells|
        ensures Below(2 * i + 1, j) || Below(2 * i + 2, j) ==> other[j] == cells[j]
      {
        ChildrenBelow(i, j);
      }
      LaidAgrees(cells, other, read, 2 * i + 1, u.left);
      LaidAgrees(cells, other, read, 2 * i + 2, u.right);
    }
  }

  /** The same children under a new attribute. */
  predicate SameBelow<S(==), A(==)>(t: Tree<S, A>, u: Tree<S, A>) {
    (u.Leaf? <==> t.Leaf?) && (u.Node? ==> u.left == t.left && u.right == t.right)
  }

  lemma {:induction false} ElsewhereTransitive<X>(a: seq<X>, b: seq<X>, c: seq<X>, i: nat)
    requires AgreeElsewhere(a, b, i) && AgreeElsewhere(b, c, i)
    ensures AgreeElsewhere(a, c, i)
  {
  }

  /** New children and a new node in place of the old ones. */
  function Refreshed<S, A, X>(cells: seq<X>, read: Tree<S, A> -> X, i: nat, u: Tree<S, A>): seq<X>
    requires u.Node? && 2 * i + 2 < |cells|
  {
    cells[2 * i + 1 := read(u.left)][2 * i + 2 := read(u.right)][i := read(u)]
  }

  /** One child written above what hangs below it; its sibling is left alone. */
  lemma {:induction false} LaidChild<S, A, X>(
      cells: seq<X>, read: Tree<S, A> -> X, i: nat, child: nat, u: Tree<S, A>, sibling: nat, s: Tree<S, A>)
    requires child < |cells|
    requires (child == 2 * i + 1 && sibling == 2 * i + 2) || (child == 2 * i + 2 && sibling == 2 * i + 1)
    requires u.Node? ==> Laid(cells, read, 2 * child + 1, u.left) && Laid(cells, read, 2 * child + 2, u.right)
    requires Laid(cells, read, sibling, s)
    ensures var other := cells[child := read(u)];
            Laid(other, read, child, u) && Laid(other, read, sibling, s) && AgreeElsewhere(cells, other, i)
  {
    hide Laid, Below;
    var other := cells[child := read(u)];
    LaidAbove(cells, read, child, u);
    ElsewhereIsAside(cells, other, i, child);
    LaidAgrees(cells, other, read, sibling, s);
  }

  /** A node whose tag was pushed into its children, in its three slots. */
  lemma {:induction false} LaidRefreshed<S, A, X>(
      cells: seq<X>, read: Tree<S, A> -> X, i: nat, t: Tree<S, A>, u: Tree<S, A>)
    requires Laid(cells, read, i, t) && t.Node? && u.Node?
    requires SameBelow(t.left, u.left) && SameBelow(t.right, u.right)
    ensures 2 * i + 2 < |cells|
    ensures Laid(Refreshed(cells, read, i, u), read, i, u)
    ensures AgreeElsewhere(cells, Refreshed(cells, read, i, u), i)
  {
    LaidChild(cells, read, i, 2 * i + 1, u.left, 2 * i + 2, t.right);
    var a := cells[2 * i + 1 := read(u.left)];
    assert u.right.Node? ==>
        Laid(a, read, 2 * (2 * i + 2) + 1, u.right.left) && Laid(a, read, 2 * (2 * i + 2) + 2, u.right.right);
    hide Laid, Below;
    LaidChild(a, read, i, 2 * i + 2, u.right, 2 * i + 1, u.left);
    LaidAbove(a[2 * i + 2 := read(u.right)], read, i, u);
  }

  /** A heap of one value holds every canonical tree with that attribute everywhere. */
  lemma {:induction false} UniformLaid<S, A, X>(
      cells: seq<X>, read: Tree<S, A> -> X, x: X, i: nat, t: Tree<S, A>, lo: nat, hi: nat, n: nat)
    requires n > 0 && |cells| == 4 * n && (forall j :: 0 <= j < |cells| ==> cells[j] == x)
    requires Shaped(t, lo, hi) && Room(i, Length(lo, hi), n) && Everywhere(t, read, x)
    ensures Laid(cells, read, i, t)
    decreases t
  {
    RoomIsInside(i, Length(lo, hi), n);
    if t.Node? {
      ChildrenRoom(i, lo, hi, n);
      UniformLaid(cells, read, x, 2 * i + 1, t.left, lo, Midpoint(lo, hi), n);
      UniformLaid(cells, read, x, 2 * i + 2, t.right, Midpoint(lo, hi) + 1, hi, n);
    }
  }

  ghost predicate Everywhere<S, A, X>(t: Tree<S, A>, read: Tree<S, A> -> X, x: X)
    decreases t
  {
    read(t) == x && (t.Node? ==> Everywhere(t.left, read, x) && Everywhere(t.right, read, x))
  }

  /** The tags of every tree built from an array are the identity. */
  lemma {:induction false} BuiltTags<S, A>(p: Policy<S, A>, xs: seq<S>, lo: nat, hi: nat)
    requires lo <= hi < |xs|
    ensures Everywhere(Build(p, xs, lo, hi), TagOf, p.identity) && Shaped(Build(p, xs, lo, hi), lo, hi)
    decreases hi - lo
  {
    if lo < hi {
      BuiltTags(p, xs, lo, Midpoint(lo, hi));
      BuiltTags(p, xs, Midpoint(lo, hi) + 1, hi);
    }
  }

  lemma RootRoom(n: nat)
    ensures Room(0, n, n)
  {
  }

  lemma SiblingApart(i: nat)
    ensures !Below(2 * i + 2, 2 * i + 1) && Below(2 * i + 1, 2 * i + 1)
  {
  }

  // ---------------------------------------------------------------- aggregates and tags side by side

  /** Both attributes of every node lie in its slot. */
  ghost predicate InHeap<S, A>(aggs: seq<S>, tags: seq<A>, i: nat, t: Tree<S, A>) {
    |tags| == |aggs| && Laid(aggs, AggregateOf, i, t) && Laid(tags, TagOf, i, t)
  }

  /** Both heaps outside the subtree of slot i. */
  ghost predicate SameElsewhere<S, A>(aggs: seq<S>, tags: seq<A>, aggs': seq<S>, tags': seq<A>, i: nat) {
    AgreeElsewhere(aggs, aggs', i) && AgreeElsewhere(tags, tags', i)
  }

  /** A covered node, rewritten in its own slot. */
  lemma {:induction false} StampInPlace<S, A>(aggs: seq<S>, tags: seq<A>, i: nat, t: Tree<S, A>, u: Tree<S, A>)
    requires InHeap(aggs, tags, i, t) && SameBelow(t, u)
    ensures i < |aggs| && InHeap(aggs[i := u.agg], tags[i := u.tag], i, u)
    ensures SameElsewhere(aggs, tags, aggs[i := u.agg], tags[i := u.tag], i)
  {
    LaidChildren(aggs, AggregateOf, i, t);
    LaidChildren(tags, TagOf, i, t);
    hide Laid, Below;
    LaidAbove(aggs, AggregateOf, i, u);
    LaidAbove(tags, TagOf, i, u);
  }

  lemma {:induction false} TagsAt<S, A>(tags: seq<A>, i: nat, t: Tree<S, A>)
    requires Laid(tags, TagOf, i, t) && t.Node?
    ensures 2 * i + 2 < |tags| && tags[i] == t.tag
    ensures tags[2 * i + 1] == t.left.tag && tags[2 * i + 2] == t.right.tag
  {
  }

  lemma {:induction false} InHeapTags<S, A>(aggs: seq<S>, tags: seq<A>, i: nat, t: Tree<S, A>)
    requires InHeap(aggs, tags, i, t) && t.Node?
    ensures 2 * i + 2 < |tags| && tags[2 * i + 1] == t.left.tag && tags[2 * i + 2] == t.right.tag
  {
    hide Laid;
    TagsAt(tags, i, t);
  }

  lemma {:induction false} InHeapChildren<S, A>(aggs: seq<S>, tags: seq<A>, i: nat, t: Tree<S, A>)
    requires InHeap(aggs, tags, i, t)
    ensures i < |aggs| == |tags| && aggs[i] == t.agg && tags[i] == t.tag
    ensures t.Node? ==>
              && InHeap(aggs, tags, 2 * i + 1, t.left) && InHeap(aggs, tags, 2 * i + 2, t.right)
              && 2 * i + 2 < |aggs| && aggs[2 * i + 1] == t.left.agg && aggs[2 * i + 2] == t.right.agg
  {
    LaidChildren(aggs, AggregateOf, i, t);
    LaidChildren(tags, TagOf, i, t);
  }

  /** The left child rewritten: the right one and the node keep their slots. */
  lemma {:induction false} LeftInPlace<S, A>(
      aggs: seq<S>, tags: seq<A>, aggs': seq<S>, tags': seq<A>, i: nat, right: Tree<S, A>)
    requires SameElsewhere(aggs, tags, aggs', tags', 2 * i + 1) && InHeap(aggs, tags, 2 * i + 2, right)
    ensures InHeap(aggs', tags', 2 * i + 2, right)
  {
    hide Laid, Below;
    BesideLeft(aggs, aggs', AggregateOf, i, right);
    BesideLeft(tags, tags', TagOf, i, right);
  }

  /** Both children rewritten and the sum of the node recomputed; its tag is retained. */
  lemma {:induction false} BothInPlace<S, A>(
      aggs: seq<S>, tags: seq<A>, aggs1: seq<S>, tags1: seq<A>, aggs2: seq<S>, tags2: seq<A>,
      i: nat, u: Tree<S, A>)
    requires u.Node? && i < |aggs| == |tags| && tags[i] == u.tag
    requires SameElsewhere(aggs, tags, aggs1, tags1, 2 * i + 1) && InHeap(aggs1, tags1, 2 * i + 1, u.left)
    requires SameElsewhere(aggs1, tags1, aggs2, tags2, 2 * i + 2) && InHeap(aggs2, tags2, 2 * i + 2, u.right)
    ensures 2 * i + 2 < |aggs2| && aggs2[2 * i + 1] == u.left.agg && aggs2[2 * i + 2] == u.right.agg
    ensures i < |tags2| && tags2[i] == u.tag
    ensures InHeap(aggs2[i := u.agg], tags2, i, u)
    ensures SameElsewhere(aggs, tags, aggs2[i := u.agg], tags2, i)
  {
    LaidChildren(aggs2, AggregateOf, 2 * i + 2, u.right);
    hide Laid, Below, AgreeElsewhere;
    LaidBoth(tags, tags1, tags2, TagOf, i, u);
    LaidChildren(tags2, TagOf, i, u);
    SumInPlace(aggs, aggs1, aggs2, i, u);
  }

  lemma {:induction false} SumInPlace<S, A>(aggs: seq<S>, aggs1: seq<S>, aggs2: seq<S>, i: nat, u: Tree<S, A>)
    requires u.Node? && i < |aggs|
    requires AgreeElsewhere(aggs, aggs1, 2 * i + 1) && Laid(aggs1, AggregateOf, 2 * i + 1, u.left)
    requires AgreeElsewhere(aggs1, aggs2, 2 * i + 2) && Laid(aggs2, AggregateOf, 2 * i + 2, u.right)
    ensures 2 * i + 2 < |aggs2| && aggs2[2 * i + 1] == u.left.agg && aggs2[2 * i + 2] == u.right.agg
    ensures Laid(aggs2[i := u.agg], AggregateOf, i, u) && AgreeElsewhere(aggs, aggs2[i := u.agg], i)
  {
    hide Below;
    ElsewhereIsAside(aggs, aggs1, i, 2 * i + 1);
    ElsewhereIsAside(aggs1, aggs2, i, 2 * i + 2);
    LaidAgrees(aggs1, aggs2, AggregateOf, 2 * i + 1, u.left);
    LaidChildren(aggs2, AggregateOf, 2 * i + 1, u.left);
    LaidChildren(aggs2, AggregateOf, 2 * i + 2, u.right);
    hide Laid;
    LaidAbove(aggs2, AggregateOf, i, u);
    ElsewhereTransitive(aggs, aggs1, aggs2, i);
    ElsewhereTransitive(aggs, aggs2, aggs2[i := u.agg], i);
  }
}
