/** The update in the machine representation, and the records it appends. */
module CheckedUpdates {
  import opened Wrappers
  import opened Canonical
  import opened Policies
  import opened TagTrees
  import opened Histories
  import opened Frontier
  import opened Heights

  /** `build` in the machine representation. */
  function TryBuild<S, A>(p: Policy<S, A>, xs: seq<S>, lo: nat, hi: nat): (t: Option<Tree<S, A>>)
    requires lo <= hi < |xs|
    ensures t.Some? ==> t.value == Build(p, xs, lo, hi)
    decreases hi - lo
  {
    if lo == hi then Some(Leaf(xs[lo], p.identity))
    else
      var left :- TryBuild(p, xs, lo, Midpoint(lo, hi));
      var right :- TryBuild(p, xs, Midpoint(lo, hi) + 1, hi);
      var agg :- p.TryCombine(left.agg, right.agg);
      Some(Node(agg, p.identity, left, right))
  }

  function TryStamp<S, A>(p: Policy<S, A>, tag: A, t: Tree<S, A>, length: nat): (u: Option<Tree<S, A>>)
    ensures u.Some? ==> u.value == Stamp(p, tag, t, length)
  {
    var agg :- p.TryApply(tag, t.agg, length);
    var composed :- p.TryCompose(tag, t.tag);
    Some(if t.Leaf? then Leaf(agg, composed) else Node(agg, composed, t.left, t.right))
  }

  function TryOpen<S, A(==)>(p: Policy<S, A>, push: bool, t: Tree<S, A>, lo: nat, hi: nat): (u: Option<Tree<S, A>>)
    ensures u.Some? ==> u.value == Opened(p, push, t, lo, hi)
  {
    if Pushes(p, push, t) && t.Node? then
      var left :- TryStamp(p, t.tag, t.left, Length(lo, Midpoint(lo, hi)));
      var right :- TryStamp(p, t.tag, t.right, Length(Midpoint(lo, hi) + 1, hi));
      Some(Node(t.agg, p.identity, left, right))
    else
      Some(t)
  }

  function TryJoin<S, A>(p: Policy<S, A>, tag: A, left: Tree<S, A>, right: Tree<S, A>, length: nat)
    : (u: Option<Tree<S, A>>)
    ensures u.Some? ==> u.value == Node(p.apply(tag, p.combine(left.agg, right.agg), length), tag, left, right)
  {
    var children :- p.TryCombine(left.agg, right.agg);
    var agg :- p.TryApply(tag, children, length);
    Some(Node(agg, tag, left, right))
  }

  /** The update in the machine representation: it exists only if every operation it evaluates is representable. */
  function TryUpdate<S, A(==)>(
      p: Policy<S, A>, push: bool, t: Tree<S, A>, lo: nat, hi: nat, l: nat, r: nat, f: A): (u: Option<Tree<S, A>>)
    ensures u.Some? ==> u.value == Update(p, push, t, lo, hi, l, r, f)
    decreases Length(lo, hi), 1
  {
    if t.Leaf? || hi <= lo || Covered(lo, hi, l, r) then
      TryStamp(p, f, t, Length(lo, hi))
    else
      var open :- TryOpen(p, push, t, lo, hi);
      TryRebuild(p, push, open, lo, hi, l, r, f)
  }

  function TryRebuild<S, A(==)>(
      p: Policy<S, A>, push: bool, open: Tree<S, A>, lo: nat, hi: nat, l: nat, r: nat, f: A): (u: Option<Tree<S, A>>)
    requires open.Node? && lo < hi
    ensures u.Some? ==> u.value == Rebuilt(p, push, open, lo, hi, l, r, f)
    decreases Length(lo, hi), 0
  {
    var mid := Midpoint(lo, hi);
    var left :- if l <= mid then TryUpdate(p, push, open.left, lo, mid, l, r, f) else Some(open.left);
    var right :- if mid < r then TryUpdate(p, push, open.right, mid + 1, hi, l, r, f) else Some(open.right);
    TryJoin(p, open.tag, left, right, Length(lo, hi))
  }

  /** Where no operation of the policy fails, every array is built and every update goes through. */
  lemma {:induction false} BuildNeverFails<S(!new), A(!new)>(p: Policy<S, A>, xs: seq<S>, lo: nat, hi: nat)
    requires NeverFails(p) && lo <= hi < |xs|
    ensures TryBuild(p, xs, lo, hi).Some?
    decreases hi - lo
  {
    if lo < hi {
      BuildNeverFails(p, xs, lo, Midpoint(lo, hi));
      BuildNeverFails(p, xs, Midpoint(lo, hi) + 1, hi);
    }
  }

  lemma {:induction false} UpdateNeverFails<S(!new), A(!new)>(
      p: Policy<S, A>, push: bool, t: Tree<S, A>, lo: nat, hi: nat, l: nat, r: nat, f: A)
    requires NeverFails(p) && Shaped(t, lo, hi)
    ensures TryUpdate(p, push, t, lo, hi, l, r, f).Some?
    decreases Length(lo, hi)
  {
    if lo < hi && !Covered(lo, hi, l, r) {
      var open := Opened(p, push, t, lo, hi);
      assert TryOpen(p, push, t, lo, hi) == Some(open);
      UpdateNeverFails(p, push, open.left, lo, Midpoint(lo, hi), l, r, f);
      UpdateNeverFails(p, push, open.right, Midpoint(lo, hi) + 1, hi, l, r, f);
    }
  }

  /** The push frontier P: the partially covered visited nodes whose tag is pushed. */
  function PushCount<S, A(==)>(
      p: Policy<S, A>, push: bool, t: Tree<S, A>, lo: nat, hi: nat, l: nat, r: nat): (c: nat)
    ensures !push ==> c == 0
    ensures c <= Partial(lo, hi, l, r)
    decreases Length(lo, hi)
  {
    if !Meets(lo, hi, l, r) || Covered(lo, hi, l, r) || hi <= lo || t.Leaf? then 0
    else
      var mid := Midpoint(lo, hi);
      var open := Opened(p, push, t, lo, hi);
      (if Pushes(p, push, t) then 1 else 0)
      + PushCount(p, push, open.left, lo, mid, l, r)
      + PushCount(p, push, open.right, mid + 1, hi, l, r)
  }

  /** The records an update appends: F + 2P. */
  function Growth<S, A(==)>(p: Policy<S, A>, push: bool, t: Tree<S, A>, lo: nat, hi: nat, l: nat, r: nat): nat {
    Visited(lo, hi, l, r) + 2 * PushCount(p, push, t, lo, hi, l, r)
  }

  /** A partial descent appends the copy, the pushed children, and what the entered children append. */
  lemma {:induction false} GrowthSplits<S, A>(
      p: Policy<S, A>, push: bool, t: Tree<S, A>, lo: nat, hi: nat, l: nat, r: nat)
    requires t.Node? && lo < hi && Meets(lo, hi, l, r) && !Covered(lo, hi, l, r)
    ensures var open, mid := Opened(p, push, t, lo, hi), Midpoint(lo, hi);
            Growth(p, push, t, lo, hi, l, r)
            == 1 + (if push && t.tag != p.identity then 2 else 0)
               + (if l <= mid then Growth(p, push, open.left, lo, mid, l, r) else 0)
               + (if mid < r then Growth(p, push, open.right, mid + 1, hi, l, r) else 0)
  {
    var open, mid := Opened(p, push, t, lo, hi), Midpoint(lo, hi);
    var pl, pr := PushCount(p, push, open.left, lo, mid, l, r), PushCount(p, push, open.right, mid + 1, hi, l, r);
    assert PushCount(p, push, t, lo, hi, l, r) == (if Pushes(p, push, t) then 1 else 0) + pl + pr;
    assert Visited(lo, hi, l, r) == 1 + Visited(lo, mid, l, r) + Visited(mid + 1, hi, l, r);
    assert mid < l ==> pl == 0 && Visited(lo, mid, l, r) == 0;
    assert r <= mid ==> pr == 0 && Visited(mid + 1, hi, l, r) == 0;
    hide Partial, Decomposition, PushCount, Visited, Pushes, Opened;
  }

  /** Propositions 10.3 and 10.7: at most 4h - 3 records when tags are retained, 8h - 5 when they are pushed. */
  lemma {:induction false} GrowthBound<S, A>(
      p: Policy<S, A>, push: bool, t: Tree<S, A>, lo: nat, hi: nat, l: nat, r: nat)
    requires lo <= hi && l <= r && Meets(lo, hi, l, r) && Height(Length(lo, hi)) >= 2
    ensures var h := Height(Length(lo, hi));
            Growth(p, push, t, lo, hi, l, r) <= if push then 8 * h - 5 else 4 * h - 3
  {
    hide Visited, PushCount, Partial;
    FrontierBound(lo, hi, l, r);
    PartialBound(lo, hi, l, r);
  }

  /** The records a whole history appends: none for an identity action. */
  function RunGrowth<S, A(==)>(p: Policy<S, A>, push: bool, xs: seq<S>, h: seq<Entry<A>>): nat
    requires xs != []
  {
    if h == [] then 0
    else
      var before, e := h[..|h| - 1], h[|h| - 1];
      RunGrowth(p, push, xs, before)
      + if e.action == p.identity then 0
        else Growth(p, push, Run(p, push, xs, before), 0, |xs| - 1, e.left, e.right)
  }
}
