/**
 Queries, histories and the boundary theorem: what the tree of a version answers, against the element-wise oracle
 that applies every action to every element in chronological order.
 */
module Histories {
  import opened Wrappers
  import opened Canonical
  import opened Policies
  import opened TagTrees

  // ---------------------------------------------------------------- queries

  /** `query`: tags accumulate outermost first on the way down (include/valseg/policy_trees.hpp:319-335). */
  function Query<S, A>(p: Policy<S, A>, t: Tree<S, A>, lo: nat, hi: nat, l: nat, r: nat, inherited: A): S
    decreases t
  {
    if !Meets(lo, hi, l, r) then p.empty
    else if t.Leaf? || Covered(lo, hi, l, r) then p.apply(inherited, t.agg, Length(lo, hi))
    else
      var mid := Midpoint(lo, hi);
      var next := p.compose(inherited, t.tag);
      p.combine(Query(p, t.left, lo, mid, l, r, next), Query(p, t.right, mid + 1, hi, l, r, next))
  }

  /** The same query in the machine representation: it answers only if every intermediate result is representable. */
  function TryQuery<S, A>(
      p: Policy<S, A>, t: Tree<S, A>, lo: nat, hi: nat, l: nat, r: nat, inherited: A): (answer: Option<S>)
    ensures answer.Some? ==> answer.value == Query(p, t, lo, hi, l, r, inherited)
    decreases t
  {
    if !Meets(lo, hi, l, r) then Some(p.empty)
    else if t.Leaf? || Covered(lo, hi, l, r) then p.TryApply(inherited, t.agg, Length(lo, hi))
    else
      var mid := Midpoint(lo, hi);
      var next :- p.TryCompose(inherited, t.tag);
      var a :- TryQuery(p, t.left, lo, mid, l, r, next);
      var b :- TryQuery(p, t.right, mid + 1, hi, l, r, next);
      p.TryCombine(a, b)
  }

  /** Where no operation of the policy fails, every query is answered. */
  lemma {:induction false} QueryNeverFails<S(!new), A(!new)>(
      p: Policy<S, A>, t: Tree<S, A>, lo: nat, hi: nat, l: nat, r: nat, inherited: A)
    requires NeverFails(p)
    ensures TryQuery(p, t, lo, hi, l, r, inherited).Some?
    decreases t
  {
    if t.Node? {
      var next := p.compose(inherited, t.tag);
      QueryNeverFails(p, t.left, lo, Midpoint(lo, hi), l, r, next);
      QueryNeverFails(p, t.right, Midpoint(lo, hi) + 1, hi, l, r, next);
    }
  }

  /** Lemma 9.2(b): a query combines, in index order, the represented elements with the inherited action outside. */
  lemma {:induction false} QueryIsFold<S(!new), A(!new)>(
      p: Policy<S, A>, t: Tree<S, A>, lo: nat, hi: nat, l: nat, r: nat, inherited: A)
    requires Lawful(p) && Consistent(p, t, lo, hi) && p.validAction(inherited)
    ensures Query(p, t, lo, hi, l, r, inherited) == FoldRange(p, MapApply(p, inherited, Elements(p, t)), lo, l, r)
    decreases hi - lo
  {
    if !Meets(lo, hi, l, r) {
      AggregateIsFold(p, t, lo, hi);
      FoldRangeOutside(p, MapApply(p, inherited, Elements(p, t)), lo, l, r);
    } else if t.Leaf? || Covered(lo, hi, l, r) {
      CoveredQueryIsFold(p, t, lo, hi, l, r, inherited);
    } else {
      hide MapApply, FoldRange, Elements, Lawful;
      var mid := Midpoint(lo, hi);
      var next := p.compose(inherited, t.tag);
      ComposedValid(p, inherited, t.tag);
      QueryIsFold(p, t.left, lo, mid, l, r, next);
      QueryIsFold(p, t.right, mid + 1, hi, l, r, next);
      NodeFoldSplits(p, t, lo, hi, l, r, inherited);
    }
  }

  lemma ComposedValid<S(!new), A(!new)>(p: Policy<S, A>, outer: A, inner: A)
    requires Lawful(p) && p.validAction(outer) && p.validAction(inner)
    ensures p.validAction(p.compose(outer, inner))
  {
    assert MonoidAt(p, outer, outer, inner);
  }

  /** A covered node answers with its aggregate under the inherited action. */
  lemma {:induction false} CoveredQueryIsFold<S(!new), A(!new)>(
      p: Policy<S, A>, t: Tree<S, A>, lo: nat, hi: nat, l: nat, r: nat, inherited: A)
    requires Lawful(p) && Consistent(p, t, lo, hi) && p.validAction(inherited) && Covered(lo, hi, l, r)
    ensures p.apply(inherited, t.agg, Length(lo, hi))
         == FoldRange(p, MapApply(p, inherited, Elements(p, t)), lo, l, r)
  {
    var xs := Elements(p, t);
    AggregateIsFold(p, t, lo, hi);
    FoldMap(p, inherited, xs);
    var ys := MapApply(p, inherited, xs);
    hide Lawful, Consistent, Elements, Fold, FoldRange, MapApply;
    FoldRangeIsSliceTail(p, ys, lo, l, hi);
    FoldRangeWider(p, ys, lo, l, hi, r);
    assert ys[..hi + 1 - lo] == ys;
  }

  /** A partially covered node: the two children under the composed action. */
  lemma {:induction false} NodeFoldSplits<S(!new), A(!new)>(
      p: Policy<S, A>, t: Tree<S, A>, lo: nat, hi: nat, l: nat, r: nat, inherited: A)
    requires Lawful(p) && Consistent(p, t, lo, hi) && t.Node? && p.validAction(inherited)
    ensures var next, mid := p.compose(inherited, t.tag), Midpoint(lo, hi);
            FoldRange(p, MapApply(p, inherited, Elements(p, t)), lo, l, r)
            == p.combine(FoldRange(p, MapApply(p, next, Elements(p, t.left)), lo, l, r),
                         FoldRange(p, MapApply(p, next, Elements(p, t.right)), mid + 1, l, r))
  {
    hide Lawful, FoldRange, Fold, MapApply;
    var mid, next := Midpoint(lo, hi), p.compose(inherited, t.tag);
    ComposedValid(p, inherited, t.tag);
    AggregateIsFold(p, t.left, lo, mid);
    AggregateIsFold(p, t.right, mid + 1, hi);
    var ys, zs := Elements(p, t.left), Elements(p, t.right);
    MapLength(p, next, ys);
    MapCompose(p, inherited, t.tag, ys + zs);
    MapConcat(p, next, ys, zs);
    MapApplyValid(p, next, ys);
    MapApplyValid(p, next, zs);
    FoldRangeConcat(p, MapApply(p, next, ys), MapApply(p, next, zs), lo, l, r);
  }

  lemma {:induction false} FoldRangeWider<S, A>(p: Policy<S, A>, xs: seq<S>, base: nat, l: nat, r: nat, r': nat)
    requires base + |xs| <= r + 1 && r <= r'
    ensures FoldRange(p, xs, base, l, r) == FoldRange(p, xs, base, l, r')
  {
    if xs != [] {
      FoldRangeWider(p, xs[1..], base + 1, l, r, r');
    }
  }

  /** Folding over a range that covers everything. */
  lemma {:induction false} CoveredFold<S, A>(p: Policy<S, A>, xs: seq<S>, lo: nat, hi: nat, l: nat, r: nat)
    requires lo <= hi && |xs| == hi - lo + 1 && Covered(lo, hi, l, r)
    ensures FoldRange(p, xs, lo, l, r) == Fold(p, xs)
  {
    hide Fold, FoldRange;
    FoldRangeIsSliceTail(p, xs, lo, l, hi);
    FoldRangeWider(p, xs, lo, l, hi, r);
    assert xs[..hi + 1 - lo] == xs;
  }

  // ---------------------------------------------------------------- histories

  /** One entry of a history: an action on the inclusive range [left, right]. */
  datatype Entry<A> = Entry(left: nat, right: nat, action: A)

  predicate RangesIn<A>(n: nat, h: seq<Entry<A>>) {
    forall i :: 0 <= i < |h| ==> ValidRange(n, h[i].left, h[i].right)
  }

  ghost predicate ValidHistory<S, A>(p: Policy<S, A>, n: nat, h: seq<Entry<A>>) {
    RangesIn(n, h) && forall i :: 0 <= i < |h| ==> p.validAction(h[i].action)
  }

  /** The tree `build` constructs. */
  function Build<S, A>(p: Policy<S, A>, xs: seq<S>, lo: nat, hi: nat): Tree<S, A>
    requires lo <= hi < |xs|
    decreases hi - lo
  {
    if lo == hi then Leaf(xs[lo], p.identity)
    else
      var left := Build(p, xs, lo, Midpoint(lo, hi));
      var right := Build(p, xs, Midpoint(lo, hi) + 1, hi);
      Node(p.combine(left.agg, right.agg), p.identity, left, right)
  }

  /** The root of the next version: shared for the identity action, updated otherwise. */
  function Step<S, A(==)>(p: Policy<S, A>, push: bool, t: Tree<S, A>, last: nat, e: Entry<A>): Tree<S, A>
  {
    if e.action == p.identity then t else Update(p, push, t, 0, last, e.left, e.right, e.action)
  }

  /** The tree of the version a whole history publishes. */
  function Run<S, A(==)>(p: Policy<S, A>, push: bool, xs: seq<S>, h: seq<Entry<A>>): Tree<S, A>
    requires xs != []
  {
    if h == [] then Build(p, xs, 0, |xs| - 1)
    else Step(p, push, Run(p, push, xs, h[..|h| - 1]), |xs| - 1, h[|h| - 1])
  }

  lemma {:induction false} RunShaped<S, A>(p: Policy<S, A>, push: bool, xs: seq<S>, h: seq<Entry<A>>)
    requires xs != []
    ensures Shaped(Run(p, push, xs, h), 0, |xs| - 1)
  {
    if h == [] {
      BuildShaped(p, xs, 0, |xs| - 1);
    } else {
      var e := h[|h| - 1];
      RunShaped(p, push, xs, h[..|h| - 1]);
      UpdateShaped(p, push, Run(p, push, xs, h[..|h| - 1]), 0, |xs| - 1, e.left, e.right, e.action);
    }
  }

  lemma {:induction false} BuildShaped<S, A>(p: Policy<S, A>, xs: seq<S>, lo: nat, hi: nat)
    requires lo <= hi < |xs|
    ensures Shaped(Build(p, xs, lo, hi), lo, hi)
    decreases hi - lo
  {
    if lo < hi {
      BuildShaped(p, xs, lo, Midpoint(lo, hi));
      BuildShaped(p, xs, Midpoint(lo, hi) + 1, hi);
    }
  }

  /** The chronological semantics: the element array after a history. */
  ghost function Oracle<S, A>(p: Policy<S, A>, xs: seq<S>, h: seq<Entry<A>>): (ys: seq<S>)
    ensures |ys| == |xs|
  {
    if h == [] then xs
    else
      var e := h[|h| - 1];
      ApplyRange(p, e.action, Oracle(p, xs, h[..|h| - 1]), 0, e.left, e.right)
  }

  lemma {:induction false} BuildElements<S(!new), A(!new)>(p: Policy<S, A>, xs: seq<S>, lo: nat, hi: nat)
    requires Lawful(p) && lo <= hi < |xs| && AllValid(p, xs)
    ensures Consistent(p, Build(p, xs, lo, hi), lo, hi)
    ensures Elements(p, Build(p, xs, lo, hi)) == xs[lo..hi + 1]
    decreases hi - lo
  {
    if lo == hi {
      IdentityValid(p);
    } else {
      hide Lawful, Elements, AllValid;
      IdentityValid(p);
      var mid := Midpoint(lo, hi);
      BuildElements(p, xs, lo, mid);
      BuildElements(p, xs, mid + 1, hi);
      var left, right := Build(p, xs, lo, mid), Build(p, xs, mid + 1, hi);
      FreshAggregate(p, left, right, lo, hi);
      FreshElements(p, left, right, xs, lo, mid, hi);
    }
  }

  lemma FreshElements<S(!new), A(!new)>(
      p: Policy<S, A>, left: Tree<S, A>, right: Tree<S, A>, xs: seq<S>, lo: nat, mid: nat, hi: nat)
    requires Lawful(p) && AllValid(p, xs) && lo <= mid < hi < |xs|
    requires Elements(p, left) == xs[lo..mid + 1] && Elements(p, right) == xs[mid + 1..hi + 1]
    ensures forall agg :: Elements(p, Node(agg, p.identity, left, right)) == xs[lo..hi + 1]
  {
    assert xs[lo..mid + 1] + xs[mid + 1..hi + 1] == xs[lo..hi + 1];
    MapIdentity(p, xs[lo..hi + 1]);
  }

  /** A node without a tag aggregates exactly its children. */
  lemma {:induction false} FreshAggregate<S(!new), A(!new)>(
      p: Policy<S, A>, left: Tree<S, A>, right: Tree<S, A>, lo: nat, hi: nat)
    requires Lawful(p) && lo < hi
    requires Consistent(p, left, lo, Midpoint(lo, hi)) && Consistent(p, right, Midpoint(lo, hi) + 1, hi)
    ensures p.apply(p.identity, p.combine(left.agg, right.agg), Length(lo, hi)) == p.combine(left.agg, right.agg)
  {
    var mid := Midpoint(lo, hi);
    AggregateValid(p, left, lo, mid);
    AggregateValid(p, right, mid + 1, hi);
    assert CombineClosedAt(p, left.agg, mid - lo + 1, right.agg, hi - mid);
    assert NeutralAt(p, p.combine(left.agg, right.agg), Length(lo, hi));
  }

  lemma {:induction false} OracleValid<S(!new), A(!new)>(p: Policy<S, A>, xs: seq<S>, h: seq<Entry<A>>)
    requires Lawful(p) && AllValid(p, xs) && ValidHistory(p, |xs|, h)
    ensures AllValid(p, Oracle(p, xs, h))
  {
    if h != [] {
      var e := h[|h| - 1];
      OracleValid(p, xs, h[..|h| - 1]);
      ApplyRangeValid(p, e.action, Oracle(p, xs, h[..|h| - 1]), 0, e.left, e.right);
    }
  }

  /**
   Over every history, the tree of the last version represents the oracle's array: for copy-on-push with any lawful
   policy (Theorem 9.8), for retained tags when the induced actions commute (Theorem 9.4).
   */
  lemma {:induction false} RunRepresentsOracle<S(!new), A(!new)>(
      p: Policy<S, A>, push: bool, xs: seq<S>, h: seq<Entry<A>>)
    requires Lawful(p) && xs != [] && AllValid(p, xs) && ValidHistory(p, |xs|, h)
    requires push || InducedActionsCommute(p)
    ensures Consistent(p, Run(p, push, xs, h), 0, |xs| - 1)
    ensures Elements(p, Run(p, push, xs, h)) == Oracle(p, xs, h)
  {
    if h == [] {
      BuildElements(p, xs, 0, |xs| - 1);
      assert xs[0..|xs|] == xs;
    } else {
      var before := h[..|h| - 1];
      var e := h[|h| - 1];
      RunRepresentsOracle(p, push, xs, before);
      if e.action == p.identity {
        OracleValid(p, xs, before);
        IdentityRange(p, Oracle(p, xs, before), 0, e.left, e.right);
      } else {
        UpdateElements(p, push, Run(p, push, xs, before), 0, |xs| - 1, e.left, e.right, e.action);
      }
    }
  }

  lemma IdentityRange<S(!new), A(!new)>(p: Policy<S, A>, xs: seq<S>, base: nat, l: nat, r: nat)
    requires Lawful(p) && AllValid(p, xs)
    ensures ApplyRange(p, p.identity, xs, base, l, r) == xs
  {
    MapIdentity(p, xs);
    forall i | 0 <= i < |xs| ensures ApplyRange(p, p.identity, xs, base, l, r)[i] == xs[i] {
      assert MapApply(p, p.identity, xs)[i] == xs[i];
    }
  }

  // ---------------------------------------------------------------- answers and the boundary

  /** The answer of the version published by `h`, in exact arithmetic. */
  function Answer<S, A(==)>(p: Policy<S, A>, push: bool, xs: seq<S>, h: seq<Entry<A>>, l: nat, r: nat): S
    requires xs != []
  {
    Query(p, Run(p, push, xs, h), 0, |xs| - 1, l, r, p.identity)
  }

  /** The oracle's answer: its elements l, ..., r combined in index order. */
  ghost function Expected<S, A>(p: Policy<S, A>, xs: seq<S>, h: seq<Entry<A>>, l: nat, r: nat): S
    requires ValidRange(|xs|, l, r)
  {
    Fold(p, Oracle(p, xs, h)[l..r + 1])
  }

  /** Historical query correctness for every lawful policy (push) or every commuting one (retained tags). */
  lemma AnswerIsExpected<S(!new), A(!new)>(
      p: Policy<S, A>, push: bool, xs: seq<S>, h: seq<Entry<A>>, l: nat, r: nat)
    requires Lawful(p) && AllValid(p, xs) && ValidHistory(p, |xs|, h) && ValidRange(|xs|, l, r)
    requires push || InducedActionsCommute(p)
    ensures Answer(p, push, xs, h, l, r) == Expected(p, xs, h, l, r)
  {
    hide Lawful, Consistent, AllValid, ValidHistory, Run, Elements, Oracle, FoldRange, Fold, InducedActionsCommute;
    RunRepresentsOracle(p, push, xs, h);
    var t, ys := Run(p, push, xs, h), Oracle(p, xs, h);
    OracleValid(p, xs, h);
    MapIdentity(p, ys);
    IdentityValid(p);
    QueryIsFold(p, t, 0, |xs| - 1, l, r, p.identity);
    FoldRangeIsSlice(p, ys, 0, l, r);
  }

  /** The retained-tag tree is correct on every history over arrays of n elements, at every range. */
  ghost predicate RetainedTagCorrect<S(!new), A(!new)>(p: Policy<S, A>, n: nat) {
    forall xs: seq<S>, h: seq<Entry<A>>, l: nat, r: nat ::
      |xs| == n && AllValid(p, xs) && ValidHistory(p, n, h) && ValidRange(n, l, r) ==>
        Answer(p, false, xs, h, l, r) == Expected(p, xs, h, l, r)
  }

  /** The leftmost leaf of a tree whose tags are all the identity represents the first element. */
  lemma {:induction false} FirstOfFresh<S(!new), A(!new)>(
      p: Policy<S, A>, xs: seq<S>, lo: nat, hi: nat, f: A, inherited: A)
    requires Lawful(p) && lo <= hi < |xs| && AllValid(p, xs) && p.validAction(f) && p.validAction(inherited)
    ensures Query(p, Update(p, false, Build(p, xs, lo, hi), lo, hi, 0, lo, f), lo, hi, 0, lo, inherited)
         == p.apply(inherited, p.apply(f, xs[lo], 1), 1)
    decreases hi - lo
  {
    assert ApplyClosedAt(p, f, xs[lo], 1);
    assert ApplyClosedAt(p, inherited, p.apply(f, xs[lo], 1), 1);
    assert NeutralAt(p, p.apply(inherited, p.apply(f, xs[lo], 1), 1), 1);
    assert MonoidAt(p, inherited, inherited, inherited);
    if lo < hi {
      FirstOfFresh(p, xs, lo, Midpoint(lo, hi), f, inherited);
    }
  }

  /** The two-step history of docs/proof.md 9.4: g on the whole array, then f on element 0, read at element 0. */
  function Witness<A>(n: nat, f: A, g: A): (h: seq<Entry<A>>)
    requires n >= 2
    ensures RangesIn(n, h)
  {
    [Entry(0, n - 1, g), Entry(0, 0, f)]
  }

  lemma WitnessAnswer<S(!new), A(!new)>(p: Policy<S, A>, n: nat, f: A, g: A, xs: seq<S>)
    requires Lawful(p) && |xs| == n >= 2 && AllValid(p, xs) && p.validAction(f) && p.validAction(g)
    requires g != p.identity && f != p.identity
    ensures Answer(p, false, xs, Witness(n, f, g), 0, 0) == p.apply(g, p.apply(f, xs[0], 1), 1)
  {
    var h := Witness(n, f, g);
    assert h[..1] == [h[0]] && h[..1][..0] == [];
    var t := Build(p, xs, 0, n - 1);
    var mid := Midpoint(0, n - 1);
    assert MonoidAt(p, p.identity, p.identity, g);
    var u := Update(p, false, t, 0, n - 1, 0, n - 1, g);
    assert Run(p, false, xs, h[..1]) == u;
    assert u.tag == g && u.left == Build(p, xs, 0, mid);
    FirstOfFresh(p, xs, 0, mid, f, p.compose(p.identity, g));
    var v := Update(p, false, u, 0, n - 1, 0, 0, f);
    assert Run(p, false, xs, h) == v;
    assert v == Rebuilt(p, false, u, 0, n - 1, 0, 0, f);
    assert v.left == Update(p, false, Build(p, xs, 0, mid), 0, mid, 0, 0, f) && v.tag == g;
    assert Query(p, v.right, mid + 1, n - 1, 0, 0, p.compose(p.identity, g)) == p.empty;
    var fx := p.apply(f, xs[0], 1);
    assert ApplyClosedAt(p, f, xs[0], 1);
    assert ApplyClosedAt(p, g, fx, 1);
    assert NeutralAt(p, p.apply(g, fx, 1), 1);
  }

  lemma WitnessExpected<S(!new), A(!new)>(p: Policy<S, A>, n: nat, f: A, g: A, xs: seq<S>)
    requires Lawful(p) && |xs| == n >= 2 && AllValid(p, xs) && p.validAction(f) && p.validAction(g)
    ensures Expected(p, xs, Witness(n, f, g), 0, 0) == p.apply(f, p.apply(g, xs[0], 1), 1)
  {
    var h := Witness(n, f, g);
    assert h[..1] == [h[0]] && h[..1][..0] == [];
    var gx := p.apply(g, xs[0], 1);
    assert ApplyClosedAt(p, g, xs[0], 1);
    assert ApplyClosedAt(p, f, gx, 1);
    assert Oracle(p, xs, h[..1])[0] == gx;
    assert Oracle(p, xs, h)[0..1] == [p.apply(f, gx, 1)];
    LeafIsFold(p, p.apply(f, gx, 1));
  }

  /**
   The boundary (Corollary 9.6), at every array size n >= 2 separately: retaining tags is correct on every history if
   and only if the induced actions commute.
   */
  lemma BoundaryTheorem<S(!new), A(!new)>(p: Policy<S, A>, n: nat)
    requires Lawful(p) && n >= 2
    ensures RetainedTagCorrect(p, n) <==> InducedActionsCommute(p)
  {
    if InducedActionsCommute(p) {
      forall xs: seq<S>, h: seq<Entry<A>>, l: nat, r: nat
        | |xs| == n && AllValid(p, xs) && ValidHistory(p, n, h) && ValidRange(n, l, r)
        ensures Answer(p, false, xs, h, l, r) == Expected(p, xs, h, l, r)
      {
        AnswerIsExpected(p, false, xs, h, l, r);
      }
    }
    if RetainedTagCorrect(p, n) {
      forall f: A, g: A, x: S ensures CommuteAt(p, f, g, x) {
        CorrectnessForcesCommuting(p, n, f, g, x);
      }
    }
  }

  lemma CorrectnessForcesCommuting<S(!new), A(!new)>(p: Policy<S, A>, n: nat, f: A, g: A, x: S)
    requires Lawful(p) && n >= 2 && RetainedTagCorrect(p, n)
    ensures CommuteAt(p, f, g, x)
  {
    if p.validAction(f) && p.validAction(g) && p.validAggregate(x, 1) {
      if f == p.identity || g == p.identity {
        assert NeutralAt(p, x, 1);
        assert ApplyClosedAt(p, f, x, 1) && ApplyClosedAt(p, g, x, 1);
        assert NeutralAt(p, p.apply(f, x, 1), 1) && NeutralAt(p, p.apply(g, x, 1), 1);
      } else {
        var xs := seq(n, i => x);
        assert AllValid(p, xs) && ValidHistory(p, n, Witness(n, f, g));
        WitnessAnswer(p, n, f, g, xs);
        WitnessExpected(p, n, f, g, xs);
      }
    }
  }

  /** A single element has no ancestor to hold an older tag: with n = 1 every lawful policy is answered correctly. */
  lemma SingletonAlwaysCorrect<S(!new), A(!new)>(p: Policy<S, A>)
    requires Lawful(p)
    ensures RetainedTagCorrect(p, 1)
  {
    forall xs: seq<S>, h: seq<Entry<A>>, l: nat, r: nat
      | |xs| == 1 && AllValid(p, xs) && ValidHistory(p, 1, h) && ValidRange(1, l, r)
      ensures Answer(p, false, xs, h, l, r) == Expected(p, xs, h, l, r)
    {
      SingletonRun(p, xs, h);
      AnswerIsExpected(p, true, xs, h, l, r);
    }
  }

  lemma {:induction false} SingletonRun<S(!new), A(!new)>(p: Policy<S, A>, xs: seq<S>, h: seq<Entry<A>>)
    requires |xs| == 1 && RangesIn(1, h)
    ensures Run(p, false, xs, h) == Run(p, true, xs, h)
  {
    if h != [] {
      SingletonRun(p, xs, h[..|h| - 1]);
    }
  }
}
