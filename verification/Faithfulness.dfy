/**
 Faithful actions (docs/proof.md, Corollary 9.7): when different actions induce different transformations, the
 boundary is commutativity of the action monoid itself; when they need not, it is not.
 */
module Faithfulness {
  import opened Policies
  import opened Histories
  import opened Checked
  import opened SumAdd
  import opened MinAdd
  import opened AffineSumMod

  /** Two actions with the same effect on every element are the same action. */
  ghost predicate Faithful<S(!new), A(!new)>(p: Policy<S, A>) {
    forall f: A, g: A :: p.validAction(f) && p.validAction(g) && SameEffect(p, f, g) ==> f == g
  }

  ghost predicate SameEffect<S(!new), A>(p: Policy<S, A>, f: A, g: A) {
    forall x: S :: p.validAggregate(x, 1) ==> p.apply(f, x, 1) == p.apply(g, x, 1)
  }

  /** The action monoid commutes. */
  ghost predicate ActionsCommute<S, A(!new)>(p: Policy<S, A>) {
    forall f: A, g: A :: ComposesCommute(p, f, g)
  }

  ghost predicate ComposesCommute<S, A>(p: Policy<S, A>, f: A, g: A) {
    p.validAction(f) && p.validAction(g) ==> p.compose(f, g) == p.compose(g, f)
  }

  /** Acting is a homomorphism: the composed action is the composed transformation. */
  lemma ComposedEffect<S(!new), A(!new)>(p: Policy<S, A>, f: A, g: A, x: S)
    requires Lawful(p) && p.validAction(f) && p.validAction(g) && p.validAggregate(x, 1)
    ensures p.apply(p.compose(f, g), x, 1) == p.apply(f, p.apply(g, x, 1), 1)
  {
    assert ComposeAt(p, f, g, x, 1);
  }

  lemma CommutingActions<S(!new), A(!new)>(p: Policy<S, A>)
    requires Lawful(p) && ActionsCommute(p)
    ensures InducedActionsCommute(p)
  {
    hide Lawful;
    forall f: A, g: A, x: S ensures CommuteAt(p, f, g, x) {
      assert ComposesCommute(p, f, g);
      if p.validAction(f) && p.validAction(g) && p.validAggregate(x, 1) {
        ComposedEffect(p, f, g, x);
        ComposedEffect(p, g, f, x);
      }
    }
  }

  lemma CommutingEffects<S(!new), A(!new)>(p: Policy<S, A>)
    requires Lawful(p) && Faithful(p) && InducedActionsCommute(p)
    ensures ActionsCommute(p)
  {
    hide Lawful;
    forall f: A, g: A ensures ComposesCommute(p, f, g) {
      if p.validAction(f) && p.validAction(g) {
        ComposedValid(p, f, g);
        ComposedValid(p, g, f);
        forall x: S | p.validAggregate(x, 1) ensures p.apply(p.compose(f, g), x, 1) == p.apply(p.compose(g, f), x, 1) {
          ComposedEffect(p, f, g, x);
          ComposedEffect(p, g, f, x);
          assert CommuteAt(p, f, g, x);
        }
        assert SameEffect(p, p.compose(f, g), p.compose(g, f));
      }
    }
  }

  /** For a faithful policy retained tags are right exactly when the action monoid commutes, at every size n >= 2. */
  lemma FaithfulBoundary<S(!new), A(!new)>(p: Policy<S, A>, n: nat)
    requires Lawful(p) && Faithful(p) && n >= 2
    ensures RetainedTagCorrect(p, n) <==> ActionsCommute(p)
  {
    hide Lawful, Faithful, ActionsCommute, InducedActionsCommute, RetainedTagCorrect;
    BoundaryTheorem(p, n);
    if ActionsCommute(p) {
      CommutingActions(p);
    }
    if InducedActionsCommute(p) {
      CommutingEffects(p);
    }
  }

  // ---------------------------------------------------------------- the policies of the library

  lemma SumAddFaithful()
    ensures Faithful(SumAddPolicy())
  {
    forall f: int, g: int | SameEffect(SumAddPolicy(), f, g) ensures f == g {
      assert SumAddPolicy().apply(f, 0, 1) == f && SumAddPolicy().apply(g, 0, 1) == g;
      assert SumAddPolicy().validAggregate(0, 1);
    }
  }

  lemma MinAddFaithful()
    ensures Faithful(MinAddPolicy())
  {
    forall f: int, g: int | SameEffect(MinAddPolicy(), f, g) ensures f == g {
      assert MinAddPolicy().validAggregate(Finite(0), 1);
      assert MinAddPolicy().apply(f, Finite(0), 1) == Finite(f) && MinAddPolicy().apply(g, Finite(0), 1) == Finite(g);
    }
  }

  /** Two affine maps that agree on the residues 0 and 1 agree as pairs. */
  lemma AffineFaithful(m: nat)
    requires m > 1
    ensures Faithful(AffineSumModPolicy(m))
  {
    var p := AffineSumModPolicy(m);
    forall f: Affine, g: Affine | p.validAction(f) && p.validAction(g) && SameEffect(p, f, g) ensures f == g {
      AtZeroAndOne(m, f);
      AtZeroAndOne(m, g);
      assert p.validAggregate(0, 1) && p.validAggregate(1, 1);
      hide AffineSumModPolicy;
      Cancel(f.scale, g.scale, f.shift, m);
    }
  }

  lemma AtZeroAndOne(m: nat, f: Affine)
    requires m > 1 && AffineSumModPolicy(m).validAction(f)
    ensures 0 <= f.scale < m && 0 <= f.shift < m
    ensures AffineSumModPolicy(m).apply(f, 0, 1) == f.shift
    ensures AffineSumModPolicy(m).apply(f, 1, 1) == (f.scale + f.shift) % m
  {
    Same(0, m);
    Same(1, m);
    Same(f.shift, m);
    Same(f.scale + f.shift, m);
    ApplyCongruent(f, 0, 0, 1, m);
    ApplyCongruent(f, 1, 1, 1, m);
    Reduced(f.scale + f.shift, f.scale + f.shift, m);
    hide Congruent;
    ReducedEqual(AffineSumModPolicy(m).apply(f, 0, 1), f.shift, f.shift, m);
    ReducedEqual(AffineSumModPolicy(m).apply(f, 1, 1), (f.scale + f.shift) % m, f.scale + f.shift, m);
  }

  lemma Cancel(a: int, c: int, b: int, m: nat)
    requires m > 0 && 0 <= a < m && 0 <= c < m
    ensures (a + b) % m == (c + b) % m ==> a == c
  {
    Same(a + b, m);
    Same(c + b, m);
    Same(c, m);
    Reduced(a + b, a + b, m);
    Reduced(c + b, c + b, m);
    if (a + b) % m == (c + b) % m {
      var j: int :| Differ((a + b) % m, a + b, j, m);
      var k: int :| Differ((a + b) % m, c + b, k, m);
      assert (k - j) * m == k * m - j * m;
      assert Differ(a, c, k - j, m);
      ReducedEqual(a, c, c, m);
    }
  }

  // ---------------------------------------------------------------- without faithfulness

  /** The additive action with an extra field that `apply` ignores and `compose` concatenates. */
  function Annotated(): Policy<int, (int, seq<int>)> {
    Policy(
      (x: int, y: int) => x + y,
      0,
      (newer: (int, seq<int>), older: (int, seq<int>)) => (newer.0 + older.0, newer.1 + older.1),
      (0, []),
      (d: (int, seq<int>), x: int, n: nat) => x + d.0 * n,
      (x: int, y: int) => true,
      (newer: (int, seq<int>), older: (int, seq<int>)) => true,
      (d: (int, seq<int>), x: int, n: nat) => true,
      (x: int, n: nat) => n == 0 ==> x == 0,
      (d: (int, seq<int>)) => true)
  }

  /** Its monoid does not commute, but retained tags are right for it at every size. */
  lemma WithoutFaithfulness(n: nat)
    requires n >= 2
    ensures Lawful(Annotated()) && !ActionsCommute(Annotated()) && RetainedTagCorrect(Annotated(), n)
  {
    AnnotatedLawful();
    hide Lawful, RetainedTagCorrect;
    BoundaryTheorem(Annotated(), n);
    var f, g := (0, [0]), (0, [1]);
    assert (f.1 + g.1)[0] != (g.1 + f.1)[0];
    assert Annotated().compose(f, g) != Annotated().compose(g, f);
    assert !ComposesCommute(Annotated(), f, g);
  }

  lemma AnnotatedLawful()
    ensures Lawful(Annotated()) && InducedActionsCommute(Annotated())
  {
    hide DistributesAt, ComposeAt, MonoidAt;
    var p := Annotated();
    forall d: (int, seq<int>), x: int, m: nat, y: int, n: nat ensures DistributesAt(p, d, x, m, y, n) {
      AnnotatedDistributes(d, x, m, y, n);
    }
    forall g: (int, seq<int>), f: (int, seq<int>), x: int, n: nat ensures ComposeAt(p, g, f, x, n) {
      AnnotatedComposes(g, f, x, n);
    }
    forall h: (int, seq<int>), g: (int, seq<int>), f: (int, seq<int>) ensures MonoidAt(p, h, g, f) {
      AnnotatedMonoid(h, g, f);
    }
  }

  lemma AnnotatedDistributes(d: (int, seq<int>), x: int, m: nat, y: int, n: nat)
    ensures DistributesAt(Annotated(), d, x, m, y, n)
  {
    assert d.0 * (m + n) == d.0 * m + d.0 * n;
  }

  lemma AnnotatedComposes(g: (int, seq<int>), f: (int, seq<int>), x: int, n: nat)
    ensures ComposeAt(Annotated(), g, f, x, n)
  {
    assert (g.0 + f.0) * n == g.0 * n + f.0 * n;
  }

  lemma AnnotatedMonoid(h: (int, seq<int>), g: (int, seq<int>), f: (int, seq<int>))
    ensures MonoidAt(Annotated(), h, g, f)
  {
    assert h.1 + (g.1 + f.1) == (h.1 + g.1) + f.1;
    assert [] + f.1 == f.1 && f.1 + [] == f.1;
  }
}
