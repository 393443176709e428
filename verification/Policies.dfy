/**
 Aggregate/action policies (include/valseg/policy.hpp).  A policy is a value: its five exact operations, for each
 operation the predicate saying that the machine representation admits the result (otherwise C++ throws), and the
 domain of valid aggregates and actions the laws quantify over.
 */
module Policies {
  import opened Wrappers

  datatype Policy<!S, !A> = Policy(
    combine: (S, S) -> S,
    empty: S,
    compose: (A, A) -> A,
    identity: A,
    apply: (A, S, nat) -> S,
    combineFits: (S, S) -> bool,
    composeFits: (A, A) -> bool,
    applyFits: (A, S, nat) -> bool,
    validAggregate: (S, nat) -> bool,
    validAction: A -> bool)
  {
    function TryCombine(x: S, y: S): Option<S> {
      if combineFits(x, y) then Some(combine(x, y)) else None
    }

    function TryCompose(newer: A, older: A): Option<A> {
      if composeFits(newer, older) then Some(compose(newer, older)) else None
    }

    function TryApply(action: A, x: S, length: nat): Option<S> {
      if applyFits(action, x, length) then Some(apply(action, x, length)) else None
    }
  }

  // ---------------------------------------------------------------- laws

  // Every law is a predicate about one instance, and `Lawful` quantifies over those predicates: a law is used by
  // calling the lemma that names it, never by matching on the operations.

  ghost predicate CombineClosedAt<S, A>(p: Policy<S, A>, x: S, m: nat, y: S, n: nat) {
    p.validAggregate(x, m) && p.validAggregate(y, n) ==> p.validAggregate(p.combine(x, y), m + n)
  }

  ghost predicate NeutralAt<S, A>(p: Policy<S, A>, x: S, n: nat) {
    p.validAggregate(x, n) ==>
      && p.combine(p.empty, x) == x
      && p.combine(x, p.empty) == x
      && p.apply(p.identity, x, n) == x
      && (n == 0 ==> x == p.empty)
  }

  ghost predicate AssociativeAt<S, A>(p: Policy<S, A>, x: S, m: nat, y: S, n: nat, z: S, k: nat) {
    p.validAggregate(x, m) && p.validAggregate(y, n) && p.validAggregate(z, k) ==>
      p.combine(p.combine(x, y), z) == p.combine(x, p.combine(y, z))
  }

  ghost predicate ApplyClosedAt<S, A>(p: Policy<S, A>, f: A, x: S, n: nat) {
    p.validAction(f) && p.validAggregate(x, n) ==> p.validAggregate(p.apply(f, x, n), n)
  }

  ghost predicate ComposeAt<S, A>(p: Policy<S, A>, g: A, f: A, x: S, n: nat) {
    p.validAction(g) && p.validAction(f) && p.validAggregate(x, n) ==>
      p.apply(p.compose(g, f), x, n) == p.apply(g, p.apply(f, x, n), n)
  }

  ghost predicate DistributesAt<S, A>(p: Policy<S, A>, f: A, x: S, m: nat, y: S, n: nat) {
    p.validAction(f) && p.validAggregate(x, m) && p.validAggregate(y, n) ==>
      p.apply(f, p.combine(x, y), m + n) == p.combine(p.apply(f, x, m), p.apply(f, y, n))
  }

  ghost predicate MonoidAt<S, A>(p: Policy<S, A>, h: A, g: A, f: A) {
    p.validAction(h) && p.validAction(g) && p.validAction(f) ==>
      && p.validAction(p.compose(g, f))
      && p.compose(h, p.compose(g, f)) == p.compose(p.compose(h, g), f)
      && p.compose(p.identity, f) == f
      && p.compose(f, p.identity) == f
  }

  /** The laws of a valid policy, on its domain. */
  ghost predicate Lawful<S(!new), A(!new)>(p: Policy<S, A>) {
    && p.validAggregate(p.empty, 0)
    && p.validAction(p.identity)
    && (forall x: S, m: nat, y: S, n: nat :: CombineClosedAt(p, x, m, y, n))
    && (forall x: S, n: nat :: NeutralAt(p, x, n))
    && (forall x: S, m: nat, y: S, n: nat, z: S, k: nat :: AssociativeAt(p, x, m, y, n, z, k))
    && (forall f: A, x: S, n: nat :: ApplyClosedAt(p, f, x, n))
    && (forall g: A, f: A, x: S, n: nat :: ComposeAt(p, g, f, x, n))
    && (forall f: A, x: S, m: nat, y: S, n: nat :: DistributesAt(p, f, x, m, y, n))
    && (forall h: A, g: A, f: A :: MonoidAt(p, h, g, f))
  }

  /** Every operation is representable on all arguments. */
  ghost predicate NeverFails<S(!new), A(!new)>(p: Policy<S, A>) {
    && (forall x: S, y: S :: p.combineFits(x, y))
    && (forall g: A, f: A :: p.composeFits(g, f))
    && (forall f: A, x: S, n: nat :: p.applyFits(f, x, n))
  }

  lemma IdentityValid<S(!new), A(!new)>(p: Policy<S, A>)
    requires Lawful(p)
    ensures p.validAction(p.identity)
  {
  }

  /** The transformations induced by f and g commute on the element x. */
  ghost predicate CommuteAt<S, A>(p: Policy<S, A>, f: A, g: A, x: S) {
    p.validAction(f) && p.validAction(g) && p.validAggregate(x, 1) ==>
      p.apply(f, p.apply(g, x, 1), 1) == p.apply(g, p.apply(f, x, 1), 1)
  }

  /** kInducedActionsCommute: all induced transformations commute. */
  ghost predicate InducedActionsCommute<S(!new), A(!new)>(p: Policy<S, A>) {
    forall f: A, g: A, x: S :: CommuteAt(p, f, g, x)
  }
}
