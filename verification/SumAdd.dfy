/** SumAddPolicy (include/valseg/policy.hpp:162-220): range-add actions over range-sum aggregates. */
module SumAdd {
  import opened Wrappers
  import opened Policies
  import opened Checked

  /** SumAddPolicy: exact operations over the integers, representable when the C++ checks pass. */
  function SumAddPolicy(): Policy<int, int> {
    Policy(
      (x: int, y: int) => x + y,
      0,
      (newer: int, older: int) => newer + older,
      0,
      (d: int, x: int, n: nat) => x + d * n,
      (x: int, y: int) => Fits(x + y),
      (newer: int, older: int) => Fits(newer + older),
      (d: int, x: int, n: nat) => Fits(n) && Fits(d * n) && Fits(x + d * n),
      (x: int, n: nat) => n == 0 ==> x == 0,
      (d: int) => true)
  }

  lemma ZeroIsIdentity()
    ensures SumAddPolicy().identity == 0
  {
  }

  /** SumAddPolicy::apply, as the checked operations evaluate it. */
  function CheckedApply(d: int, x: int, length: nat): (y: Option<int>)
    requires Fits(d) && Fits(x)
    ensures y == SumAddPolicy().TryApply(d, x, length)
  {
    var signed :- CheckedLength(length);
    var delta :- CheckedMultiply(d, signed);
    CheckedAdd(x, delta)
  }

  /** What applying a delta to a sum evaluates. */
  lemma ApplyIs(value: int, sum: int, length: nat)
    ensures var next := SumAddPolicy().TryApply(value, sum, length);
            && (next.Some? <==> Fits(length) && Fits(value * length) && Fits(sum + value * length))
            && (next.Some? ==> next.value == sum + value * length)
  {
  }

  lemma SumAddDistributes(d: int, x: int, m: nat, y: int, n: nat)
    ensures DistributesAt(SumAddPolicy(), d, x, m, y, n)
  {
    assert d * (m + n) == d * m + d * n;
  }

  lemma SumAddComposes(g: int, f: int, x: int, n: nat)
    ensures ComposeAt(SumAddPolicy(), g, f, x, n)
  {
    assert (g + f) * n == g * n + f * n;
  }

  /** SumAddPolicy is a valid policy whose induced actions commute. */
  lemma SumAddLawful()
    ensures Lawful(SumAddPolicy()) && InducedActionsCommute(SumAddPolicy())
  {
    hide DistributesAt, ComposeAt;
    var p := SumAddPolicy();
    forall d: int, x: int, m: nat, y: int, n: nat ensures DistributesAt(p, d, x, m, y, n) {
      SumAddDistributes(d, x, m, y, n);
    }
    forall g: int, f: int, x: int, n: nat ensures ComposeAt(p, g, f, x, n) {
      SumAddComposes(g, f, x, n);
    }
  }
}
