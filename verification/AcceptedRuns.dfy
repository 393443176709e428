/**
 Which logs a guarded structure accepts entry by entry, and the bound its guard has then committed
 (include/valseg/detail/sum_add_domain.hpp:89-117).  Both are determined by the initial array and the log alone.
 */
module AcceptedRuns {
  import opened Wrappers
  import opened Canonical
  import opened Checked
  import opened Policies
  import opened TagTrees
  import opened Histories
  import opened SumAdd
  import opened RangeSum
  import opened NumericDomain
  import opened Acceptance

  /** The largest magnitude of an element. */
  function LargestOf(values: seq<int>): nat {
    if values == [] then 0
    else
      var rest, last := LargestOf(values[..|values| - 1]), Magnitude(values[|values| - 1]);
      if last > rest then last else rest
  }

  lemma {:induction false} LargestIs(values: seq<int>, bound: nat)
    ensures Largest(bound, values) <==> bound == LargestOf(values)
  {
    LargestOfIsLargest(values);
    if Largest(bound, values) {
      LargestAreEqual(bound, LargestOf(values), values);
    }
  }

  lemma {:induction false} LargestOfIsLargest(values: seq<int>)
    ensures Largest(LargestOf(values), values)
  {
    if values != [] {
      LargestOfIsLargest(values[..|values| - 1]);
      assert forall i :: 0 <= i < |values| - 1 ==> values[i] == values[..|values| - 1][i];
      if LargestOf(values) != 0 {
        if LargestOf(values) == Magnitude(values[|values| - 1]) {
        } else {
          var i :| 0 <= i < |values| - 1 && Magnitude(values[..|values| - 1][i]) == LargestOf(values);
          assert Magnitude(values[i]) == LargestOf(values);
        }
      }
    }
  }

  lemma LargestAreEqual(a: nat, b: nat, values: seq<int>)
    requires Largest(a, values) && Largest(b, values)
    ensures a == b
  {
  }

  /** The bound committed after a log, if every entry is accepted in its turn. */
  ghost function BoundAfter(push: bool, xs: seq<int>, log: seq<Entry<int>>): Option<nat> {
    if log == [] then if CanonicalSumsFit(xs) then Some(LargestOf(xs)) else None
    else
      var before, e := log[..|log| - 1], log[|log| - 1];
      var bound :- BoundAfter(push, xs, before);
      if !Accepted(push, xs, before, bound, e.left, e.right, e.action) then None
      else if e.action == 0 then Some(bound)
      else if ProvesRepresentability(bound + Magnitude(e.action), |xs|) then Some(bound + Magnitude(e.action))
      else Some(LargestOf(ArrayAfter(xs, log)))
  }

  /** One more entry: accepted or not, and with the bound that a guard commits. */
  lemma {:induction false} BoundNext(push: bool, xs: seq<int>, log: seq<Entry<int>>, e: Entry<int>, next: nat)
    requires BoundAfter(push, xs, log).Some?
    ensures var bound := BoundAfter(push, xs, log).value;
            && (BoundAfter(push, xs, log + [e]).Some? <==>
                  Accepted(push, xs, log, bound, e.left, e.right, e.action))
            && (Accepted(push, xs, log, bound, e.left, e.right, e.action)
                && Commits(xs, log, bound, e.left, e.right, e.action, next) ==>
                  BoundAfter(push, xs, log + [e]) == Some(next))
  {
    hide Accepted, Largest, ProvesRepresentability;
    assert (log + [e])[..|log|] == log;
    LargestIs(ArrayAfter(xs, log + [e]), next);
  }

  lemma BoundInitially(push: bool, xs: seq<int>, bound: nat)
    ensures BoundAfter(push, xs, []).Some? <==> CanonicalSumsFit(xs)
    ensures CanonicalSumsFit(xs) && Largest(bound, xs) ==> BoundAfter(push, xs, []) == Some(bound)
  {
    LargestIs(xs, bound);
  }

  /** A log that goes through has only prefixes that do. */
  lemma {:induction false} PrefixGoes(push: bool, xs: seq<int>, log: seq<Entry<int>>, k: nat)
    requires k <= |log| && BoundAfter(push, xs, log).Some?
    ensures BoundAfter(push, xs, log[..k]).Some?
  {
    if k < |log| {
      PrefixGoes(push, xs, log[..|log| - 1], k);
      assert log[..|log| - 1][..k] == log[..k];
    } else {
      assert log[..k] == log;
    }
  }
}
