/**
 How often the updates of a log visit each canonical node, counted from the log alone, and the sums over the canonical
 nodes that the node counts of the in-place structures are compared with.  A node is named by its interval and its
 parent's; the root's parent is [0, n], which no range covers.
 */
module Visits {
  import opened Canonical
  import opened Histories

  /** The nonzero updates that reach [lo, hi]: they meet it, and its parent [above, below] is not covered. */
  function VisitsTo(log: seq<Entry<int>>, above: nat, below: nat, lo: nat, hi: nat): nat {
    if log == [] then 0
    else
      var e := log[|log| - 1];
      VisitsTo(log[..|log| - 1], above, below, lo, hi)
      + if e.action != 0 && e.left <= hi && lo <= e.right && !(e.left <= above && below <= e.right) then 1 else 0
  }

  /** The sum of floor(m / 3) over the nodes of the subtree at [lo, hi], m the visits to the node. */
  function Thirds(log: seq<Entry<int>>, above: nat, below: nat, lo: nat, hi: nat): nat
    decreases Length(lo, hi)
  {
    VisitsTo(log, above, below, lo, hi) / 3
    + if lo < hi then
        Thirds(log, lo, hi, lo, Midpoint(lo, hi)) + Thirds(log, lo, hi, Midpoint(lo, hi) + 1, hi)
      else 0
  }

  /** The sum of `Thirds` over the nodes of the subtree: every floor(m / 3) once for each node above it and its own. */
  function NestedThirds(log: seq<Entry<int>>, above: nat, below: nat, lo: nat, hi: nat): nat
    decreases Length(lo, hi)
  {
    Thirds(log, above, below, lo, hi)
    + if lo < hi then
        NestedThirds(log, lo, hi, lo, Midpoint(lo, hi)) + NestedThirds(log, lo, hi, Midpoint(lo, hi) + 1, hi)
      else 0
  }

  /** Nonzero updates of a log. */
  function Nonzeros(log: seq<Entry<int>>): nat {
    if log == [] then 0 else Nonzeros(log[..|log| - 1]) + if log[|log| - 1].action != 0 then 1 else 0
  }

  /** Every nonzero update is of the whole array. */
  predicate WholeUpdates(n: nat, log: seq<Entry<int>>) {
    forall k :: 0 <= k < |log| && log[k].action != 0 ==> log[k].left == 0 && log[k].right == n - 1
  }

  lemma VisitsNext(log: seq<Entry<int>>, e: Entry<int>, above: nat, below: nat, lo: nat, hi: nat)
    ensures VisitsTo(log + [e], above, below, lo, hi)
         == VisitsTo(log, above, below, lo, hi)
            + if e.action != 0 && Meets(lo, hi, e.left, e.right) && !Covered(above, below, e.left, e.right) then 1
              else 0
  {
    assert (log + [e])[..|log|] == log;
  }

  lemma {:induction false} NothingVisited(above: nat, below: nat, lo: nat, hi: nat)
    ensures VisitsTo([], above, below, lo, hi) == 0
    ensures Thirds([], above, below, lo, hi) == 0
    decreases Length(lo, hi)
  {
    if lo < hi {
      NothingVisited(lo, hi, lo, Midpoint(lo, hi));
      NothingVisited(lo, hi, Midpoint(lo, hi) + 1, hi);
    }
  }

  /** Updates of the whole array visit the root alone. */
  lemma {:induction false} WholeVisits(n: nat, log: seq<Entry<int>>)
    requires n > 0 && WholeUpdates(n, log)
    ensures VisitsTo(log, 0, n, 0, n - 1) == Nonzeros(log)
  {
    if log != [] {
      WholeVisits(n, log[..|log| - 1]);
    }
  }

  /** Nothing is visited below a parent that is never entered. */
  lemma {:induction false} UnenteredVisits(n: nat, log: seq<Entry<int>>, above: nat, below: nat, lo: nat, hi: nat)
    requires n > 0 && WholeUpdates(n, log) && below <= n - 1
    ensures VisitsTo(log, above, below, lo, hi) == 0
  {
    if log != [] {
      UnenteredVisits(n, log[..|log| - 1], above, below, lo, hi);
    }
  }

  lemma {:induction false} UnenteredThirds(n: nat, log: seq<Entry<int>>, above: nat, below: nat, lo: nat, hi: nat)
    requires n > 0 && WholeUpdates(n, log) && below <= n - 1 && hi <= n - 1
    ensures Thirds(log, above, below, lo, hi) == 0 && NestedThirds(log, above, below, lo, hi) == 0
    decreases Length(lo, hi)
  {
    UnenteredVisits(n, log, above, below, lo, hi);
    if lo < hi {
      UnenteredThirds(n, log, lo, hi, lo, Midpoint(lo, hi));
      UnenteredThirds(n, log, lo, hi, Midpoint(lo, hi) + 1, hi);
    }
  }

  /** With every nonzero update on the whole array both sums are a third of their number. */
  lemma WholeThirds(n: nat, log: seq<Entry<int>>)
    requires n > 0 && WholeUpdates(n, log)
    ensures Thirds(log, 0, n, 0, n - 1) == Nonzeros(log) / 3 == NestedThirds(log, 0, n, 0, n - 1)
  {
    WholeVisits(n, log);
    if n > 1 {
      UnenteredThirds(n, log, 0, n - 1, 0, Midpoint(0, n - 1));
      UnenteredThirds(n, log, 0, n - 1, Midpoint(0, n - 1) + 1, n - 1);
    }
  }
}
