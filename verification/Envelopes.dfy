/**
 Overflow freedom under the numeric envelope: while the sum of all magnitudes so far, times the array size, is
 representable, no checked operation of an update or of a query of any version fails
 (include/valseg/detail/sum_add_domain.hpp:89-153).
 */
module Envelopes {
  import opened Wrappers
  import opened Canonical
  import opened Checked
  import opened Policies
  import opened TagTrees
  import opened Histories
  import opened CheckedUpdates
  import opened Reads
  import opened SumAdd
  import opened RangeSum
  import opened NumericDomain

  function Larger(a: nat, b: nat): nat {
    if a < b then b else a
  }

  /** The largest magnitude that the tags on a path to a leaf, and the leaf, can add up to. */
  function Weight(t: Tree<int, int>): nat
    decreases t
  {
    match t
    case Leaf(agg, tag) => Larger(Magnitude(agg), Magnitude(tag))
    case Node(_, tag, left, right) => Magnitude(tag) + Larger(Weight(left), Weight(right))
  }

  /** Room for sums of `length` elements of at most this magnitude each. */
  predicate Roomy(bound: nat, length: nat) {
    Fits(length) && bound <= MAXIMUM && bound * length <= MAXIMUM
  }

  lemma RoomyNarrows(bound: nat, length: nat, lower: nat, shorter: nat)
    requires Roomy(bound, length) && lower <= bound && shorter <= length
    ensures Roomy(lower, shorter)
  {
    ProductMonotone(lower, bound, shorter, length);
  }

  /** |x| <= bound * length */
  predicate Within(x: int, bound: nat, length: nat) {
    -(bound * length) <= x <= bound * length
  }

  lemma WithinScaled(d: int, bound: nat, length: nat)
    requires Magnitude(d) <= bound
    ensures Within(d * length, bound, length)
  {
    assert bound * length - d * length == (bound - d) * length && (bound - d) * length >= 0;
    assert bound * length + d * length == (bound + d) * length && (bound + d) * length >= 0;
  }

  lemma WithinRaised(x: int, bound: nat, higher: nat, length: nat)
    requires Within(x, bound, length) && bound <= higher
    ensures Within(x, higher, length)
  {
    ProductMonotone(bound, higher, length, length);
  }

  lemma WithinSum(x: int, a: nat, y: int, b: nat, length: nat)
    requires Within(x, a, length) && Within(y, b, length)
    ensures Within(x + y, a + b, length)
  {
    assert (a + b) * length == a * length + b * length;
  }

  lemma WithinJoin(x: int, y: int, bound: nat, m: nat, n: nat)
    requires Within(x, bound, m) && Within(y, bound, n)
    ensures Within(x + y, bound, m + n)
  {
    assert bound * (m + n) == bound * m + bound * n;
  }

  lemma WithinFits(x: int, bound: nat, length: nat)
    requires Within(x, bound, length) && Roomy(bound, length)
    ensures Fits(x)
  {
  }

  lemma {:induction false} NodeAggregate(t: Tree<int, int>, lo: nat, hi: nat)
    requires Consistent(SumAddPolicy(), t, lo, hi) && t.Node?
    ensures lo < hi && t.agg == t.left.agg + t.right.agg + t.tag * Length(lo, hi)
    ensures Consistent(SumAddPolicy(), t.left, lo, Midpoint(lo, hi))
    ensures Consistent(SumAddPolicy(), t.right, Midpoint(lo, hi) + 1, hi)
  {
  }

  lemma {:induction false} LeafWithin(t: Tree<int, int>, lo: nat, hi: nat)
    requires Consistent(SumAddPolicy(), t, lo, hi) && t.Leaf?
    ensures Within(t.agg, Weight(t), Length(lo, hi))
  {
    WithinScaled(t.agg, Weight(t), 1);
  }

  /** The sum of a segment is at most its weight times its length. */
  lemma {:induction false} AggregateWithin(t: Tree<int, int>, lo: nat, hi: nat)
    requires Consistent(SumAddPolicy(), t, lo, hi)
    ensures Within(t.agg, Weight(t), Length(lo, hi))
    decreases t
  {
    hide Within, Consistent, SumAddPolicy;
    if t.Leaf? {
      LeafWithin(t, lo, hi);
    } else {
      NodeAggregate(t, lo, hi);
      AggregateWithin(t.left, lo, Midpoint(lo, hi));
      AggregateWithin(t.right, Midpoint(lo, hi) + 1, hi);
      NodeWithin(t.left.agg, Weight(t.left), t.right.agg, Weight(t.right), t.tag,
                 Length(lo, Midpoint(lo, hi)), Length(Midpoint(lo, hi) + 1, hi));
    }
  }

  lemma NodeWithin(x: int, a: nat, y: int, b: nat, tag: int, m: nat, n: nat)
    requires Within(x, a, m) && Within(y, b, n)
    ensures Within(x + y + tag * (m + n), Magnitude(tag) + Larger(a, b), m + n)
  {
    hide Within;
    var inner := Larger(a, b);
    WithinRaised(x, a, inner, m);
    WithinRaised(y, b, inner, n);
    WithinJoin(x, y, inner, m, n);
    WithinScaled(tag, Magnitude(tag), m + n);
    WithinSum(x + y, inner, tag * (m + n), Magnitude(tag), m + n);
  }

  /** When a stamp is representable. */
  lemma {:induction false} StampIs(t: Tree<int, int>, d: int, length: nat)
    requires Fits(length) && Fits(d * length) && Fits(t.agg + d * length) && Fits(d + t.tag)
    ensures TryStamp(SumAddPolicy(), d, t, length) == Some(Stamp(SumAddPolicy(), d, t, length))
  {
  }

  /** A stamp raises the weight by at most the magnitude of the delta, and is representable. */
  lemma {:induction false} StampFits(t: Tree<int, int>, lo: nat, hi: nat, d: int, bound: nat, n: nat)
    requires Consistent(SumAddPolicy(), t, lo, hi) && Weight(t) + Magnitude(d) <= bound
    requires Roomy(bound, n) && Length(lo, hi) <= n
    ensures TryStamp(SumAddPolicy(), d, t, Length(lo, hi)) == Some(Stamp(SumAddPolicy(), d, t, Length(lo, hi)))
  {
    var length := Length(lo, hi);
    StampArithmetic(t.agg, Weight(t), d, length, bound, n) by {
      AggregateWithin(t, lo, hi);
    }
    StampIs(t, d, length);
  }

  lemma StampArithmetic(x: int, a: nat, d: int, length: nat, bound: nat, n: nat)
    requires Within(x, a, length) && a + Magnitude(d) <= bound && Roomy(bound, n) && length <= n
    ensures Fits(length) && Fits(d * length) && Fits(x + d * length)
  {
    RoomyNarrows(bound, n, a + Magnitude(d), length);
    RoomyNarrows(bound, n, Magnitude(d), length);
    hide Within;
    WithinScaled(d, Magnitude(d), length);
    WithinSum(x, a, d * length, Magnitude(d), length);
    WithinFits(d * length, Magnitude(d), length);
    WithinFits(x + d * length, a + Magnitude(d), length);
  }

  lemma {:induction false} StampWeight(t: Tree<int, int>, d: int, length: nat)
    requires length == 1 || t.Node?
    ensures Weight(Stamp(SumAddPolicy(), d, t, length)) <= Weight(t) + Magnitude(d)
  {
  }

  // ---------------------------------------------------------------- updates

  /** Opening a node, by pushing its tag or by retaining it, is representable and adds no weight. */
  lemma {:induction false} OpenFits(push: bool, t: Tree<int, int>, lo: nat, hi: nat, bound: nat, n: nat)
    requires Consistent(SumAddPolicy(), t, lo, hi) && t.Node? && Weight(t) <= bound
    requires Roomy(bound, n) && Length(lo, hi) <= n
    ensures var o := Opened(SumAddPolicy(), push, t, lo, hi);
            && TryOpen(SumAddPolicy(), push, t, lo, hi) == Some(o)
            && o.Node? && Weight(o) <= Weight(t) && Consistent(SumAddPolicy(), o, lo, hi)
  {
    hide Roomy, Consistent, Weight, TryOpen, Opened, Stamp, TryStamp;
    var mid := Midpoint(lo, hi);
    NodeAggregate(t, lo, hi);
    OpenedIsConsistent(push, t, lo, hi);
    OpenIs(push, t, lo, hi);
    if Pushes(SumAddPolicy(), push, t) {
      WeightIs(t);
      StampFits(t.left, lo, mid, t.tag, bound, n);
      StampFits(t.right, mid + 1, hi, t.tag, bound, n);
      ShapeOf(t.left, lo, mid);
      ShapeOf(t.right, mid + 1, hi);
      StampWeight(t.left, t.tag, Length(lo, mid));
      StampWeight(t.right, t.tag, Length(mid + 1, hi));
      WeightIs(Opened(SumAddPolicy(), push, t, lo, hi));
    }
  }

  lemma {:induction false} OpenIs(push: bool, t: Tree<int, int>, lo: nat, hi: nat)
    requires t.Node?
    ensures var p, o, mid := SumAddPolicy(), Opened(SumAddPolicy(), push, t, lo, hi), Midpoint(lo, hi);
            var left, right := Stamp(p, t.tag, t.left, Length(lo, mid)), Stamp(p, t.tag, t.right, Length(mid + 1, hi));
            && (!Pushes(p, push, t) ==> o == t && TryOpen(p, push, t, lo, hi) == Some(t))
            && (Pushes(p, push, t) ==>
                  && o == Node(t.agg, 0, left, right)
                  && (TryStamp(p, t.tag, t.left, Length(lo, mid)) == Some(left)
                      && TryStamp(p, t.tag, t.right, Length(mid + 1, hi)) == Some(right) ==>
                        TryOpen(p, push, t, lo, hi) == Some(o)))
  {
  }

  lemma {:induction false} WeightIs(t: Tree<int, int>)
    ensures t.Node? ==> Weight(t) == Magnitude(t.tag) + Larger(Weight(t.left), Weight(t.right))
    ensures Magnitude(t.tag) <= Weight(t)
  {
  }

  lemma {:induction false} ShapeOf(t: Tree<int, int>, lo: nat, hi: nat)
    requires Consistent(SumAddPolicy(), t, lo, hi)
    ensures lo <= hi && (t.Leaf? <==> lo == hi) && (t.Node? || Length(lo, hi) == 1)
  {
  }

  lemma {:induction false} OpenedIsConsistent(push: bool, t: Tree<int, int>, lo: nat, hi: nat)
    requires Consistent(SumAddPolicy(), t, lo, hi) && t.Node?
    ensures Consistent(SumAddPolicy(), Opened(SumAddPolicy(), push, t, lo, hi), lo, hi)
  {
    SumAddLawful();
    hide Lawful, InducedActionsCommute, Consistent, Opened;
    OpenedElements(SumAddPolicy(), push, t, lo, hi);
  }

  lemma {:induction false} UpdatedIsConsistent(
      push: bool, t: Tree<int, int>, lo: nat, hi: nat, l: nat, r: nat, d: int)
    requires Consistent(SumAddPolicy(), t, lo, hi) && Meets(lo, hi, l, r) && l <= r
    ensures Consistent(SumAddPolicy(), Update(SumAddPolicy(), push, t, lo, hi, l, r, d), lo, hi)
  {
    SumAddLawful();
    hide Lawful, InducedActionsCommute, Consistent, Update;
    UpdateElements(SumAddPolicy(), push, t, lo, hi, l, r, d);
  }

  lemma {:induction false} JoinFits(
      tag: int, left: Tree<int, int>, right: Tree<int, int>, lo: nat, hi: nat, bound: nat, n: nat)
    requires lo < hi && Consistent(SumAddPolicy(), left, lo, Midpoint(lo, hi))
    requires Consistent(SumAddPolicy(), right, Midpoint(lo, hi) + 1, hi)
    requires Magnitude(tag) + Larger(Weight(left), Weight(right)) <= bound
    requires Roomy(bound, n) && Length(lo, hi) <= n
    ensures TryJoin(SumAddPolicy(), tag, left, right, Length(lo, hi)).Some?
  {
    hide Within, Roomy, Weight, Consistent;
    var mid := Midpoint(lo, hi);
    AggregateWithin(left, lo, mid);
    AggregateWithin(right, mid + 1, hi);
    JoinArithmetic(left.agg, Weight(left), right.agg, Weight(right), tag, Length(lo, mid), Length(mid + 1, hi),
                   bound, n);
  }

  lemma JoinArithmetic(x: int, a: nat, y: int, b: nat, tag: int, m: nat, k: nat, bound: nat, n: nat)
    requires Within(x, a, m) && Within(y, b, k) && Magnitude(tag) + Larger(a, b) <= bound
    requires Roomy(bound, n) && m + k <= n
    ensures Fits(m + k) && Fits(x + y) && Fits(tag * (m + k)) && Fits(x + y + tag * (m + k))
  {
    var inner := Larger(a, b);
    RoomyNarrows(bound, n, inner, m + k);
    RoomyNarrows(bound, n, Magnitude(tag), m + k);
    RoomyNarrows(bound, n, Magnitude(tag) + inner, m + k);
    hide Within;
    WithinRaised(x, a, inner, m);
    WithinRaised(y, b, inner, k);
    WithinJoin(x, y, inner, m, k);
    WithinScaled(tag, Magnitude(tag), m + k);
    WithinSum(x + y, inner, tag * (m + k), Magnitude(tag), m + k);
    WithinFits(x + y, inner, m + k);
    WithinFits(tag * (m + k), Magnitude(tag), m + k);
    WithinFits(x + y + tag * (m + k), Magnitude(tag) + inner, m + k);
  }

  /** No checked operation of an update fails within the envelope, in either variant. */
  lemma {:induction false} UpdateFits(
      push: bool, t: Tree<int, int>, lo: nat, hi: nat, l: nat, r: nat, d: int, bound: nat, n: nat)
    requires Consistent(SumAddPolicy(), t, lo, hi) && Meets(lo, hi, l, r) && l <= r
    requires Weight(t) + Magnitude(d) <= bound && Roomy(bound, n) && Length(lo, hi) <= n
    ensures var u := Update(SumAddPolicy(), push, t, lo, hi, l, r, d);
            TryUpdate(SumAddPolicy(), push, t, lo, hi, l, r, d) == Some(u) && Weight(u) <= Weight(t) + Magnitude(d)
    decreases hi - lo, 1
  {
    hide Consistent, Weight, Roomy, Opened, TryOpen, TryStamp, Stamp, SumAddPolicy;
    ShapeOf(t, lo, hi);
    if Covered(lo, hi, l, r) || t.Leaf? {
      StampFits(t, lo, hi, d, bound, n);
      StampWeight(t, d, Length(lo, hi));
    } else {
      OpenFits(push, t, lo, hi, bound, n);
      RebuildFits(push, Opened(SumAddPolicy(), push, t, lo, hi), lo, hi, l, r, d, bound, n);
    }
  }

  lemma {:induction false} RebuildFits(
      push: bool, o: Tree<int, int>, lo: nat, hi: nat, l: nat, r: nat, d: int, bound: nat, n: nat)
    requires Consistent(SumAddPolicy(), o, lo, hi) && o.Node? && lo < hi && Meets(lo, hi, l, r) && l <= r
    requires Weight(o) + Magnitude(d) <= bound && Roomy(bound, n) && Length(lo, hi) <= n
    ensures var u := Rebuilt(SumAddPolicy(), push, o, lo, hi, l, r, d);
            && TryRebuild(SumAddPolicy(), push, o, lo, hi, l, r, d) == Some(u)
            && Weight(u) <= Weight(o) + Magnitude(d)
    decreases hi - lo, 0
  {
    hide Consistent, Weight, Roomy, TryUpdate, Update, TryJoin, SumAddPolicy;
    var p, mid := SumAddPolicy(), Midpoint(lo, hi);
    NodeAggregate(o, lo, hi);
    WeightIs(o);
    if l <= mid {
      UpdateFits(push, o.left, lo, mid, l, r, d, bound, n);
      UpdatedIsConsistent(push, o.left, lo, mid, l, r, d);
    }
    if mid < r {
      UpdateFits(push, o.right, mid + 1, hi, l, r, d, bound, n);
      UpdatedIsConsistent(push, o.right, mid + 1, hi, l, r, d);
    }
    var u := Rebuilt(p, push, o, lo, hi, l, r, d);
    WeightIs(u);
    JoinFits(o.tag, u.left, u.right, lo, hi, bound, n);
  }

  // ---------------------------------------------------------------- queries

  /** No checked operation of a query fails within the envelope, at whatever tags it inherits. */
  lemma {:induction false} QueryFits(
      t: Tree<int, int>, lo: nat, hi: nat, l: nat, r: nat, inherited: int, bound: nat, n: nat)
    requires Consistent(SumAddPolicy(), t, lo, hi) && Magnitude(inherited) + Weight(t) <= bound
    requires Roomy(bound, n) && Length(lo, hi) <= n
    ensures var answer := TryQuery(SumAddPolicy(), t, lo, hi, l, r, inherited);
            answer.Some? && Within(answer.value, bound, Length(lo, hi))
    decreases t
  {
    hide Consistent, Weight, Roomy, Within, TryQuery, SumAddPolicy;
    ShapeOf(t, lo, hi);
    if t.Leaf? || !Meets(lo, hi, l, r) || Covered(lo, hi, l, r) {
      AggregateWithin(t, lo, hi);
      QueryStops(t, lo, hi, l, r, inherited, bound, n);
    } else {
      var mid, next := Midpoint(lo, hi), inherited + t.tag;
      NodeAggregate(t, lo, hi);
      WeightIs(t);
      QueryFits(t.left, lo, mid, l, r, next, bound, n);
      QueryFits(t.right, mid + 1, hi, l, r, next, bound, n);
      QueryGoesOn(t, lo, hi, l, r, inherited, bound, n);
    }
  }

  lemma {:induction false} QueryStops(
      t: Tree<int, int>, lo: nat, hi: nat, l: nat, r: nat, inherited: int, bound: nat, n: nat)
    requires t.Leaf? || !Meets(lo, hi, l, r) || Covered(lo, hi, l, r)
    requires Within(t.agg, Weight(t), Length(lo, hi)) && Magnitude(inherited) + Weight(t) <= bound
    requires Roomy(bound, n) && Length(lo, hi) <= n
    ensures var answer := TryQuery(SumAddPolicy(), t, lo, hi, l, r, inherited);
            answer.Some? && Within(answer.value, bound, Length(lo, hi))
  {
    var length := Length(lo, hi);
    StampArithmetic(t.agg, Weight(t), inherited, length, bound, n);
    hide Within, Roomy, Weight;
    ZeroWithin(bound, length);
    WithinScaled(inherited, Magnitude(inherited), length);
    WithinSum(t.agg, Weight(t), inherited * length, Magnitude(inherited), length);
    WithinRaised(t.agg + inherited * length, Weight(t) + Magnitude(inherited), bound, length);
  }

  lemma ZeroWithin(bound: nat, length: nat)
    ensures Within(0, bound, length)
  {
  }

  lemma {:induction false} QueryGoesOn(
      t: Tree<int, int>, lo: nat, hi: nat, l: nat, r: nat, inherited: int, bound: nat, n: nat)
    requires lo < hi && t.Node? && Meets(lo, hi, l, r) && !Covered(lo, hi, l, r)
    requires Magnitude(inherited + t.tag) <= bound && Roomy(bound, n) && Length(lo, hi) <= n
    requires var a := TryQuery(SumAddPolicy(), t.left, lo, Midpoint(lo, hi), l, r, inherited + t.tag);
             a.Some? && Within(a.value, bound, Length(lo, Midpoint(lo, hi)))
    requires var b := TryQuery(SumAddPolicy(), t.right, Midpoint(lo, hi) + 1, hi, l, r, inherited + t.tag);
             b.Some? && Within(b.value, bound, Length(Midpoint(lo, hi) + 1, hi))
    ensures var answer := TryQuery(SumAddPolicy(), t, lo, hi, l, r, inherited);
            answer.Some? && Within(answer.value, bound, Length(lo, hi))
  {
    var mid := Midpoint(lo, hi);
    var a := TryQuery(SumAddPolicy(), t.left, lo, mid, l, r, inherited + t.tag).value;
    var b := TryQuery(SumAddPolicy(), t.right, mid + 1, hi, l, r, inherited + t.tag).value;
    RoomyNarrows(bound, n, bound, Length(lo, hi));
    hide Within;
    WithinJoin(a, b, bound, Length(lo, mid), Length(mid + 1, hi));
    WithinFits(a + b, bound, Length(lo, hi));
  }

  /** Nor does the traversal that materializes the leaves. */
  lemma {:induction false} MaterializeFits(t: Tree<int, int>, lo: nat, hi: nat, inherited: int, bound: nat, n: nat)
    requires Consistent(SumAddPolicy(), t, lo, hi) && Magnitude(inherited) + Weight(t) <= bound
    requires Roomy(bound, n) && Length(lo, hi) <= n
    ensures TryMaterialize(SumAddPolicy(), t, inherited).Some?
    decreases t
  {
    hide Consistent, Weight, Roomy, Within;
    ShapeOf(t, lo, hi);
    if t.Leaf? {
      AggregateWithin(t, lo, hi);
      StampArithmetic(t.agg, Weight(t), inherited, 1, bound, n);
    } else {
      var mid, next := Midpoint(lo, hi), inherited + t.tag;
      NodeAggregate(t, lo, hi);
      WeightIs(t);
      MaterializeFits(t.left, lo, mid, next, bound, n);
      MaterializeFits(t.right, mid + 1, hi, next, bound, n);
      BoundFits(next, bound, n);
    }
  }

  lemma BoundFits(x: int, bound: nat, n: nat)
    requires Magnitude(x) <= bound && Roomy(bound, n)
    ensures Fits(x)
  {
  }

  // ---------------------------------------------------------------- whole runs

  /** The envelope after a log: the initial bound and every delta's magnitude. */
  function Envelope(start: nat, log: seq<Entry<int>>): nat {
    if log == [] then start else Envelope(start, log[..|log| - 1]) + Magnitude(log[|log| - 1].action)
  }

  lemma {:induction false} BuildWeight(xs: seq<int>, lo: nat, hi: nat, bound: nat)
    requires lo <= hi < |xs| && Dominates(bound, xs)
    ensures Weight(Build(SumAddPolicy(), xs, lo, hi)) <= bound
    decreases hi - lo
  {
    if lo < hi {
      BuildWeight(xs, lo, Midpoint(lo, hi), bound);
      BuildWeight(xs, Midpoint(lo, hi) + 1, hi, bound);
    }
  }

  lemma {:induction false} RunIsConsistent(push: bool, xs: seq<int>, log: seq<Entry<int>>)
    requires xs != [] && RangesIn(|xs|, log)
    ensures Consistent(SumAddPolicy(), Run(SumAddPolicy(), push, xs, log), 0, |xs| - 1)
  {
    SumAddLawful();
    hide Lawful, InducedActionsCommute, Consistent, Run;
    RunRepresentsOracle(SumAddPolicy(), push, xs, log);
  }

  /** The weight of the tree of a version stays within the envelope of its log. */
  lemma {:induction false} RunWeight(push: bool, xs: seq<int>, log: seq<Entry<int>>, start: nat)
    requires xs != [] && RangesIn(|xs|, log) && Dominates(start, xs) && Roomy(Envelope(start, log), |xs|)
    ensures Weight(Run(SumAddPolicy(), push, xs, log)) <= Envelope(start, log)
  {
    hide Weight, Consistent, Update, Dominates;
    if log == [] {
      BuildWeight(xs, 0, |xs| - 1, start);
    } else {
      var before, e := log[..|log| - 1], log[|log| - 1];
      RoomyNarrows(Envelope(start, log), |xs|, Envelope(start, before), |xs|);
      hide Roomy;
      RunWeight(push, xs, before, start);
      RunIsConsistent(push, xs, before);
      UpdateFits(push, Run(SumAddPolicy(), push, xs, before), 0, |xs| - 1, e.left, e.right, e.action,
                 Envelope(start, log), |xs|);
    }
  }

  lemma {:induction false} EnvelopeGrows(start: nat, log: seq<Entry<int>>, v: nat)
    requires v <= |log|
    ensures Envelope(start, log[..v]) <= Envelope(start, log)
  {
    if v == |log| {
      assert log[..v] == log;
    } else {
      EnvelopeGrows(start, log[..|log| - 1], v);
      assert log[..|log| - 1][..v] == log[..v];
    }
  }

  /** What the scalar test proves, when the bound is not zero. */
  lemma ProvenIsRoomy(bound: nat, size: nat)
    requires ProvesRepresentability(bound, size) && bound > 0 && size > 0
    ensures Roomy(bound, size)
  {
    EnvelopeProduct(bound, size, size);
    EnvelopeProduct(bound, 1, size);
  }

  /**
   A run whose envelope the scalar test accepts, with a delta or an element that is not zero: no query of any version,
   and no traversal, meets an operation that is not representable.
   */
  lemma {:induction false} EnvelopedQueriesFit(
      push: bool, xs: seq<int>, log: seq<Entry<int>>, start: nat, v: nat, l: nat, r: nat)
    requires xs != [] && RangesIn(|xs|, log) && Dominates(start, xs) && v <= |log|
    requires Envelope(start, log) > 0 && ProvesRepresentability(Envelope(start, log), |xs|)
    ensures var t := Run(SumAddPolicy(), push, xs, log[..v]);
            && TryQuery(SumAddPolicy(), t, 0, |xs| - 1, l, r, 0).Some?
            && TryMaterialize(SumAddPolicy(), t, 0).Some?
  {
    hide Consistent, Weight, Roomy, TryQuery, TryMaterialize, Run, SumAddPolicy, Dominates, ProvesRepresentability;
    var bound, h := Envelope(start, log), log[..v];
    ProvenIsRoomy(bound, |xs|);
    EnvelopeGrows(start, log, v);
    RoomyNarrows(bound, |xs|, Envelope(start, h), |xs|);
    RunWeight(push, xs, h, start);
    RunIsConsistent(push, xs, h);
    QueryFits(Run(SumAddPolicy(), push, xs, h), 0, |xs| - 1, l, r, 0, bound, |xs|);
    MaterializeFits(Run(SumAddPolicy(), push, xs, h), 0, |xs| - 1, 0, bound, |xs|);
  }

  /** Nor does the next update, when the scalar test accepts its delta too. */
  lemma {:induction false} EnvelopedUpdateFits(
      push: bool, xs: seq<int>, log: seq<Entry<int>>, start: nat, l: nat, r: nat, d: int)
    requires xs != [] && RangesIn(|xs|, log) && Dominates(start, xs) && ValidRange(|xs|, l, r) && d != 0
    requires ProvesRepresentability(Envelope(start, log) + Magnitude(d), |xs|)
    ensures TryUpdate(SumAddPolicy(), push, Run(SumAddPolicy(), push, xs, log), 0, |xs| - 1, l, r, d).Some?
  {
    hide Consistent, Weight, Roomy, TryUpdate, Run, SumAddPolicy, Dominates, ProvesRepresentability;
    var bound := Envelope(start, log) + Magnitude(d);
    ProvenIsRoomy(bound, |xs|);
    RoomyNarrows(bound, |xs|, Envelope(start, log), |xs|);
    RunWeight(push, xs, log, start);
    RunIsConsistent(push, xs, log);
    UpdateFits(push, Run(SumAddPolicy(), push, xs, log), 0, |xs| - 1, l, r, d, bound, |xs|);
  }
}
