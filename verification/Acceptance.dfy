/**
 Which deltas the guarded trees accept: the guard's test and, node by node, what the checked operations of an update
 need of the stored sums and tags.  Both are conditions on the state before the update.
 */
module Acceptance {
  import opened Wrappers
  import opened Canonical
  import opened Checked
  import opened Policies
  import opened TagTrees
  import opened Histories
  import opened CheckedUpdates
  import opened Reads
  import opened SumAdd
  import opened RangeSum
  import opened NumericDomain
  import opened Envelopes

  // ---------------------------------------------------------------- what an update adds

  /** An update adds the delta once for every element of the overlap, with retained and with pushed tags. */
  lemma {:induction false} UpdateAddsOverlap(
      push: bool, t: Tree<int, int>, lo: nat, hi: nat, l: nat, r: nat, value: int)
    requires Consistent(SumAddPolicy(), t, lo, hi) && l <= r && Meets(lo, hi, l, r)
    ensures Update(SumAddPolicy(), push, t, lo, hi, l, r, value).agg == t.agg + value * Overlap(lo, hi, l, r)
    decreases hi - lo, 0
  {
    hide SumAddPolicy, Update, Overlap, Consistent, UpdateIfMet, Opened;
    ShapeOf(t, lo, hi);
    if Covered(lo, hi, l, r) {
      CoveredAdds(push, t, lo, hi, l, r, value);
    } else {
      var o, mid := Opened(SumAddPolicy(), push, t, lo, hi), Midpoint(lo, hi);
      OpenedNode(push, t, lo, hi);
      UpdateUnfolds(push, t, lo, hi, l, r, value);
      OverlapSplits(lo, hi, l, r);
      IfMetAddsOverlap(push, o.left, lo, mid, l, r, value);
      IfMetAddsOverlap(push, o.right, mid + 1, hi, l, r, value);
      Distributes(value, Overlap(lo, mid, l, r), Overlap(mid + 1, hi, l, r));
    }
  }

  lemma {:induction false} IfMetAddsOverlap(
      push: bool, t: Tree<int, int>, lo: nat, hi: nat, l: nat, r: nat, value: int)
    requires Consistent(SumAddPolicy(), t, lo, hi) && l <= r
    ensures UpdateIfMet(SumAddPolicy(), push, t, lo, hi, l, r, value).agg == t.agg + value * Overlap(lo, hi, l, r)
    decreases hi - lo, 1
  {
    if Meets(lo, hi, l, r) {
      UpdateAddsOverlap(push, t, lo, hi, l, r, value);
    } else {
      assert Overlap(lo, hi, l, r) == 0;
    }
  }

  lemma {:induction false} CoveredAdds(
      push: bool, t: Tree<int, int>, lo: nat, hi: nat, l: nat, r: nat, value: int)
    requires lo <= hi && Covered(lo, hi, l, r)
    ensures Update(SumAddPolicy(), push, t, lo, hi, l, r, value).agg == t.agg + value * Length(lo, hi)
    ensures Overlap(lo, hi, l, r) == Length(lo, hi)
  {
  }

  /** An opened node: the same sum above consistent children. */
  lemma {:induction false} OpenedNode(push: bool, t: Tree<int, int>, lo: nat, hi: nat)
    requires Consistent(SumAddPolicy(), t, lo, hi) && t.Node?
    ensures var o := Opened(SumAddPolicy(), push, t, lo, hi);
            && lo < hi && o.Node? && t.agg == o.left.agg + o.right.agg + o.tag * Length(lo, hi)
            && Consistent(SumAddPolicy(), o.left, lo, Midpoint(lo, hi))
            && Consistent(SumAddPolicy(), o.right, Midpoint(lo, hi) + 1, hi)
  {
    var o := Opened(SumAddPolicy(), push, t, lo, hi);
    assert o.Node? && o.agg == t.agg;
    hide Consistent, Opened, SumAddPolicy;
    OpenedIsConsistent(push, t, lo, hi);
    NodeAggregate(o, lo, hi);
  }

  lemma {:induction false} UpdateUnfolds(
      push: bool, t: Tree<int, int>, lo: nat, hi: nat, l: nat, r: nat, value: int)
    requires t.Node? && lo < hi && Meets(lo, hi, l, r) && !Covered(lo, hi, l, r)
    ensures var p, o, mid := SumAddPolicy(), Opened(SumAddPolicy(), push, t, lo, hi), Midpoint(lo, hi);
            var left := UpdateIfMet(p, push, o.left, lo, mid, l, r, value);
            var right := UpdateIfMet(p, push, o.right, mid + 1, hi, l, r, value);
            Update(p, push, t, lo, hi, l, r, value)
            == Node(left.agg + right.agg + o.tag * Length(lo, hi), o.tag, left, right)
  {
  }

  lemma Distributes(value: int, a: int, b: int)
    ensures value * (a + b) == value * a + value * b
  {
  }

  // ---------------------------------------------------------------- the operations of an update

  /** The delta of `length` elements can be added to the node's sum, and the delta to its tag. */
  predicate StampRepresentable(t: Tree<int, int>, d: int, length: nat) {
    Fits(length) && Fits(d * length) && Fits(t.agg + d * length) && Fits(d + t.tag)
  }

  /** The two sums can be combined, and the tag of the node applied to `length` elements. */
  predicate JoinRepresentable(left: int, right: int, tag: int, length: nat) {
    Fits(left + right) && Fits(length) && Fits(tag * length) && Fits(left + right + tag * length)
  }

  /**
   What the update needs of the sums and tags on its way: a covered node can be stamped; a partial node can be rejoined
   above children that took their share of the delta, after its tag, if it is pushed, was stamped into both.
   */
  predicate OperationsFit(push: bool, t: Tree<int, int>, lo: nat, hi: nat, l: nat, r: nat, d: int)
    decreases Length(lo, hi)
  {
    if t.Leaf? || hi <= lo || Covered(lo, hi, l, r) then StampRepresentable(t, d, Length(lo, hi))
    else
      var mid, o := Midpoint(lo, hi), Opened(SumAddPolicy(), push, t, lo, hi);
      && PushRepresentable(push, t, lo, hi)
      && JoinRepresentable(o.left.agg + d * Overlap(lo, mid, l, r), o.right.agg + d * Overlap(mid + 1, hi, l, r),
                           o.tag, Length(lo, hi))
      && (l <= mid ==> OperationsFit(push, o.left, lo, mid, l, r, d))
      && (mid < r ==> OperationsFit(push, o.right, mid + 1, hi, l, r, d))
  }

  predicate PushRepresentable(push: bool, t: Tree<int, int>, lo: nat, hi: nat)
    requires t.Node?
  {
    push && t.tag != 0 ==>
      && StampRepresentable(t.left, t.tag, Length(lo, Midpoint(lo, hi)))
      && StampRepresentable(t.right, t.tag, Length(Midpoint(lo, hi) + 1, hi))
  }

  lemma {:induction false} StampDecides(t: Tree<int, int>, d: int, length: nat)
    ensures TryStamp(SumAddPolicy(), d, t, length).Some? <==> StampRepresentable(t, d, length)
  {
  }

  lemma {:induction false} OpenDecides(push: bool, t: Tree<int, int>, lo: nat, hi: nat)
    requires t.Node?
    ensures TryOpen(SumAddPolicy(), push, t, lo, hi).Some? <==> PushRepresentable(push, t, lo, hi)
  {
    var mid := Midpoint(lo, hi);
    StampDecides(t.left, t.tag, Length(lo, mid));
    StampDecides(t.right, t.tag, Length(mid + 1, hi));
    hide TryStamp, StampRepresentable;
  }

  lemma {:induction false} JoinDecides(tag: int, left: Tree<int, int>, right: Tree<int, int>, length: nat)
    ensures TryJoin(SumAddPolicy(), tag, left, right, length).Some?
       <==> JoinRepresentable(left.agg, right.agg, tag, length)
  {
  }

  lemma {:induction false} TryUnfolds(
      push: bool, t: Tree<int, int>, lo: nat, hi: nat, l: nat, r: nat, d: int)
    requires t.Node? && lo < hi && !Covered(lo, hi, l, r)
    ensures var p, o, mid := SumAddPolicy(), Opened(SumAddPolicy(), push, t, lo, hi), Midpoint(lo, hi);
            o.Node? &&
            (TryUpdate(p, push, t, lo, hi, l, r, d).Some? <==>
               && TryOpen(p, push, t, lo, hi).Some?
               && (l <= mid ==> TryUpdate(p, push, o.left, lo, mid, l, r, d).Some?)
               && (mid < r ==> TryUpdate(p, push, o.right, mid + 1, hi, l, r, d).Some?)
               && TryJoin(p, o.tag, if l <= mid then Update(p, push, o.left, lo, mid, l, r, d) else o.left,
                          if mid < r then Update(p, push, o.right, mid + 1, hi, l, r, d) else o.right,
                          Length(lo, hi)).Some?)
  {
    hide TryOpen, TryJoin, TryStamp;
  }

  /** The checked update succeeds exactly when every node on its way has the room the operations need. */
  lemma {:induction false} UpdateSucceeds(
      push: bool, t: Tree<int, int>, lo: nat, hi: nat, l: nat, r: nat, d: int)
    requires Consistent(SumAddPolicy(), t, lo, hi) && l <= r && Meets(lo, hi, l, r)
    ensures TryUpdate(SumAddPolicy(), push, t, lo, hi, l, r, d).Some? <==> OperationsFit(push, t, lo, hi, l, r, d)
    decreases hi - lo
  {
    hide Consistent, Update, TryOpen, TryJoin, TryStamp, StampRepresentable, JoinRepresentable, PushRepresentable,
         Opened, SumAddPolicy, Overlap;
    ShapeOf(t, lo, hi);
    if Covered(lo, hi, l, r) || t.Leaf? {
      StampDecides(t, d, Length(lo, hi));
      CoveredTries(push, t, lo, hi, l, r, d);
    } else {
      var o, mid := Opened(SumAddPolicy(), push, t, lo, hi), Midpoint(lo, hi);
      OpenedNode(push, t, lo, hi);
      TryUnfolds(push, t, lo, hi, l, r, d);
      hide TryUpdate;
      OpenDecides(push, t, lo, hi);
      if l <= mid {
        UpdateSucceeds(push, o.left, lo, mid, l, r, d);
      }
      if mid < r {
        UpdateSucceeds(push, o.right, mid + 1, hi, l, r, d);
      }
      IfMetAddsOverlap(push, o.left, lo, mid, l, r, d);
      IfMetAddsOverlap(push, o.right, mid + 1, hi, l, r, d);
      var left := if l <= mid then Update(SumAddPolicy(), push, o.left, lo, mid, l, r, d) else o.left;
      var right := if mid < r then Update(SumAddPolicy(), push, o.right, mid + 1, hi, l, r, d) else o.right;
      JoinDecides(o.tag, left, right, Length(lo, hi));
    }
  }

  lemma {:induction false} CoveredTries(push: bool, t: Tree<int, int>, lo: nat, hi: nat, l: nat, r: nat, d: int)
    requires t.Leaf? || hi <= lo || Covered(lo, hi, l, r)
    ensures TryUpdate(SumAddPolicy(), push, t, lo, hi, l, r, d) == TryStamp(SumAddPolicy(), d, t, Length(lo, hi))
  {
  }

  // ---------------------------------------------------------------- the traversal of the leaves

  /** On every path the tags add up, tag by tag, within the representation, and so does the leaf at its end. */
  predicate LeavesFit(t: Tree<int, int>, inherited: int)
    decreases t
  {
    match t
    case Leaf(agg, _) => Fits(inherited) && Fits(agg + inherited)
    case Node(_, tag, left, right) =>
      Fits(inherited + tag) && LeavesFit(left, inherited + tag) && LeavesFit(right, inherited + tag)
  }

  lemma {:induction false} MaterializeSucceeds(t: Tree<int, int>, inherited: int)
    ensures TryMaterialize(SumAddPolicy(), t, inherited).Some? <==> LeavesFit(t, inherited)
    decreases t
  {
    if t.Node? {
      MaterializeSucceeds(t.left, inherited + t.tag);
      MaterializeSucceeds(t.right, inherited + t.tag);
    } else {
      ApplyIs(inherited, t.agg, 1);
      hide SumAddPolicy;
    }
  }

  // ---------------------------------------------------------------- the guard, and the whole acceptance

  // ---------------------------------------------------------------- the operations of a query

  /** Under this inherited tag the tree stands for the elements lo, ..., hi of the array. */
  ghost predicate Shows(t: Tree<int, int>, xs: seq<int>, lo: nat, hi: nat, inherited: int)
    decreases t
  {
    && lo <= hi < |xs| && (t.Leaf? <==> lo == hi)
    && (t.Leaf? ==> xs[lo] == t.agg + inherited)
    && (t.Node? ==>
          && Shows(t.left, xs, lo, Midpoint(lo, hi), inherited + t.tag)
          && Shows(t.right, xs, Midpoint(lo, hi) + 1, hi, inherited + t.tag))
  }

  /**
   What a query needs on its way: the tags add up step by step; at a covered node the inherited tag times the length and
   the sum of the segment, at a partial one the sum over the overlap, are representable.
   */
  ghost predicate QueryRepresentable(
      t: Tree<int, int>, xs: seq<int>, lo: nat, hi: nat, l: nat, r: nat, inherited: int)
    decreases t
  {
    Meets(lo, hi, l, r) ==>
      && Fits(SharedSum(xs, lo, hi, l, r))
      && if t.Leaf? || Covered(lo, hi, l, r) then Fits(Length(lo, hi)) && Fits(inherited * Length(lo, hi))
         else
           && Fits(inherited + t.tag)
           && QueryRepresentable(t.left, xs, lo, Midpoint(lo, hi), l, r, inherited + t.tag)
           && QueryRepresentable(t.right, xs, Midpoint(lo, hi) + 1, hi, l, r, inherited + t.tag)
  }

  lemma {:induction false} ShownParts(t: Tree<int, int>, xs: seq<int>, lo: nat, hi: nat, inherited: int)
    requires Shows(t, xs, lo, hi, inherited)
    ensures lo <= hi < |xs| && (t.Leaf? <==> lo == hi)
    ensures t.Leaf? ==> xs[lo] == t.agg + inherited
    ensures t.Node? ==>
              && Shows(t.left, xs, lo, Midpoint(lo, hi), inherited + t.tag)
              && Shows(t.right, xs, Midpoint(lo, hi) + 1, hi, inherited + t.tag)
  {
  }

  lemma {:induction false} SegmentSum(xs: seq<int>, lo: nat, mid: nat, hi: nat)
    requires lo <= mid < hi < |xs|
    ensures Sum(xs[lo..hi + 1]) == Sum(xs[lo..mid + 1]) + Sum(xs[mid + 1..hi + 1])
  {
    assert xs[lo..hi + 1] == xs[lo..mid + 1] + xs[mid + 1..hi + 1];
    SumConcat(xs[lo..mid + 1], xs[mid + 1..hi + 1]);
  }

  lemma SingleSum(xs: seq<int>, at: nat)
    requires at < |xs|
    ensures Sum(xs[at..at + 1]) == xs[at]
  {
    assert xs[at..at + 1][1..] == [];
  }

  lemma {:induction false} ShownSum(t: Tree<int, int>, xs: seq<int>, lo: nat, hi: nat, inherited: int)
    requires Consistent(SumAddPolicy(), t, lo, hi) && Shows(t, xs, lo, hi, inherited)
    ensures lo <= hi < |xs| && t.agg + inherited * Length(lo, hi) == Sum(xs[lo..hi + 1])
    decreases t
  {
    hide Consistent, SumAddPolicy, Sum, Shows;
    ShownParts(t, xs, lo, hi, inherited);
    if t.Leaf? {
      SingleSum(xs, lo);
    } else {
      var mid := Midpoint(lo, hi);
      NodeAggregate(t, lo, hi);
      ShownSum(t.left, xs, lo, mid, inherited + t.tag);
      ShownSum(t.right, xs, mid + 1, hi, inherited + t.tag);
      SegmentSum(xs, lo, mid, hi);
      TagsAddUp(inherited, t.tag, t.left.agg, Length(lo, mid), t.right.agg, Length(mid + 1, hi), Length(lo, hi));
    }
  }

  lemma TagsAddUp(a: int, b: int, x: int, m: int, y: int, n: int, length: int)
    requires length == m + n
    ensures x + y + b * length + a * length == x + (a + b) * m + (y + (a + b) * n)
  {
  }

  lemma {:induction false} QueryUnfolds(
      t: Tree<int, int>, lo: nat, hi: nat, l: nat, r: nat, inherited: int)
    ensures var p, answer := SumAddPolicy(), TryQuery(SumAddPolicy(), t, lo, hi, l, r, inherited);
            && (!Meets(lo, hi, l, r) ==> answer == Some(0))
            && (Meets(lo, hi, l, r) && (t.Leaf? || Covered(lo, hi, l, r)) ==>
                  answer == p.TryApply(inherited, t.agg, Length(lo, hi)))
            && (Meets(lo, hi, l, r) && t.Node? && !Covered(lo, hi, l, r) ==>
                  var a := TryQuery(p, t.left, lo, Midpoint(lo, hi), l, r, inherited + t.tag);
                  var b := TryQuery(p, t.right, Midpoint(lo, hi) + 1, hi, l, r, inherited + t.tag);
                  answer == if Fits(inherited + t.tag) && a.Some? && b.Some? && Fits(a.value + b.value)
                            then Some(a.value + b.value) else None)
  {
  }

  /** The checked query of a tree succeeds if and only if that holds, and then sums the overlap. */
  lemma {:induction false} QuerySucceeds(
      t: Tree<int, int>, xs: seq<int>, lo: nat, hi: nat, l: nat, r: nat, inherited: int)
    requires Consistent(SumAddPolicy(), t, lo, hi) && Shows(t, xs, lo, hi, inherited) && l <= r
    ensures var answer := TryQuery(SumAddPolicy(), t, lo, hi, l, r, inherited);
            && (answer.Some? <==> QueryRepresentable(t, xs, lo, hi, l, r, inherited))
            && (answer.Some? ==> answer.value == SharedSum(xs, lo, hi, l, r))
    decreases t
  {
    hide Consistent, SumAddPolicy, TryQuery, Sum, SharedSum;
    QueryUnfolds(t, lo, hi, l, r, inherited);
    SharedCases(xs, lo, hi, l, r);
    ShownSum(t, xs, lo, hi, inherited);
    if t.Leaf? || Covered(lo, hi, l, r) {
      ApplyIs(inherited, t.agg, Length(lo, hi));
    } else if Meets(lo, hi, l, r) {
      NodeAggregate(t, lo, hi);
      QuerySucceeds(t.left, xs, lo, Midpoint(lo, hi), l, r, inherited + t.tag);
      QuerySucceeds(t.right, xs, Midpoint(lo, hi) + 1, hi, l, r, inherited + t.tag);
      SharedSplits(xs, lo, hi, l, r);
    }
  }

  lemma {:induction false} ElementsShow(
      t: Tree<int, int>, xs: seq<int>, lo: nat, hi: nat, inherited: int)
    requires Consistent(SumAddPolicy(), t, lo, hi) && hi < |xs|
    requires MapApply(SumAddPolicy(), inherited, Elements(SumAddPolicy(), t)) == xs[lo..hi + 1]
    ensures Shows(t, xs, lo, hi, inherited)
    decreases t
  {
    hide MapApply, Elements, Consistent, SumAddPolicy;
    var p, mid := SumAddPolicy(), Midpoint(lo, hi);
    ShapeOf(t, lo, hi);
    if t.Leaf? {
      LeafShows(t, xs, lo, inherited);
    } else {
      NodeElements(p, t);
      NodeAggregate(t, lo, hi);
      ElementsLength(t.left, lo, mid);
      ElementsLength(t.right, mid + 1, hi);
      var left, right := Elements(p, t.left), Elements(p, t.right);
      ChildElements(left, right, inherited, t.tag, xs, lo, mid, hi);
      ElementsShow(t.left, xs, lo, mid, inherited + t.tag);
      ElementsShow(t.right, xs, mid + 1, hi, inherited + t.tag);
    }
  }

  lemma LeafShows(t: Tree<int, int>, xs: seq<int>, at: nat, inherited: int)
    requires t.Leaf? && at < |xs|
    requires MapApply(SumAddPolicy(), inherited, Elements(SumAddPolicy(), t)) == xs[at..at + 1]
    ensures xs[at] == t.agg + inherited
  {
    LeafElements(SumAddPolicy(), t, inherited);
    assert xs[at..at + 1][0] == xs[at];
  }

  lemma {:induction false} ElementsLength(t: Tree<int, int>, lo: nat, hi: nat)
    requires Consistent(SumAddPolicy(), t, lo, hi)
    ensures |Elements(SumAddPolicy(), t)| == hi - lo + 1
    decreases t
  {
    if t.Node? {
      ElementsLength(t.left, lo, Midpoint(lo, hi));
      ElementsLength(t.right, Midpoint(lo, hi) + 1, hi);
    }
  }

  lemma {:induction false} ChildElements(
      left: seq<int>, right: seq<int>, inherited: int, tag: int, xs: seq<int>, lo: nat, mid: nat, hi: nat)
    requires lo <= mid < hi < |xs| && |left| == mid - lo + 1 && |right| == hi - mid
    requires MapApply(SumAddPolicy(), inherited, MapApply(SumAddPolicy(), tag, left + right)) == xs[lo..hi + 1]
    ensures MapApply(SumAddPolicy(), inherited + tag, left) == xs[lo..mid + 1]
    ensures MapApply(SumAddPolicy(), inherited + tag, right) == xs[mid + 1..hi + 1]
  {
    var mapped := MapApply(SumAddPolicy(), inherited, MapApply(SumAddPolicy(), tag, left + right));
    forall i | 0 <= i < |left| ensures left[i] + inherited + tag == xs[lo..mid + 1][i] {
      assert mapped[i] == left[i] + inherited + tag;
    }
    forall i | 0 <= i < |right| ensures right[i] + inherited + tag == xs[mid + 1..hi + 1][i] {
      assert mapped[|left| + i] == right[i] + inherited + tag;
    }
  }

  lemma {:induction false} RunShows(push: bool, xs: seq<int>, log: seq<Entry<int>>)
    requires xs != [] && RangesIn(|xs|, log)
    ensures Shows(Run(SumAddPolicy(), push, xs, log), ArrayAfter(xs, log), 0, |xs| - 1, 0)
  {
    var p, t, ys := SumAddPolicy(), Run(SumAddPolicy(), push, xs, log), ArrayAfter(xs, log);
    SumAddLawful();
    hide Lawful, InducedActionsCommute, Run, Elements, Consistent, Shows, MapApply;
    RunRepresentsOracle(p, push, xs, log);
    OracleIsArrayAfter(xs, log);
    MapIdentity(p, ys);
    assert ys[0..|xs|] == ys;
    ElementsShow(t, ys, 0, |xs| - 1, 0);
  }

  /** When a query of the version after a log is answered, in either variant. */
  lemma {:induction false} QueryDecides(push: bool, xs: seq<int>, log: seq<Entry<int>>, l: nat, r: nat)
    requires ValidRange(|xs|, l, r) && RangesIn(|xs|, log)
    ensures var t := Run(SumAddPolicy(), push, xs, log);
            TryQuery(SumAddPolicy(), t, 0, |xs| - 1, l, r, 0).Some?
            <==> QueryRepresentable(t, ArrayAfter(xs, log), 0, |xs| - 1, l, r, 0)
  {
    hide Run, QueryRepresentable, TryQuery, Consistent, Shows, SumAddPolicy;
    RunIsConsistent(push, xs, log);
    RunShows(push, xs, log);
    QuerySucceeds(Run(SumAddPolicy(), push, xs, log), ArrayAfter(xs, log), 0, |xs| - 1, l, r, 0);
  }

  /** `validateRangeAdd` accepts: by the scalar test, or by reading and checking the latest array. */
  ghost predicate GuardAccepts(push: bool, xs: seq<int>, log: seq<Entry<int>>, bound: nat, l: nat, r: nat, value: int)
    requires xs != []
  {
    || ProvesRepresentability(bound + Magnitude(value), |xs|)
    || (LeavesFit(Run(SumAddPolicy(), push, xs, log), 0) && ProposalFits(ArrayAfter(xs, log), l, r, value))
  }

  /** A zero delta, or one that the guard and then the operations of the update accept. */
  ghost predicate Accepted(push: bool, xs: seq<int>, log: seq<Entry<int>>, bound: nat, l: nat, r: nat, value: int) {
    && xs != []
    && (value == 0
        || (&& GuardAccepts(push, xs, log, bound, l, r, value)
            && OperationsFit(push, Run(SumAddPolicy(), push, xs, log), 0, |xs| - 1, l, r, value)))
  }

  lemma {:induction false} AcceptedIs(
      push: bool, xs: seq<int>, log: seq<Entry<int>>, bound: nat, l: nat, r: nat, value: int)
    requires xs != []
    ensures Accepted(push, xs, log, bound, l, r, value)
       <==> || value == 0
            || (&& GuardAccepts(push, xs, log, bound, l, r, value)
                && OperationsFit(push, Run(SumAddPolicy(), push, xs, log), 0, |xs| - 1, l, r, value))
  {
  }

  /** The result of the guard decides whether it accepts. */
  lemma {:induction false} GuardDecides(
      push: bool, xs: seq<int>, log: seq<Entry<int>>, bound: nat, l: nat, r: nat, value: int, next: Option<nat>)
    requires xs != []
    requires var leaves := TryMaterialize(SumAddPolicy(), Run(SumAddPolicy(), push, xs, log), 0);
             next.Some? <==>
               || ProvesRepresentability(bound + Magnitude(value), |xs|)
               || (leaves.Some? && ProposalFits(ArrayAfter(xs, log), l, r, value))
    ensures next.Some? <==> GuardAccepts(push, xs, log, bound, l, r, value)
  {
    hide TryMaterialize, Run, ProposalFits, ProvesRepresentability, LeavesFit;
    MaterializeSucceeds(Run(SumAddPolicy(), push, xs, log), 0);
  }

  /** The checked update of the latest version decides whether its operations are representable. */
  lemma {:induction false} UpdateDecides(push: bool, xs: seq<int>, log: seq<Entry<int>>, l: nat, r: nat, value: int)
    requires xs != [] && RangesIn(|xs|, log) && ValidRange(|xs|, l, r)
    ensures var t := Run(SumAddPolicy(), push, xs, log);
            TryUpdate(SumAddPolicy(), push, t, 0, |xs| - 1, l, r, value).Some?
            <==> OperationsFit(push, t, 0, |xs| - 1, l, r, value)
  {
    hide Run, TryUpdate, OperationsFit, Consistent;
    RunIsConsistent(push, xs, log);
    UpdateSucceeds(push, Run(SumAddPolicy(), push, xs, log), 0, |xs| - 1, l, r, value);
  }

  /** Guard and checked update together decide whether a nonzero delta is accepted. */
  lemma {:induction false} PreflightDecides(
      push: bool, xs: seq<int>, log: seq<Entry<int>>, bound: nat, l: nat, r: nat, value: int, next: Option<nat>)
    requires xs != [] && RangesIn(|xs|, log) && ValidRange(|xs|, l, r) && value != 0
    requires var leaves := TryMaterialize(SumAddPolicy(), Run(SumAddPolicy(), push, xs, log), 0);
             next.Some? <==>
               || ProvesRepresentability(bound + Magnitude(value), |xs|)
               || (leaves.Some? && ProposalFits(ArrayAfter(xs, log), l, r, value))
    ensures Accepted(push, xs, log, bound, l, r, value)
       <==> && next.Some?
            && TryUpdate(SumAddPolicy(), push, Run(SumAddPolicy(), push, xs, log), 0, |xs| - 1, l, r, value).Some?
  {
    hide Run, TryUpdate, OperationsFit, GuardAccepts, TryMaterialize, ProposalFits, ProvesRepresentability, Accepted;
    GuardDecides(push, xs, log, bound, l, r, value, next);
    UpdateDecides(push, xs, log, l, r, value);
    AcceptedIs(push, xs, log, bound, l, r, value);
  }

  /** What an accepted delta commits to the guard. */
  ghost predicate Commits(xs: seq<int>, log: seq<Entry<int>>, bound: nat, l: nat, r: nat, value: int, next: nat) {
    if value == 0 then next == bound else Committed(bound, value, AddRange(ArrayAfter(xs, log), l, r, value), next)
  }

  lemma {:induction false} NothingAccepted(push: bool, xs: seq<int>, log: seq<Entry<int>>, bound: nat, l: nat, r: nat)
    requires xs != []
    ensures Accepted(push, xs, log, bound, l, r, 0) && Commits(xs, log, bound, l, r, 0, bound)
  {
  }
}
