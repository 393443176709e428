/**
 The sum of the frontier over a whole family of ranges by double counting over the canonical nodes, without
 enumerating the ranges (include/valseg/frontier.hpp:331-453).
 */
module FrontierSums {
  import opened Wrappers
  import opened Canonical
  import opened Checked
  import opened Frontier

  datatype RangeFamilyCounts = RangeFamilyCounts(intersecting: nat, containing: nat)

  type Counter = (nat, nat) -> RangeFamilyCounts

  /** One pending node of the traversal and how many ranges of the family contain its parent. */
  datatype Frame = Frame(left: nat, right: nat, parentContaining: nat)

  // ---------------------------------------------------------------- the traversal

  /** The counts respect containment at every node of the subtree. */
  predicate Contract(counter: Counter, lo: nat, hi: nat, parent: nat)
    decreases Length(lo, hi)
  {
    var counts := counter(lo, hi);
    && parent <= counts.containing <= counts.intersecting
    && (lo < hi ==>
          && Contract(counter, lo, Midpoint(lo, hi), counts.containing)
          && Contract(counter, Midpoint(lo, hi) + 1, hi, counts.containing))
  }

  /** What the subtree contributes: at every node the ranges that meet it and do not contain its parent. */
  function Contributions(counter: Counter, lo: nat, hi: nat, parent: nat): int
    decreases Length(lo, hi)
  {
    var counts := counter(lo, hi);
    counts.intersecting - parent
    + if lo < hi then
        Contributions(counter, lo, Midpoint(lo, hi), counts.containing)
        + Contributions(counter, Midpoint(lo, hi) + 1, hi, counts.containing)
      else 0
  }

  function PendingSum(counter: Counter, stack: seq<Frame>): int {
    if stack == [] then 0
    else
      var f := stack[|stack| - 1];
      PendingSum(counter, stack[..|stack| - 1]) + Contributions(counter, f.left, f.right, f.parentContaining)
  }

  predicate PendingContract(counter: Counter, stack: seq<Frame>) {
    stack != [] ==>
      var f := stack[|stack| - 1];
      && PendingContract(counter, stack[..|stack| - 1])
      && Contract(counter, f.left, f.right, f.parentContaining)
  }

  /** Nodes the traversal has still to visit. */
  function PendingNodes(stack: seq<Frame>): nat {
    if stack == [] then 0
    else
      var f := stack[|stack| - 1];
      PendingNodes(stack[..|stack| - 1]) + if f.left <= f.right then 2 * (f.right - f.left) + 1 else 1
  }

  /** Every pending node is an interval of an array of n elements. */
  predicate Inside(n: nat, stack: seq<Frame>) {
    forall k :: 0 <= k < |stack| ==> stack[k].left <= stack[k].right < n
  }

  /** The stack after a visit: the children of the node, if it has any, in its place. */
  function Pushed(rest: seq<Frame>, frame: Frame, containing: nat): seq<Frame> {
    var mid := Midpoint(frame.left, frame.right);
    if frame.left == frame.right then rest
    else rest + [Frame(frame.left, mid, containing)] + [Frame(mid + 1, frame.right, containing)]
  }

  method PushChildren(rest: seq<Frame>, frame: Frame, containing: nat) returns (stack: seq<Frame>)
    ensures stack == Pushed(rest, frame, containing)
  {
    stack := rest;
    if frame.left != frame.right {
      var middle := Midpoint(frame.left, frame.right);
      stack := stack + [Frame(frame.left, middle, containing)];
      stack := stack + [Frame(middle + 1, frame.right, containing)];
    }
  }

  /** A node popped: its own contribution, and its children pushed in its place. */
  lemma {:induction false} VisitOne(n: nat, counter: Counter, stack: seq<Frame>, rest: seq<Frame>, frame: Frame)
    requires Inside(n, stack) && stack == rest + [frame]
    ensures frame.left <= frame.right < n
    ensures var counts := counter(frame.left, frame.right);
            var after := Pushed(rest, frame, counts.containing);
            && PendingSum(counter, stack) == PendingSum(counter, after) + counts.intersecting - frame.parentContaining
            && (PendingContract(counter, stack) <==>
                  && frame.parentContaining <= counts.containing <= counts.intersecting
                  && PendingContract(counter, after))
            && PendingNodes(after) == PendingNodes(stack) - 1
            && Inside(n, after)
  {
    var mid := Midpoint(frame.left, frame.right);
    var containing := counter(frame.left, frame.right).containing;
    var one := rest + [Frame(frame.left, mid, containing)];
    var two := one + [Frame(mid + 1, frame.right, containing)];
    assert stack[|rest|] == frame && forall k :: 0 <= k < |rest| ==> rest[k] == stack[k];
    assert stack[..|rest|] == rest && two[..|one|] == one && one[..|rest|] == rest;
  }

  lemma OnlyTheRoot(n: nat, counter: Counter, root: Frame)
    ensures PendingSum(counter, []) == 0 && PendingContract(counter, [])
    ensures PendingSum(counter, [root]) == Contributions(counter, root.left, root.right, root.parentContaining)
    ensures PendingContract(counter, [root]) <==> Contract(counter, root.left, root.right, root.parentContaining)
    ensures root.left <= root.right < n ==>
              Inside(n, [root]) && PendingNodes([root]) == 2 * (root.right - root.left) + 1
    ensures PendingNodes([]) == 0
  {
    assert [root][..0] == [];
  }

  /** Within the contract no contribution is negative. */
  lemma {:induction false} ContributionsArePositive(counter: Counter, lo: nat, hi: nat, parent: nat)
    requires Contract(counter, lo, hi, parent)
    ensures Contributions(counter, lo, hi, parent) >= 0
    decreases Length(lo, hi)
  {
    if lo < hi {
      var containing := counter(lo, hi).containing;
      ContributionsArePositive(counter, lo, Midpoint(lo, hi), containing);
      ContributionsArePositive(counter, Midpoint(lo, hi) + 1, hi, containing);
    }
  }

  lemma {:induction false} PendingIsPositive(counter: Counter, stack: seq<Frame>)
    requires PendingContract(counter, stack)
    ensures PendingSum(counter, stack) >= 0
  {
    if stack != [] {
      var f := stack[|stack| - 1];
      PendingIsPositive(counter, stack[..|stack| - 1]);
      ContributionsArePositive(counter, f.left, f.right, f.parentContaining);
    }
  }

  /** At every interval of the array the counter returns sizes. */
  ghost predicate SizedCounter(counter: Counter, n: nat) {
    forall lo: nat, hi: nat :: lo <= hi < n ==>
      counter(lo, hi).intersecting <= SIZE_MAXIMUM && counter(lo, hi).containing <= SIZE_MAXIMUM
  }

  /**
   `frontierSum`: visits the 2n - 1 canonical nodes, each once, with an explicit stack; refuses exactly a counter that
   breaks containment and a sum that is not a representable size.
   */
  method FrontierSum(n: nat, counter: Counter) returns (total: Option<nat>, ghost visits: nat)
    requires SizedCounter(counter, n)
    ensures total.Some? <==>
              n > 0 && Contract(counter, 0, n - 1, 0) && Contributions(counter, 0, n - 1, 0) <= SIZE_MAXIMUM
    ensures total.Some? ==> total.value == Contributions(counter, 0, n - 1, 0) && visits == 2 * n - 1
  {
    visits := 0;
    if n == 0 {
      return None, 0;
    }
    hide Contributions, Contract, PendingSum, PendingContract, PendingNodes, Pushed, Inside;
    var stack := [Frame(0, n - 1, 0)];
    OnlyTheRoot(n, counter, stack[0]);
    var sum: nat := 0;
    while stack != []
      invariant Inside(n, stack) && visits + PendingNodes(stack) == 2 * n - 1 && sum <= SIZE_MAXIMUM
      invariant sum + PendingSum(counter, stack) == Contributions(counter, 0, n - 1, 0)
      invariant PendingContract(counter, stack) <==> Contract(counter, 0, n - 1, 0)
      decreases PendingNodes(stack)
    {
      var frame := stack[|stack| - 1];
      var rest := stack[..|stack| - 1];
      VisitOne(n, counter, stack, rest, frame);
      var counts := counter(frame.left, frame.right);
      if counts.containing > counts.intersecting || frame.parentContaining > counts.containing {
        return None, visits;
      }
      visits := visits + 1;
      stack := PushChildren(rest, frame, counts.containing);
      if PendingContract(counter, stack) {
        PendingIsPositive(counter, stack);
      }
      var contribution :=
        CheckedSizeAdd(counts.intersecting - counts.containing, counts.containing - frame.parentContaining);
      if contribution.None? {
        return None, visits;
      }
      var next := CheckedSizeAdd(sum, contribution.value);
      if next.None? {
        return None, visits;
      }
      sum := next.value;
    }
    return Some(sum), visits;
  }

  // ---------------------------------------------------------------- double counting

  /** A range of a family, by its inclusive ends. */
  datatype Range = Range(left: nat, right: nat)

  /** Ranges of the family that meet the interval. */
  function Meeting(family: seq<Range>, lo: nat, hi: nat): nat {
    if family == [] then 0
    else Meeting(family[1..], lo, hi) + if Meets(lo, hi, family[0].left, family[0].right) then 1 else 0
  }

  /** Ranges of the family that contain the interval. */
  function Covering(family: seq<Range>, lo: nat, hi: nat): nat {
    if family == [] then 0
    else Covering(family[1..], lo, hi) + if Covered(lo, hi, family[0].left, family[0].right) then 1 else 0
  }

  /** The sum of F over the family, range by range. */
  function TotalVisited(family: seq<Range>, n: nat): nat
    requires n > 0
  {
    if family == [] then 0
    else TotalVisited(family[1..], n) + Visited(0, n - 1, family[0].left, family[0].right)
  }

  predicate ValidFamily(n: nat, family: seq<Range>) {
    forall k :: 0 <= k < |family| ==> ValidRange(n, family[k].left, family[k].right)
  }

  /** The counter counts the family at every interval of the array. */
  ghost predicate Counts(counter: Counter, family: seq<Range>, n: nat) {
    forall lo: nat, hi: nat :: lo <= hi < n ==>
      counter(lo, hi) == RangeFamilyCounts(Meeting(family, lo, hi), Covering(family, lo, hi))
  }

  /** Visits to the subtree of [lo, hi] by the ranges that do not already stop above it, at [above, below]. */
  function VisitsBelow(family: seq<Range>, above: nat, below: nat, lo: nat, hi: nat): nat {
    if family == [] then 0
    else
      VisitsBelow(family[1..], above, below, lo, hi)
      + if Covered(above, below, family[0].left, family[0].right) then 0
        else Visited(lo, hi, family[0].left, family[0].right)
  }

  /** The visits below a node split into those that stop at it or above it and those that go on, range by range. */
  lemma {:induction false} VisitsSplit(family: seq<Range>, above: nat, below: nat, lo: nat, hi: nat, n: nat)
    requires above <= lo <= hi <= below && ValidFamily(n, family)
    ensures VisitsBelow(family, above, below, lo, hi)
         == Meeting(family, lo, hi) - Covering(family, above, below)
            + if lo < hi then
                VisitsBelow(family, lo, hi, lo, Midpoint(lo, hi))
                + VisitsBelow(family, lo, hi, Midpoint(lo, hi) + 1, hi)
              else 0
  {
    if family != [] {
      VisitsSplit(family[1..], above, below, lo, hi, n);
      VisitsOf(family[0].left, family[0].right, lo, hi);
      hide Visited;
    }
  }

  lemma VisitsOf(l: nat, r: nat, lo: nat, hi: nat)
    requires lo <= hi && l <= r
    ensures Covered(lo, hi, l, r) ==> Meets(lo, hi, l, r) && Visited(lo, hi, l, r) == 1
    ensures !Covered(lo, hi, l, r) ==>
              Visited(lo, hi, l, r)
              == (if Meets(lo, hi, l, r) then 1 else 0)
                 + if lo < hi then Visited(lo, Midpoint(lo, hi), l, r) + Visited(Midpoint(lo, hi) + 1, hi, l, r) else 0
  {
  }

  /** Double counting: summing over nodes what a correct counter says is summing F over the ranges. */
  lemma {:induction false} ContributionsAreVisits(
      counter: Counter, family: seq<Range>, n: nat, above: nat, below: nat, lo: nat, hi: nat)
    requires above <= lo <= hi <= below && hi < n && ValidFamily(n, family) && Counts(counter, family, n)
    ensures Contributions(counter, lo, hi, Covering(family, above, below))
         == VisitsBelow(family, above, below, lo, hi)
    ensures Contract(counter, lo, hi, Covering(family, above, below))
    decreases hi - lo
  {
    VisitsSplit(family, above, below, lo, hi, n);
    CoveringNests(family, above, below, lo, hi, n);
    if lo < hi {
      ContributionsAreVisits(counter, family, n, lo, hi, lo, Midpoint(lo, hi));
      ContributionsAreVisits(counter, family, n, lo, hi, Midpoint(lo, hi) + 1, hi);
    }
    hide VisitsBelow, Covering, Meeting;
  }

  /** What covers an interval covers every part of it, and meets it. */
  lemma {:induction false} CoveringNests(family: seq<Range>, above: nat, below: nat, lo: nat, hi: nat, n: nat)
    requires above <= lo <= hi <= below && ValidFamily(n, family)
    ensures Covering(family, above, below) <= Covering(family, lo, hi) <= Meeting(family, lo, hi)
  {
    if family != [] {
      CoveringNests(family[1..], above, below, lo, hi, n);
    }
  }

  /** Nothing covers an interval that leaves the array: the root has no parent. */
  lemma {:induction false} NothingAboveTheRoot(family: seq<Range>, n: nat)
    requires n > 0 && ValidFamily(n, family)
    ensures Covering(family, 0, n) == 0
    ensures VisitsBelow(family, 0, n, 0, n - 1) == TotalVisited(family, n)
  {
    if family != [] {
      NothingAboveTheRoot(family[1..], n);
    }
  }

  /** For every family, a counter that counts it makes `frontierSum` return the exact sum of F over the family. */
  lemma {:induction false} FrontierSumIsExact(counter: Counter, family: seq<Range>, n: nat)
    requires n > 0 && ValidFamily(n, family) && Counts(counter, family, n)
    ensures Contract(counter, 0, n - 1, 0) && Contributions(counter, 0, n - 1, 0) == TotalVisited(family, n)
  {
    NothingAboveTheRoot(family, n);
    ContributionsAreVisits(counter, family, n, 0, n, 0, n - 1);
  }

  lemma {:induction false} MeetingWithin(family: seq<Range>, lo: nat, hi: nat)
    ensures Meeting(family, lo, hi) <= |family|
  {
    if family != [] {
      MeetingWithin(family[1..], lo, hi);
    }
  }

  /** A counter of a family of representable size returns sizes. */
  lemma CountedIsSized(counter: Counter, family: seq<Range>, n: nat)
    requires ValidFamily(n, family) && Counts(counter, family, n) && |family| <= SIZE_MAXIMUM
    ensures SizedCounter(counter, n)
  {
    forall lo: nat, hi: nat | lo <= hi < n
      ensures counter(lo, hi).intersecting <= SIZE_MAXIMUM && counter(lo, hi).containing <= SIZE_MAXIMUM
    {
      CoveringNests(family, lo, hi, lo, hi, n);
      MeetingWithin(family, lo, hi);
    }
  }

  /** `frontierSum` with a counter of any family: the exact sum of F over it, refused exactly if it is no size. */
  method FamilyFrontierSum(n: nat, counter: Counter, ghost family: seq<Range>) returns (total: Option<nat>)
    requires ValidFamily(n, family) && Counts(counter, family, n) && |family| <= SIZE_MAXIMUM
    ensures total.Some? <==> n > 0 && TotalVisited(family, n) <= SIZE_MAXIMUM
    ensures total.Some? ==> total.value == TotalVisited(family, n)
  {
    CountedIsSized(counter, family, n);
    if n > 0 {
      FrontierSumIsExact(counter, family, n);
    }
    hide Contributions, Contract, TotalVisited, ValidFamily, Counts, SizedCounter;
    ghost var visits;
    total, visits := FrontierSum(n, counter);
  }

  // ---------------------------------------------------------------- all ranges

  /** `triangularNumber`, halving the even factor. */
  function TriangularNumber(n: nat): (t: nat)
    ensures 2 * t == n * (n + 1)
  {
    if n % 2 == 0 then
      assert n == 2 * (n / 2);
      n / 2 * (n + 1)
    else
      assert n + 1 == 2 * (n / 2 + 1);
      n * (n / 2 + 1)
  }

  /** ... and refuses exactly a result that is not a representable size. */
  function CheckedTriangularNumber(n: nat): (t: Option<nat>)
    requires n <= SIZE_MAXIMUM
    ensures t.Some? <==> TriangularNumber(n) <= SIZE_MAXIMUM
    ensures t.Some? ==> t.value == TriangularNumber(n)
  {
    if n % 2 == 0 then
      var next :- CheckedSizeAdd(n, 1);
      CheckedSizeMultiply(n / 2, next)
    else
      CheckedSizeMultiply(n, n / 2 + 1)
  }

  /** Every range that ends at r. */
  function EndingAt(r: nat): (family: seq<Range>)
    ensures |family| == r + 1
    ensures forall l :: 0 <= l <= r ==> family[l] == Range(l, r)
  {
    seq(r + 1, l requires 0 <= l <= r => Range(l, r))
  }

  /** Every range that ends before m. */
  function EndingBefore(m: nat): seq<Range> {
    if m == 0 then [] else EndingBefore(m - 1) + EndingAt(m - 1)
  }

  function AllRanges(n: nat): seq<Range> {
    EndingBefore(n)
  }

  /** Every valid range occurs in the enumeration, exactly once. */
  lemma {:induction false} AllRangesOnce(n: nat, range: Range)
    ensures multiset(AllRanges(n))[range] == if ValidRange(n, range.left, range.right) then 1 else 0
  {
    if n > 0 {
      AllRangesOnce(n - 1, range);
      EndingOnce(n - 1, n, range);
      assert EndingAt(n - 1)[..n] == EndingAt(n - 1);
    }
  }

  lemma {:induction false} EndingOnce(r: nat, k: nat, range: Range)
    requires k <= r + 1
    ensures multiset(EndingAt(r)[..k])[range] == if range.right == r && range.left < k then 1 else 0
    decreases k
  {
    if k > 0 {
      EndingOnce(r, k - 1, range);
      assert EndingAt(r)[..k] == EndingAt(r)[..k - 1] + [Range(k - 1, r)];
    }
  }

  lemma {:induction false} CountsConcat(a: seq<Range>, b: seq<Range>, lo: nat, hi: nat)
    ensures Meeting(a + b, lo, hi) == Meeting(a, lo, hi) + Meeting(b, lo, hi)
    ensures Covering(a + b, lo, hi) == Covering(a, lo, hi) + Covering(b, lo, hi)
  {
    if a == [] {
      assert a + b == b;
    } else {
      assert (a + b)[1..] == a[1..] + b;
      CountsConcat(a[1..], b, lo, hi);
    }
  }

  lemma CountsOne(range: Range, lo: nat, hi: nat)
    ensures Meeting([range], lo, hi) == if Meets(lo, hi, range.left, range.right) then 1 else 0
    ensures Covering([range], lo, hi) == if Covered(lo, hi, range.left, range.right) then 1 else 0
  {
    assert [range][1..] == [];
  }

  /** Of the ranges ending at r, those with the first k left ends. */
  lemma {:induction false} CountsEndingAt(r: nat, k: nat, lo: nat, hi: nat)
    requires k <= r + 1 && lo <= hi
    ensures Meeting(EndingAt(r)[..k], lo, hi) == if r < lo then 0 else if k <= hi then k else hi + 1
    ensures Covering(EndingAt(r)[..k], lo, hi) == if r < hi then 0 else if k <= lo then k else lo + 1
    decreases k
  {
    if k > 0 {
      var last := [Range(k - 1, r)];
      CountsEndingAt(r, k - 1, lo, hi);
      assert EndingAt(r)[..k] == EndingAt(r)[..k - 1] + last;
      CountsConcat(EndingAt(r)[..k - 1], last, lo, hi);
      CountsOne(last[0], lo, hi);
      hide Meeting, Covering;
    }
  }

  /** The triangular number as a sum. */
  function SumUpTo(m: nat): nat {
    if m == 0 then 0 else SumUpTo(m - 1) + m
  }

  lemma {:induction false} SumUpToIsTriangular(m: nat)
    ensures SumUpTo(m) == TriangularNumber(m)
  {
    if m > 0 {
      SumUpToIsTriangular(m - 1);
      TimesNext(m, m);
      assert (m - 1) * m == m * m - m;
      hide TriangularNumber;
    }
  }

  function Times(x: nat, y: nat): nat {
    x * y
  }

  lemma TimesNext(x: nat, y: nat)
    ensures (x + 1) * y == x * y + y && y * (x + 1) == x * y + y
    ensures Times(x + 1, y) == Times(x, y) + y
  {
  }

  lemma TimesZero(y: nat)
    ensures Times(0, y) == 0
  {
  }

  lemma {:induction false} SumUpToSplits(a: nat, b: nat)
    ensures SumUpTo(a + b) == SumUpTo(a) + SumUpTo(b) + a * b
  {
    if a > 0 {
      SumUpToSplits(a - 1, b);
      TimesNext(a - 1, b);
      assert SumUpTo(a + b) == SumUpTo(a - 1 + b) + a + b;
      hide SumUpTo;
    }
  }

  /** One more right end, m - 1. */
  lemma EndingStep(m: nat, lo: nat, hi: nat)
    requires m > 0 && lo <= hi
    ensures Meeting(EndingBefore(m), lo, hi)
         == Meeting(EndingBefore(m - 1), lo, hi) + if m <= lo then 0 else if m <= hi then m else hi + 1
    ensures Covering(EndingBefore(m), lo, hi) == Covering(EndingBefore(m - 1), lo, hi) + if m <= hi then 0 else lo + 1
  {
    CountsEndingAt(m - 1, m, lo, hi);
    assert EndingAt(m - 1)[..m] == EndingAt(m - 1);
    CountsConcat(EndingBefore(m - 1), EndingAt(m - 1), lo, hi);
  }

  lemma {:induction false} MeetingEndingBefore(m: nat, lo: nat, hi: nat)
    requires lo <= hi
    ensures m <= lo ==> Meeting(EndingBefore(m), lo, hi) == 0
    ensures lo <= m <= hi + 1 ==> Meeting(EndingBefore(m), lo, hi) == SumUpTo(m) - SumUpTo(lo)
    ensures hi < m ==> Meeting(EndingBefore(m), lo, hi) == SumUpTo(hi + 1) - SumUpTo(lo) + Times(m - hi - 1, hi + 1)
  {
    if m > 0 {
      hide Meeting, EndingBefore, SumUpTo, Times;
      MeetingEndingBefore(m - 1, lo, hi);
      EndingStep(m, lo, hi);
      SumUpToStep(m);
      if m > hi + 1 {
        TimesNext(m - hi - 2, hi + 1);
      }
    }
  }

  lemma SumUpToStep(m: nat)
    requires m > 0
    ensures SumUpTo(m) == SumUpTo(m - 1) + m
  {
  }

  lemma {:induction false} CoveringEndingBefore(m: nat, lo: nat, hi: nat)
    requires lo <= hi
    ensures Covering(EndingBefore(m), lo, hi) == if m <= hi then 0 else Times(m - hi, lo + 1)
  {
    if m > 0 {
      hide Covering, EndingBefore, Times;
      CoveringEndingBefore(m - 1, lo, hi);
      EndingStep(m, lo, hi);
      TimesZero(lo + 1);
      if m > hi {
        TimesNext(m - hi - 1, lo + 1);
      }
    }
  }

  /** `allRangesCounter` */
  function AllRangesCounter(n: nat): Counter
    requires n > 0
  {
    var total := TriangularNumber(n);
    (lo: nat, hi: nat) =>
      if lo <= hi < n then
        AllRangesBound(n, lo, hi);
        RangeFamilyCounts(total - TriangularNumber(lo) - TriangularNumber(n - 1 - hi), (lo + 1) * (n - hi))
      else RangeFamilyCounts(0, 0)
  }

  /** Of the n(n + 1)/2 ranges, those entirely on one side of [lo, hi] do not meet it. */
  lemma AllRangesBound(n: nat, lo: nat, hi: nat)
    requires lo <= hi < n
    ensures TriangularNumber(n) - TriangularNumber(lo) - TriangularNumber(n - 1 - hi)
         == Meeting(AllRanges(n), lo, hi)
    ensures (lo + 1) * (n - hi) == Covering(AllRanges(n), lo, hi)
  {
    var tail := n - 1 - hi;
    MeetingEndingBefore(n, lo, hi);
    CoveringEndingBefore(n, lo, hi);
    SumUpToSplits(tail, hi + 1);
    SumUpToIsTriangular(n);
    SumUpToIsTriangular(lo);
    SumUpToIsTriangular(tail);
    hide Meeting, Covering, EndingBefore, TriangularNumber, SumUpTo;
  }

  /** There are n(n + 1)/2 ranges, all of them valid, and the counter counts them. */
  lemma {:induction false} AllRangesCounted(n: nat)
    requires n > 0
    ensures |AllRanges(n)| == TriangularNumber(n)
    ensures ValidFamily(n, AllRanges(n)) && Counts(AllRangesCounter(n), AllRanges(n), n)
  {
    AllRangesNumber(n);
    forall k | 0 <= k < |AllRanges(n)| ensures ValidRange(n, AllRanges(n)[k].left, AllRanges(n)[k].right) {
      AllRangesOnce(n, AllRanges(n)[k]);
      assert AllRanges(n)[k] in multiset(AllRanges(n));
    }
    forall lo: nat, hi: nat | lo <= hi < n
      ensures AllRangesCounter(n)(lo, hi)
           == RangeFamilyCounts(Meeting(AllRanges(n), lo, hi), Covering(AllRanges(n), lo, hi))
    {
      AllRangesBound(n, lo, hi);
    }
  }

  lemma {:induction false} AllRangesNumber(m: nat)
    ensures |EndingBefore(m)| == SumUpTo(m) == TriangularNumber(m)
  {
    SumUpToIsTriangular(m);
    hide TriangularNumber;
    if m > 0 {
      AllRangesNumber(m - 1);
    }
  }

  /** Once n(n + 1)/2 is a size, so is every value the counter computes on the way. */
  lemma AllRangesFits(n: nat, lo: nat, hi: nat)
    requires lo <= hi < n && TriangularNumber(n) <= SIZE_MAXIMUM
    ensures n <= SIZE_MAXIMUM
    ensures CheckedTriangularNumber(lo).Some? && CheckedTriangularNumber(n - 1 - hi).Some?
    ensures CheckedSizeMultiply(lo + 1, n - hi).Some?
  {
    assert 2 * TriangularNumber(n) == n * n + n;
    assert n <= TriangularNumber(n) by {
      assert n * n >= n;
    }
    AllRangesCounted(n);
    AllRangesBound(n, lo, hi);
    CoveringNests(AllRanges(n), lo, hi, lo, hi, n);
    MeetingWithin(AllRanges(n), lo, hi);
    hide ValidFamily, Counts, Meeting, Covering, TriangularNumber, CheckedTriangularNumber;
  }

  /** The expected frontier of docs/proof.md 10.4: the sum of F over all n(n + 1)/2 ranges. */
  lemma AllRangesSum(n: nat)
    requires n > 0
    ensures Contract(AllRangesCounter(n), 0, n - 1, 0)
    ensures Contributions(AllRangesCounter(n), 0, n - 1, 0) == TotalVisited(AllRanges(n), n)
  {
    AllRangesCounted(n);
    FrontierSumIsExact(AllRangesCounter(n), AllRanges(n), n);
  }

  /** `frontierSum` with `allRangesCounter`: refused exactly when the number of ranges or the sum is no size. */
  method AllRangesFrontierSum(n: nat) returns (total: Option<nat>)
    requires n <= SIZE_MAXIMUM
    ensures total.Some? <==>
              && n > 0 && TriangularNumber(n) <= SIZE_MAXIMUM
              && TotalVisited(AllRanges(n), n) <= SIZE_MAXIMUM
    ensures total.Some? ==> total.value == TotalVisited(AllRanges(n), n)
  {
    hide TriangularNumber, CheckedTriangularNumber, AllRanges, AllRangesCounter, ValidFamily, Counts, TotalVisited;
    if n == 0 || CheckedTriangularNumber(n).None? {
      return None;
    }
    AllRangesCounted(n);
    total := FamilyFrontierSum(n, AllRangesCounter(n), AllRanges(n));
  }

  // ---------------------------------------------------------------- fixed-width windows

  /** The first k windows of the given width. */
  function Windows(width: nat, k: nat): (family: seq<Range>)
    requires width > 0
    ensures |family| == k
    ensures forall s :: 0 <= s < k ==> family[s] == Range(s, s + width - 1)
  {
    seq(k, s requires 0 <= s < k => Range(s, s + width - 1))
  }

  lemma WindowsNext(width: nat, k: nat)
    requires width > 0 && k > 0
    ensures Windows(width, k) == Windows(width, k - 1) + [Range(k - 1, k - 1 + width - 1)]
  {
  }

  /** Starts in [low, high] among the first k. */
  function StartsIn(k: nat, low: nat, high: nat): nat {
    var clipped := if high < k - 1 then high else k - 1;
    if low <= clipped then clipped - low + 1 else 0
  }

  /** `fixedWidthCounter` */
  function FixedWidthCounter(n: nat, width: nat): Counter
    requires 0 < width <= n
  {
    (lo: nat, hi: nat) =>
      var firstMeeting := if lo + 1 > width then lo + 1 - width else 0;
      var firstContaining := if hi + 1 > width then hi + 1 - width else 0;
      RangeFamilyCounts(StartsIn(n - width + 1, firstMeeting, hi),
                        if lo <= hi && hi - lo + 1 <= width then StartsIn(n - width + 1, firstContaining, lo) else 0)
  }

  lemma {:induction false} CountsWindows(width: nat, k: nat, lo: nat, hi: nat)
    requires 0 < width && lo <= hi
    ensures Meeting(Windows(width, k), lo, hi) == StartsIn(k, if lo + 1 > width then lo + 1 - width else 0, hi)
    ensures Covering(Windows(width, k), lo, hi)
         == if hi - lo + 1 <= width then StartsIn(k, if hi + 1 > width then hi + 1 - width else 0, lo) else 0
  {
    if k > 0 {
      var last := [Range(k - 1, k - 1 + width - 1)];
      CountsWindows(width, k - 1, lo, hi);
      WindowsNext(width, k);
      CountsConcat(Windows(width, k - 1), last, lo, hi);
      CountsOne(last[0], lo, hi);
      hide Meeting, Covering, Windows;
    }
  }

  /** All n - width + 1 windows are valid, and the counter counts them. */
  lemma WindowsCounted(n: nat, width: nat)
    requires 0 < width <= n
    ensures var family := Windows(width, n - width + 1);
            ValidFamily(n, family) && Counts(FixedWidthCounter(n, width), family, n)
  {
    var counter, family := FixedWidthCounter(n, width), Windows(width, n - width + 1);
    forall lo: nat, hi: nat | lo <= hi < n
      ensures counter(lo, hi) == RangeFamilyCounts(Meeting(family, lo, hi), Covering(family, lo, hi))
    {
      CountsWindows(width, n - width + 1, lo, hi);
    }
  }

  /** The sum of F over the n - width + 1 windows of a fixed width. */
  lemma FixedWidthSum(n: nat, width: nat)
    requires 0 < width <= n
    ensures Contract(FixedWidthCounter(n, width), 0, n - 1, 0)
    ensures Contributions(FixedWidthCounter(n, width), 0, n - 1, 0) == TotalVisited(Windows(width, n - width + 1), n)
  {
    WindowsCounted(n, width);
    FrontierSumIsExact(FixedWidthCounter(n, width), Windows(width, n - width + 1), n);
  }

  /** `frontierSum` with `fixedWidthCounter`: refused exactly when there is no such window or the sum is no size. */
  method FixedWidthFrontierSum(n: nat, width: nat) returns (total: Option<nat>)
    requires n <= SIZE_MAXIMUM
    ensures total.Some? <==>
              0 < width <= n && TotalVisited(Windows(width, n - width + 1), n) <= SIZE_MAXIMUM
    ensures total.Some? ==> total.value == TotalVisited(Windows(width, n - width + 1), n)
  {
    hide ValidFamily, Counts, TotalVisited, FixedWidthCounter;
    if n == 0 || width == 0 || width > n {
      return None;
    }
    WindowsCounted(n, width);
    total := FamilyFrontierSum(n, FixedWidthCounter(n, width), Windows(width, n - width + 1));
  }
}
