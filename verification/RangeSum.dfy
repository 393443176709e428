/**
 The specification of every range-add / range-sum structure: plain arrays, one per version
 (src/brute_force_array.cpp), and how the tagged trees of SumAddPolicy answer for them.
 */
module RangeSum {
  import opened Wrappers
  import opened Canonical
  import opened Checked
  import opened Policies
  import opened TagTrees
  import opened Histories
  import opened SumAdd

  function Sum(xs: seq<int>): int {
    if xs == [] then 0 else xs[0] + Sum(xs[1..])
  }

  /** The array with d added to the elements l, ..., r. */
  function AddRange(xs: seq<int>, l: nat, r: nat, d: int): (ys: seq<int>)
    ensures |ys| == |xs|
    ensures forall i :: 0 <= i < |xs| ==> ys[i] == if l <= i <= r then xs[i] + d else xs[i]
  {
    seq(|xs|, i requires 0 <= i < |xs| => if l <= i <= r then xs[i] + d else xs[i])
  }

  /** The elements from index `base` on, with the value added to those in [l, r]. */
  function AddFrom(xs: seq<int>, base: nat, l: nat, r: nat, value: int): (ys: seq<int>)
    ensures |ys| == |xs|
    ensures forall k :: 0 <= k < |xs| ==> ys[k] == if l <= base + k <= r then xs[k] + value else xs[k]
  {
    seq(|xs|, k requires 0 <= k < |xs| => if l <= base + k <= r then xs[k] + value else xs[k])
  }

  /** The array of the version that a log of range additions publishes. */
  function ArrayAfter(xs: seq<int>, log: seq<Entry<int>>): (ys: seq<int>)
    ensures |ys| == |xs|
  {
    if log == [] then xs
    else
      var e := log[|log| - 1];
      AddRange(ArrayAfter(xs, log[..|log| - 1]), e.left, e.right, e.action)
  }

  lemma {:induction false} SumConcat(xs: seq<int>, ys: seq<int>)
    ensures Sum(xs + ys) == Sum(xs) + Sum(ys)
  {
    if xs == [] {
      assert xs + ys == ys;
    } else {
      assert (xs + ys)[1..] == xs[1..] + ys;
      SumConcat(xs[1..], ys);
    }
  }

  lemma {:induction false} FoldIsSum(xs: seq<int>)
    ensures Fold(SumAddPolicy(), xs) == Sum(xs)
  {
    if xs != [] {
      FoldIsSum(xs[1..]);
    }
  }

  lemma {:induction false} RangeAddsOnce(xs: seq<int>, l: nat, r: nat, d: int)
    ensures ApplyRange(SumAddPolicy(), d, xs, 0, l, r) == AddRange(xs, l, r, d)
  {
  }

  lemma {:induction false} OracleIsArrayAfter(xs: seq<int>, log: seq<Entry<int>>)
    ensures Oracle(SumAddPolicy(), xs, log) == ArrayAfter(xs, log)
  {
    if log != [] {
      var e := log[|log| - 1];
      OracleIsArrayAfter(xs, log[..|log| - 1]);
      RangeAddsOnce(ArrayAfter(xs, log[..|log| - 1]), e.left, e.right, e.action);
      hide SumAddPolicy;
    }
  }

  /**
   The tree of either variant after any log answers with the sum over the plain array of that version, whenever it
   answers.
   */
  lemma {:induction false} AnswerIsSum(push: bool, xs: seq<int>, log: seq<Entry<int>>, l: nat, r: nat)
    requires ValidRange(|xs|, l, r) && RangesIn(|xs|, log)
    ensures var p := SumAddPolicy();
            Answer(p, push, xs, log, l, r) == Sum(ArrayAfter(xs, log)[l..r + 1])
  {
    var p := SumAddPolicy();
    SumAddLawful();
    AnswerIsExpected(p, push, xs, log, l, r);
    OracleIsArrayAfter(xs, log);
    FoldIsSum(ArrayAfter(xs, log)[l..r + 1]);
  }

  // ---------------------------------------------------------------- sums over overlaps

  /** The sum of the elements that the interval [lo, hi] shares with the range [l, r]. */
  function SharedSum(xs: seq<int>, lo: nat, hi: nat, l: nat, r: nat): int {
    var from, to := if lo < l then l else lo, if hi < r then hi else r;
    if from <= to < |xs| then Sum(xs[from..to + 1]) else 0
  }

  lemma {:induction false} SharedSplits(xs: seq<int>, lo: nat, hi: nat, l: nat, r: nat)
    requires lo < hi < |xs|
    ensures SharedSum(xs, lo, hi, l, r)
         == SharedSum(xs, lo, Midpoint(lo, hi), l, r) + SharedSum(xs, Midpoint(lo, hi) + 1, hi, l, r)
  {
    hide Sum;
    var mid := Midpoint(lo, hi);
    var from, to := if lo < l then l else lo, if hi < r then hi else r;
    if from <= mid < to {
      assert xs[from..to + 1] == xs[from..mid + 1] + xs[mid + 1..to + 1];
      SumConcat(xs[from..mid + 1], xs[mid + 1..to + 1]);
    }
  }

  lemma SharedCases(xs: seq<int>, lo: nat, hi: nat, l: nat, r: nat)
    requires lo <= hi < |xs|
    ensures !Meets(lo, hi, l, r) && l <= r ==> SharedSum(xs, lo, hi, l, r) == 0
    ensures Covered(lo, hi, l, r) ==> SharedSum(xs, lo, hi, l, r) == Sum(xs[lo..hi + 1])
  {
  }

  /** At every canonical node that the range covers in part, the sum over what they share is representable. */
  ghost predicate OverlapsFit(xs: seq<int>, lo: nat, hi: nat, l: nat, r: nat) {
    forall a: nat, b: nat :: IsSegment(lo, hi, a, b) && Meets(a, b, l, r) && !Covered(a, b, l, r) ==>
      Fits(SharedSum(xs, a, b, l, r))
  }

  lemma {:induction false} OverlapsOutside(xs: seq<int>, lo: nat, hi: nat, l: nat, r: nat)
    requires lo <= hi && (lo == hi || !Meets(lo, hi, l, r) || Covered(lo, hi, l, r))
    ensures OverlapsFit(xs, lo, hi, l, r)
  {
    forall a: nat, b: nat | IsSegment(lo, hi, a, b) ensures !Meets(a, b, l, r) || Covered(a, b, l, r) {
      SegmentInside(lo, hi, a, b);
    }
  }

  lemma {:induction false} OverlapsSplit(xs: seq<int>, lo: nat, hi: nat, l: nat, r: nat)
    requires lo < hi && Meets(lo, hi, l, r) && !Covered(lo, hi, l, r)
    ensures OverlapsFit(xs, lo, hi, l, r)
       <==> && Fits(SharedSum(xs, lo, hi, l, r))
            && OverlapsFit(xs, lo, Midpoint(lo, hi), l, r) && OverlapsFit(xs, Midpoint(lo, hi) + 1, hi, l, r)
  {
    hide SharedSum, Fits;
    assert IsSegment(lo, hi, lo, hi);
  }

  // ---------------------------------------------------------------- canonical sums

  /**
   `validateCanonicalSums`: the sum over [lo, hi], if the sums over all canonical segments below are representable.
   */
  function CanonicalSum(values: seq<int>, lo: nat, hi: nat): (sum: Option<int>)
    requires lo <= hi < |values|
    ensures sum.Some? ==> sum.value == Sum(values[lo..hi + 1])
    decreases hi - lo
  {
    if lo == hi then
      assert values[lo..hi + 1][1..] == [];
      Some(values[lo])
    else
      var mid := Midpoint(lo, hi);
      var left :- CanonicalSum(values, lo, mid);
      var right :- CanonicalSum(values, mid + 1, hi);
      assert values[lo..hi + 1] == values[lo..mid + 1] + values[mid + 1..hi + 1];
      SumConcat(values[lo..mid + 1], values[mid + 1..hi + 1]);
      SumAddPolicy().TryCombine(left, right)
  }

  predicate CanonicalSumsFit(values: seq<int>) {
    values == [] || CanonicalSum(values, 0, |values| - 1).Some?
  }

  /** The sum over every canonical segment of more than one element is a word. */
  ghost predicate SegmentsFit(values: seq<int>, lo: nat, hi: nat) {
    forall a: nat, b: nat :: IsSegment(lo, hi, a, b) && a < b ==>
      -0x8000_0000_0000_0000 <= SharedSum(values, a, b, a, b) <= 0x7FFF_FFFF_FFFF_FFFF
  }

  /** The recursive check succeeds exactly when every canonical sum is a word. */
  lemma {:induction false} CanonicalSumsExactly(values: seq<int>, lo: nat, hi: nat)
    requires lo <= hi < |values|
    ensures CanonicalSum(values, lo, hi).Some? <==> SegmentsFit(values, lo, hi)
    decreases hi - lo
  {
    hide Sum;
    if lo == hi {
      SingleSegment(values, lo);
    } else {
      var mid := Midpoint(lo, hi);
      CanonicalSumsExactly(values, lo, mid);
      CanonicalSumsExactly(values, mid + 1, hi);
      SegmentsSplit(values, lo, hi);
      SharedSplits(values, lo, hi, lo, hi);
      hide SegmentsFit;
    }
  }

  lemma {:induction false} SingleSegment(values: seq<int>, at: nat)
    ensures SegmentsFit(values, at, at)
  {
    forall a: nat, b: nat | IsSegment(at, at, a, b) ensures a == b {
      SegmentInside(at, at, a, b);
    }
  }

  lemma {:induction false} SegmentsSplit(values: seq<int>, lo: nat, hi: nat)
    requires lo < hi
    ensures SegmentsFit(values, lo, hi)
       <==> && Fits(SharedSum(values, lo, hi, lo, hi))
            && SegmentsFit(values, lo, Midpoint(lo, hi)) && SegmentsFit(values, Midpoint(lo, hi) + 1, hi)
  {
    hide SharedSum;
    assert IsSegment(lo, hi, lo, hi);
  }

  /** The proposed array of an update is representable: every selected element and every canonical sum. */
  predicate ProposalFits(xs: seq<int>, l: nat, r: nat, d: int) {
    && (forall i :: 0 <= i < |xs| && l <= i <= r ==> Fits(xs[i] + d))
    && CanonicalSumsFit(AddRange(xs, l, r, d))
  }

  // ---------------------------------------------------------------- BruteForceArray

  class BruteForceArray {
    var versions: seq<seq<int>>

    ghost predicate Valid()
      reads this
    {
      && (forall v :: 0 <= v < |versions| ==> |versions[v]| == |versions[0]|)
      && (forall v, i :: 0 <= v < |versions| && 0 <= i < |versions[v]| ==> Fits(versions[v][i]))
    }

    constructor ()
      ensures Valid() && versions == []
    {
      versions := [];
    }

    method Initialize(values: seq<int>, mayExhaust: bool) returns (ok: bool)
      requires Valid() && forall i :: 0 <= i < |values| ==> Fits(values[i])
      modifies this
      ensures Valid()
      ensures ok ==> CanonicalSumsFit(values)
      ensures !ok ==> mayExhaust || !CanonicalSumsFit(values)
      ensures versions == if ok then [values] else old(versions)
    {
      var exhausted := Exhausted(mayExhaust);
      if exhausted {
        return false;
      }
      ok := CanonicalSumsFit(values);
      if ok {
        versions := [values];
      }
    }

    /** `rangeAdd` */
    method RangeAdd(base: nat, l: nat, r: nat, value: int, mayExhaust: bool) returns (version: Option<nat>)
      requires Valid() && Fits(value)
      modifies this
      ensures Valid()
      ensures version.Some? ==>
                base < |old(versions)| && ValidRange(|old(versions)[base]|, l, r)
                && ProposalFits(old(versions)[base], l, r, value)
      ensures version.None? ==>
                mayExhaust || base >= |versions| || !ValidRange(|versions[base]|, l, r)
                || !ProposalFits(versions[base], l, r, value)
      ensures version.None? ==> versions == old(versions)
      ensures version.Some? ==>
                && version.value == |old(versions)|
                && versions == old(versions) + [AddRange(old(versions)[base], l, r, value)]
    {
      if base >= |versions| || !ValidRange(|versions[base]|, l, r) {
        return None;
      }
      var exhausted := Exhausted(mayExhaust);
      if exhausted {
        return None;
      }
      var start := versions[base];
      var next := start;
      var i := l;
      while i <= r
        invariant l <= i <= r + 1 && |next| == |start|
        invariant forall j :: 0 <= j < |start| ==> next[j] == if l <= j < i then start[j] + value else start[j]
        invariant forall j :: l <= j < i ==> Fits(start[j] + value)
      {
        var sum := CheckedAdd(next[i], value);
        if sum.None? {
          return None;
        }
        next := next[i := sum.value];
        i := i + 1;
      }
      assert next == AddRange(start, l, r, value);
      if !CanonicalSumsFit(next) {
        return None;
      }
      versions := versions + [next];
      return Some(|versions| - 1);
    }

    /** `rangeSum`: an answer is the sum; it is refused when a running total leaves the representation. */
    method RangeSum(version: nat, l: nat, r: nat) returns (answer: Option<int>)
      requires Valid()
      ensures answer.Some? <==>
                && version < |versions| && ValidRange(|versions[version]|, l, r)
                && forall k :: l < k <= r + 1 ==> Fits(Sum(versions[version][l..k]))
      ensures answer.Some? ==> answer.value == Sum(versions[version][l..r + 1])
    {
      if version >= |versions| || !ValidRange(|versions[version]|, l, r) {
        return None;
      }
      var values := versions[version];
      var sum := 0;
      var i := l;
      assert values[l..l] == [];
      while i <= r
        invariant l <= i <= r + 1 && sum == Sum(values[l..i]) && Fits(sum)
        invariant forall k :: l < k <= i ==> Fits(Sum(values[l..k]))
      {
        assert values[l..i + 1] == values[l..i] + [values[i]];
        SumConcat(values[l..i], [values[i]]);
        assert Sum([values[i]]) == values[i] by {
          assert [values[i]][1..] == [];
        }
        var next := CheckedAdd(sum, values[i]);
        if next.None? {
          return None;
        }
        sum := next.value;
        i := i + 1;
      }
      return Some(sum);
    }
  }
}
