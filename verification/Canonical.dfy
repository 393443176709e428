/** The canonical partition: interval [lo, hi] splits after its midpoint (include/valseg/detail/checked_size.hpp). */
module Canonical {

  /** `midpoint`; total, so that the functions over intervals are. */
  function Midpoint(lo: nat, hi: nat): (mid: nat)
    ensures lo <= hi ==> lo <= mid <= hi
    ensures lo < hi ==> mid < hi
  {
    if lo <= hi then lo + (hi - lo) / 2 else lo
  }

  /** `inclusiveLength` of a nonempty interval. */
  function Length(lo: nat, hi: nat): (length: nat)
    ensures lo <= hi ==> length == hi - lo + 1
  {
    if lo <= hi then hi - lo + 1 else 0
  }

  /** Inclusive interval [lo, hi] and inclusive range [l, r] share an element. */
  predicate Meets(lo: nat, hi: nat, l: nat, r: nat) {
    l <= hi && lo <= r
  }

  /** Inclusive interval [lo, hi] lies inside the range [l, r]: the recursions stop here. */
  predicate Covered(lo: nat, hi: nat, l: nat, r: nat) {
    l <= lo && hi <= r
  }

  /** The elements of [lo, hi] inside the range [l, r]. */
  function Overlap(lo: nat, hi: nat, l: nat, r: nat): nat {
    Length(if lo < l then l else lo, if hi < r then hi else r)
  }

  lemma OverlapSplits(lo: nat, hi: nat, l: nat, r: nat)
    requires lo < hi && l <= r
    ensures Overlap(lo, hi, l, r) == Overlap(lo, Midpoint(lo, hi), l, r) + Overlap(Midpoint(lo, hi) + 1, hi, l, r)
  {
  }

  /** Is [a, b] an interval of the canonical partition of [lo, hi]? */
  predicate IsSegment(lo: nat, hi: nat, a: nat, b: nat)
    decreases Length(lo, hi)
  {
    || (a == lo && b == hi)
    || (lo < hi && (IsSegment(lo, Midpoint(lo, hi), a, b) || IsSegment(Midpoint(lo, hi) + 1, hi, a, b)))
  }

  lemma {:induction false} SegmentInside(lo: nat, hi: nat, a: nat, b: nat)
    requires lo <= hi && IsSegment(lo, hi, a, b)
    ensures lo <= a <= b <= hi
    decreases Length(lo, hi)
  {
    if lo < hi {
      if IsSegment(lo, Midpoint(lo, hi), a, b) {
        SegmentInside(lo, Midpoint(lo, hi), a, b);
      }
      if IsSegment(Midpoint(lo, hi) + 1, hi, a, b) {
        SegmentInside(Midpoint(lo, hi) + 1, hi, a, b);
      }
    }
  }

  /** Is [l, r] a range of an n-element array? */
  predicate ValidRange(n: nat, l: nat, r: nat) {
    l <= r < n
  }
}
