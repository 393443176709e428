/** SumAddDomainGuard: the numeric envelope (include/valseg/detail/sum_add_domain.hpp:55-154). */
module NumericDomain {
  import opened Wrappers
  import opened Canonical
  import opened Checked
  import opened SumAdd
  import opened RangeSum

  const BOUND_MAXIMUM: nat := 0xFFFF_FFFF_FFFF_FFFF

  /** `magnitude`, in the unsigned type that holds the magnitude of the smallest word. */
  function Magnitude(value: int): (m: nat)
    ensures m == if value >= 0 then value else -value
  {
    if value >= 0 then value else -(value + 1) + 1
  }

  /** Every element has at most the given magnitude. */
  predicate Dominates(bound: nat, values: seq<int>) {
    forall i :: 0 <= i < |values| ==> Magnitude(values[i]) <= bound
  }

  /** The largest magnitude of an element; zero for the empty array. */
  ghost predicate Largest(maximum: nat, values: seq<int>) {
    && Dominates(maximum, values)
    && (maximum == 0 || exists i :: 0 <= i < |values| && Magnitude(values[i]) == maximum)
  }

  /** `maxMagnitude` */
  method MaxMagnitude(values: seq<int>) returns (maximum: nat)
    requires forall i :: 0 <= i < |values| ==> Fits(values[i])
    ensures Largest(maximum, values) && maximum <= BOUND_MAXIMUM
  {
    maximum := 0;
    for i := 0 to |values|
      invariant Dominates(maximum, values[..i]) && maximum <= BOUND_MAXIMUM
      invariant maximum == 0 || exists j :: 0 <= j < i && Magnitude(values[j]) == maximum
    {
      var current := Magnitude(values[i]);
      if current > maximum {
        maximum := current;
      }
    }
    assert values[..|values|] == values;
  }

  function SaturatedAdd(left: nat, right: nat): (sum: nat)
    requires left <= BOUND_MAXIMUM && right <= BOUND_MAXIMUM
    ensures sum == if left + right <= BOUND_MAXIMUM then left + right else BOUND_MAXIMUM
  {
    if right > BOUND_MAXIMUM - left then BOUND_MAXIMUM else left + right
  }

  /** `provesCanonicalRepresentability` */
  predicate ProvesRepresentability(bound: nat, size: nat) {
    if bound == 0 || size == 0 then true
    else if size > MAXIMUM then false
    else bound <= MAXIMUM / size
  }

  /** The test by division accepts exactly the bounds whose product with the size is a word. */
  lemma ProvesIsProduct(bound: nat, size: nat)
    ensures ProvesRepresentability(bound, size) <==> bound * size <= 0x7FFF_FFFF_FFFF_FFFF
  {
    if bound != 0 && size != 0 {
      QuotientBound(bound, size, MAXIMUM);
      if size > MAXIMUM {
        Stretch(1, bound, size);
      }
    }
  }

  // ---------------------------------------------------------------- the envelope is sound

  /** An accepted bound keeps every sum of at most `size` elements representable. */
  lemma EnvelopeProduct(bound: nat, length: nat, size: nat)
    requires ProvesRepresentability(bound, size) && length <= size
    ensures bound * length <= MAXIMUM
  {
    if bound != 0 && size != 0 {
      var q := MAXIMUM / size;
      assert q * size <= MAXIMUM;
      ProductMonotone(bound, q, length, size);
    }
  }

  lemma ProductMonotone(a: nat, b: nat, c: nat, d: nat)
    requires a <= b && c <= d
    ensures a * c <= b * d
  {
    assert b * d - a * c == (b - a) * d + a * (d - c);
    assert (b - a) * d >= 0 && a * (d - c) >= 0;
  }

  lemma {:induction false} SumWithin(values: seq<int>, bound: nat)
    requires Dominates(bound, values)
    ensures -(bound * |values|) <= Sum(values) <= bound * |values|
  {
    if values != [] {
      SumWithin(values[1..], bound);
      assert bound * |values| == bound * (|values| - 1) + bound;
    }
  }

  lemma {:induction false} CanonicalSumFits(values: seq<int>, lo: nat, hi: nat, bound: nat)
    requires lo <= hi < |values| && Dominates(bound, values) && ProvesRepresentability(bound, |values|)
    ensures CanonicalSum(values, lo, hi).Some?
    decreases hi - lo
  {
    hide Sum, Dominates, ProvesRepresentability, Fits;
    if lo < hi {
      var mid := Midpoint(lo, hi);
      CanonicalSumFits(values, lo, mid, bound);
      CanonicalSumFits(values, mid + 1, hi, bound);
      SegmentSumFits(values, lo, mid, hi, bound);
    }
  }

  lemma {:induction false} SegmentSumFits(values: seq<int>, lo: nat, mid: nat, hi: nat, bound: nat)
    requires lo <= mid < hi < |values| && Dominates(bound, values) && ProvesRepresentability(bound, |values|)
    ensures Fits(Sum(values[lo..mid + 1]) + Sum(values[mid + 1..hi + 1]))
  {
    var whole := values[lo..hi + 1];
    assert whole == values[lo..mid + 1] + values[mid + 1..hi + 1];
    assert Dominates(bound, whole);
    hide Sum, Dominates, ProvesRepresentability;
    SumConcat(values[lo..mid + 1], values[mid + 1..hi + 1]);
    SumWithin(whole, bound);
    EnvelopeProduct(bound, |whole|, |values|);
  }

  /** Accepting the envelope implies that the exact leaf and canonical-sum check would accept. */
  lemma {:induction false} EnvelopeImpliesExact(current: seq<int>, bound: nat, l: nat, r: nat, value: int)
    requires Dominates(bound, current) && ValidRange(|current|, l, r)
    requires ProvesRepresentability(bound + Magnitude(value), |current|)
    ensures ProposalFits(current, l, r, value)
    ensures Dominates(bound + Magnitude(value), AddRange(current, l, r, value))
  {
    hide CanonicalSum, ProvesRepresentability;
    var next, proposed := bound + Magnitude(value), AddRange(current, l, r, value);
    assert Dominates(next, proposed);
    CanonicalSumFits(proposed, 0, |proposed| - 1, next);
    EnvelopeProduct(next, 1, |current|);
    assert forall i :: 0 <= i < |current| && l <= i <= r ==> proposed[i] == current[i] + value;
  }

  // ---------------------------------------------------------------- the guard

  /** What a guarded structure keeps: a bound over the representable leaves of its latest version. */
  ghost predicate Guards(bound: nat, current: seq<int>) {
    && bound <= BOUND_MAXIMUM
    && Dominates(bound, current)
    && forall i :: 0 <= i < |current| ==> Fits(current[i])
  }

  /** Any bound that dominates representable elements guards them. */
  lemma GuardsInitially(values: seq<int>, bound: nat)
    requires bound <= BOUND_MAXIMUM && Dominates(bound, values) && forall i :: 0 <= i < |values| ==> Fits(values[i])
    ensures Guards(bound, values)
  {
  }

  /** The bound an accepted delta commits: the envelope while the scalar test accepts it, the true maximum otherwise. */
  ghost predicate Committed(bound: nat, value: int, proposed: seq<int>, next: nat) {
    if ProvesRepresentability(bound + Magnitude(value), |proposed|) then next == bound + Magnitude(value)
    else Largest(next, proposed)
  }

  /**
   `validateRangeAdd`: the bound to commit, or a failure.  `leaves` is what the caller's traversal of the latest version
   yields; the scalar path never looks at it.
   */
  method ValidateRangeAdd(bound: nat, size: nat, l: nat, r: nat, value: int, leaves: Option<seq<int>>,
                          ghost current: seq<int>)
    returns (next: Option<nat>)
    requires Guards(bound, current) && Fits(value) && size == |current| && ValidRange(size, l, r)
    requires leaves.Some? ==> leaves.value == current
    ensures next.Some? ==>
              ProposalFits(current, l, r, value) && Guards(next.value, AddRange(current, l, r, value))
    ensures next.Some? ==> Committed(bound, value, AddRange(current, l, r, value), next.value)
    ensures next.Some? <==>
              || ProvesRepresentability(bound + Magnitude(value), size)
              || (leaves.Some? && ProposalFits(current, l, r, value))
  {
    var conservative := SaturatedAdd(bound, Magnitude(value));
    SaturationIsRefused(bound, Magnitude(value), size);
    if ProvesRepresentability(conservative, size) {
      EnvelopeImpliesExact(current, bound, l, r, value);
      return Some(conservative);
    }
    if leaves.None? {
      return None;
    }
    var proposed := leaves.value;
    var index := l;
    while index <= r
      invariant l <= index <= r + 1 && |proposed| == size
      invariant forall j :: 0 <= j < size ==> proposed[j] == if l <= j < index then current[j] + value else current[j]
      invariant forall j :: l <= j < index ==> Fits(current[j] + value)
    {
      var sum := CheckedAdd(proposed[index], value);
      if sum.None? {
        return None;
      }
      proposed := proposed[index := sum.value];
      index := index + 1;
    }
    assert proposed == AddRange(current, l, r, value);
    if !CanonicalSumsFit(proposed) {
      return None;
    }
    var maximum := MaxMagnitude(proposed);
    return Some(maximum);
  }

  /** A saturated sum proves nothing for a nonempty array, exactly as the unbounded sum would not. */
  lemma SaturationIsRefused(bound: nat, m: nat, size: nat)
    requires bound <= BOUND_MAXIMUM && m <= BOUND_MAXIMUM && size > 0
    ensures ProvesRepresentability(SaturatedAdd(bound, m), size) <==> ProvesRepresentability(bound + m, size)
    ensures ProvesRepresentability(bound + m, size) ==> SaturatedAdd(bound, m) == bound + m
  {
    if size <= MAXIMUM {
      assert MAXIMUM / size <= MAXIMUM;
    }
  }
}
