/**
 Height of the canonical tree and the largest frontier (include/valseg/detail/checked_size.hpp:99-110,
 include/valseg/frontier.hpp:318-326).
 */
module Heights {
  import opened Wrappers
  import opened Canonical
  import opened Frontier

  function Pow2(k: nat): (p: nat)
    ensures p > k
  {
    if k == 0 then 1 else 2 * Pow2(k - 1)
  }

  /** h is ceil(log2 n): the least exponent whose power of two reaches n. */
  ghost predicate IsCeilLog2(h: nat, n: nat) {
    n <= Pow2(h) && (h > 0 ==> Pow2(h - 1) < n)
  }

  lemma {:induction false} Pow2Monotone(j: nat, k: nat)
    requires j <= k
    ensures Pow2(j) <= Pow2(k)
    decreases k
  {
    if j < k {
      Pow2Monotone(j, k - 1);
    }
  }

  lemma CeilLog2Unique(h: nat, k: nat, n: nat)
    requires IsCeilLog2(h, n) && IsCeilLog2(k, n)
    ensures h == k
  {
    if h < k {
      Pow2Monotone(h, k - 1);
    } else if k < h {
      Pow2Monotone(k, h - 1);
    }
  }

  /** Shifting one bit out of the remainder doubles its weight. */
  lemma ShiftOut(rest: nat, p: nat, last: nat)
    requires rest * p <= last < (rest + 1) * p
    ensures rest / 2 * (2 * p) <= last < (rest / 2 + 1) * (2 * p)
  {
    var half, odd := rest / 2, rest % 2;
    assert rest == 2 * half + odd;
    assert half * (2 * p) + odd * p == rest * p;
    assert (half + 1) * (2 * p) == half * (2 * p) + 2 * p;
    assert (rest + 1) * p == rest * p + p;
  }

  lemma AtLeastOnce(times: nat, p: nat)
    requires times > 0
    ensures p <= times * p
  {
    assert times * p == (times - 1) * p + p && (times - 1) * p >= 0;
  }

  /** `treeHeight`: the number of bits of n - 1, counted by shifting. */
  method TreeHeight(n: nat) returns (result: Option<nat>)
    ensures result.Some? <==> n > 0
    ensures result.Some? ==> IsCeilLog2(result.value, n)
  {
    if n == 0 {
      return None;
    }
    var height: nat := 0;
    var rest: nat := n - 1;
    ghost var last := rest;
    while rest != 0
      invariant rest * Pow2(height) <= last < (rest + 1) * Pow2(height)
      invariant height > 0 ==> Pow2(height - 1) <= last
    {
      ghost var p := Pow2(height);
      ShiftOut(rest, p, last);
      AtLeastOnce(rest, p);
      assert Pow2(height + 1) == 2 * p;
      hide Pow2;
      rest := rest / 2;
      height := height + 1;
    }
    return Some(height);
  }

  /** Every canonical node of m elements has a subtree of height ceil(log2 m). */
  function Height(m: nat): nat {
    if m <= 1 then 0 else 1 + Height((m + 1) / 2)
  }

  lemma {:induction false} HeightIsCeilLog2(m: nat)
    requires m > 0
    ensures IsCeilLog2(Height(m), m)
  {
    if m > 1 {
      HeightIsCeilLog2((m + 1) / 2);
    }
  }

  lemma {:induction false} HeightMonotone(j: nat, k: nat)
    requires j <= k
    ensures Height(j) <= Height(k)
    decreases k
  {
    if j > 1 {
      HeightMonotone((j + 1) / 2, (k + 1) / 2);
    }
  }

  /** Both halves of [lo, hi] are lower. */
  lemma HalvesAreLower(lo: nat, hi: nat)
    requires lo < hi
    ensures var mid, h := Midpoint(lo, hi), Height(Length(lo, hi));
            Height(Length(lo, mid)) == h - 1 && Height(Length(mid + 1, hi)) <= h - 1
  {
    HeightMonotone(Length(Midpoint(lo, hi) + 1, hi), Length(lo, Midpoint(lo, hi)));
  }

  /** How deep the leaf of element i lies in the canonical tree over [lo, hi]. */
  function LeafDepth(lo: nat, hi: nat, i: nat): nat
    decreases Length(lo, hi)
  {
    if hi <= lo then 0
    else
      var mid := Midpoint(lo, hi);
      1 + if i <= mid then LeafDepth(lo, mid, i) else LeafDepth(mid + 1, hi, i)
  }

  /** The rightmost path halves with the floor: it is the shortest. */
  function FloorLog2(m: nat): nat {
    if m <= 1 then 0 else 1 + FloorLog2(m / 2)
  }

  lemma {:induction false} FloorMonotone(j: nat, k: nat)
    requires j <= k
    ensures FloorLog2(j) <= FloorLog2(k)
    decreases k
  {
    if j > 1 {
      FloorMonotone(j / 2, k / 2);
    }
  }

  lemma {:induction false} HeightNextToFloor(m: nat)
    requires m > 0
    ensures Height(m + 1) <= FloorLog2(m) + 1
  {
    if m > 1 {
      HeightNextToFloor(m / 2);
      assert (m + 2) / 2 == m / 2 + 1;
    }
  }

  lemma {:induction false} DepthBetween(lo: nat, hi: nat, i: nat)
    requires lo <= i <= hi
    ensures FloorLog2(Length(lo, hi)) <= LeafDepth(lo, hi, i) <= Height(Length(lo, hi))
    decreases hi - lo
  {
    if lo < hi {
      var mid := Midpoint(lo, hi);
      HalvesAreLower(lo, hi);
      FloorMonotone(Length(lo, hi) / 2, Length(lo, mid));
      assert Length(mid + 1, hi) == Length(lo, hi) / 2;
      if i <= mid {
        DepthBetween(lo, mid, i);
      } else {
        DepthBetween(mid + 1, hi, i);
      }
    }
  }

  /** Every leaf of the canonical tree lies at depth h or h - 1. */
  lemma LeafDepths(lo: nat, hi: nat, i: nat)
    requires lo <= i <= hi
    ensures LeafDepth(lo, hi, i) <= Height(Length(lo, hi)) <= LeafDepth(lo, hi, i) + 1
  {
    DepthBetween(lo, hi, i);
    HeightNextToFloor(Length(lo, hi));
    HeightMonotone(Length(lo, hi), Length(lo, hi) + 1);
    hide Height, FloorLog2, LeafDepth;
  }

  lemma HeightIsPositive(lo: nat, hi: nat)
    requires lo <= hi
    ensures Height(Length(lo, hi)) == 0 <==> lo == hi
  {
  }

  /** `maximumFrontier` */
  function MaximumFrontier(height: nat): nat {
    if height == 0 then 1 else if height == 1 then 2 else 4 * (height - 1) + 1
  }

  /** One boundary inside the interval: at most one visited pair a level. */
  lemma {:induction false} OneSidedFrontier(lo: nat, hi: nat, l: nat, r: nat)
    requires lo <= hi && Meets(lo, hi, l, r) && (l <= lo || hi <= r)
    ensures Visited(lo, hi, l, r) <= if lo == hi then 1 else 2 * Height(Length(lo, hi))
    decreases hi - lo
  {
    hide Visited;
    VisitedStops(lo, hi, l, r);
    if !Covered(lo, hi, l, r) {
      var mid := Midpoint(lo, hi);
      HalvesAreLower(lo, hi);
      VisitedSplits(lo, hi, l, r);
      VisitedStops(lo, mid, l, r);
      VisitedStops(mid + 1, hi, l, r);
      if l <= mid {
        OneSidedFrontier(lo, mid, l, r);
      }
      if mid < r {
        OneSidedFrontier(mid + 1, hi, l, r);
      }
    }
  }

  /** Proposition 10.3: the visited frontier of every range of every array. */
  lemma {:induction false} FrontierBound(lo: nat, hi: nat, l: nat, r: nat)
    requires lo <= hi && l <= r && Meets(lo, hi, l, r)
    ensures Visited(lo, hi, l, r) <= MaximumFrontier(Height(Length(lo, hi)))
    decreases hi - lo
  {
    hide Visited, Height;
    HeightIsPositive(lo, hi);
    VisitedStops(lo, hi, l, r);
    if !Covered(lo, hi, l, r) {
      var mid := Midpoint(lo, hi);
      HalvesAreLower(lo, hi);
      VisitedSplits(lo, hi, l, r);
      VisitedStops(lo, mid, l, r);
      VisitedStops(mid + 1, hi, l, r);
      if l <= mid < r {
        OneSidedFrontier(lo, mid, l, r);
        OneSidedFrontier(mid + 1, hi, l, r);
      } else if l <= mid {
        FrontierBound(lo, mid, l, r);
      } else {
        FrontierBound(mid + 1, hi, l, r);
      }
    }
  }

  /** On 2^h elements with h >= 2 the range [1, n - 2] attains the bound. */
  lemma FrontierBoundAttained(h: nat)
    requires h >= 2
    ensures Visited(0, Pow2(h) - 1, 1, Pow2(h) - 2) == MaximumFrontier(h) == 4 * h - 3
  {
    hide Visited;
    var half := Pow2(h - 1);
    assert half == 2 * Pow2(h - 2) && Pow2(h) == 2 * half;
    SuffixFrontier(0, h - 1, 2 * half - 2);
    PrefixFrontier(half, h - 1, 1);
    JoinHalves(half);
  }

  lemma JoinHalves(half: nat)
    requires half >= 2
    ensures Visited(0, 2 * half - 1, 1, 2 * half - 2)
         == 1 + Visited(0, half - 1, 1, 2 * half - 2) + Visited(half, 2 * half - 1, 1, 2 * half - 2)
  {
    hide Visited;
    assert Midpoint(0, 2 * half - 1) == half - 1;
    VisitedSplits(0, 2 * half - 1, 1, 2 * half - 2);
  }

  /** All but the first of 2^h aligned elements: two visited nodes a level. */
  lemma {:induction false} SuffixFrontier(lo: nat, h: nat, r: nat)
    requires h >= 1 && lo + Pow2(h) - 1 <= r
    ensures Visited(lo, lo + Pow2(h) - 1, lo + 1, r) == 2 * h
    decreases h
  {
    var hi, half := lo + Pow2(h) - 1, Pow2(h - 1);
    assert Midpoint(lo, hi) == lo + half - 1;
    VisitedSplits(lo, hi, lo + 1, r);
    VisitedStops(lo + half, hi, lo + 1, r);
    if h > 1 {
      SuffixFrontier(lo, h - 1, r);
    } else {
      VisitedStops(lo, lo, lo + 1, r);
    }
  }

  /** All but the last of 2^h aligned elements. */
  lemma {:induction false} PrefixFrontier(lo: nat, h: nat, l: nat)
    requires h >= 1 && l <= lo
    ensures Visited(lo, lo + Pow2(h) - 1, l, lo + Pow2(h) - 2) == 2 * h
    decreases h
  {
    var hi, half := lo + Pow2(h) - 1, Pow2(h - 1);
    assert Midpoint(lo, hi) == lo + half - 1;
    VisitedSplits(lo, hi, l, hi - 1);
    VisitedStops(lo, lo + half - 1, l, hi - 1);
    if h > 1 {
      PrefixFrontier(lo + half, h - 1, l);
    } else {
      VisitedStops(hi, hi, l, hi - 1);
    }
  }

  // ---------------------------------------------------------------- when the bound is attained

  /** Fewer than 2^h elements: the right half has fewer than 2^(h - 1). */
  lemma {:induction false} RightHalfIsNarrow(lo: nat, hi: nat)
    requires lo < hi
    ensures var m, k := Length(lo, hi), Length(Midpoint(lo, hi) + 1, hi);
            m < Pow2(Height(m)) ==> k < Pow2(Height(k)) || Height(k) < Height(m) - 1
  {
    var m, k := Length(lo, hi), Length(Midpoint(lo, hi) + 1, hi);
    HalvesAreLower(lo, hi);
    HeightIsCeilLog2(m);
    HeightIsCeilLog2(k);
  }

  /** A range that covers the left end of fewer than 2^h elements: one visited node less than two a level. */
  lemma {:induction false} NarrowPrefix(lo: nat, hi: nat, l: nat, r: nat)
    requires lo <= hi && l <= lo && Meets(lo, hi, l, r)
    requires Length(lo, hi) < Pow2(Height(Length(lo, hi)))
    ensures Visited(lo, hi, l, r) <= 2 * Height(Length(lo, hi)) - 1
    decreases hi - lo
  {
    hide Visited;
    var mid, h := Midpoint(lo, hi), Height(Length(lo, hi));
    VisitedStops(lo, hi, l, r);
    if !Covered(lo, hi, l, r) {
      HalvesAreLower(lo, hi);
      VisitedSplits(lo, hi, l, r);
      VisitedStops(lo, mid, l, r);
      VisitedStops(mid + 1, hi, l, r);
      if r < mid {
        OneSidedFrontier(lo, mid, l, r);
      } else if mid < r {
        RightHalfIsNarrow(lo, hi);
        if Length(mid + 1, hi) < Pow2(Height(Length(mid + 1, hi))) {
          NarrowPrefix(mid + 1, hi, l, r);
        } else {
          OneSidedFrontier(mid + 1, hi, l, r);
        }
      }
    }
  }

  /** Below 2^h elements no range reaches the bound. */
  lemma {:induction false} NarrowFrontier(lo: nat, hi: nat, l: nat, r: nat)
    requires lo <= hi && l <= r && Meets(lo, hi, l, r) && Height(Length(lo, hi)) >= 2
    requires Length(lo, hi) < Pow2(Height(Length(lo, hi)))
    ensures Visited(lo, hi, l, r) < MaximumFrontier(Height(Length(lo, hi)))
  {
    hide Visited, Height, Pow2;
    HeightIsPositive(lo, hi);
    var mid, h := Midpoint(lo, hi), Height(Length(lo, hi));
    VisitedStops(lo, hi, l, r);
    if !Covered(lo, hi, l, r) {
      HalvesAreLower(lo, hi);
      HeightIsPositive(lo, mid);
      HeightIsPositive(mid + 1, hi);
      VisitedSplits(lo, hi, l, r);
      VisitedStops(lo, mid, l, r);
      VisitedStops(mid + 1, hi, l, r);
      if l <= mid < r {
        RightHalfIsNarrow(lo, hi);
        OneSidedFrontier(lo, mid, l, r);
        OneSidedFrontier(mid + 1, hi, l, r);
        if Length(mid + 1, hi) < Pow2(Height(Length(mid + 1, hi))) {
          NarrowPrefix(mid + 1, hi, l, r);
        }
      } else if l <= mid {
        FrontierBound(lo, mid, l, r);
      } else {
        FrontierBound(mid + 1, hi, l, r);
      }
    }
  }

  /** The largest frontier is reached by some range exactly when the array size is a power of two. */
  lemma {:induction false} FrontierBoundTight(n: nat)
    requires n > 0 && Height(n) >= 2
    ensures (exists l: nat, r: nat :: ValidRange(n, l, r) && Visited(0, n - 1, l, r) == MaximumFrontier(Height(n)))
            <==> n == Pow2(Height(n))
  {
    hide Visited;
    HeightIsCeilLog2(n);
    if n == Pow2(Height(n)) {
      FrontierBoundAttained(Height(n));
      assert ValidRange(n, 1, n - 2);
    } else {
      forall l: nat, r: nat | ValidRange(n, l, r) ensures Visited(0, n - 1, l, r) < MaximumFrontier(Height(n)) {
        NarrowFrontier(0, n - 1, l, r);
      }
    }
  }

  // ---------------------------------------------------------------- partial nodes

  /** One boundary inside the interval: one partial node a level. */
  lemma {:induction false} OneSidedPartial(lo: nat, hi: nat, l: nat, r: nat)
    requires lo <= hi && (l <= lo || hi <= r)
    ensures Partial(lo, hi, l, r) <= Height(Length(lo, hi))
    decreases hi - lo
  {
    if lo < hi {
      HalvesAreLower(lo, hi);
      OneSidedPartial(lo, Midpoint(lo, hi), l, r);
      OneSidedPartial(Midpoint(lo, hi) + 1, hi, l, r);
    }
  }

  /** Proposition 10.7: at most 2h - 1 partial nodes, and so at most 2h - 1 pushes. */
  lemma {:induction false} PartialBound(lo: nat, hi: nat, l: nat, r: nat)
    requires lo <= hi && l <= r
    ensures var h := Height(Length(lo, hi)); Partial(lo, hi, l, r) <= if h == 0 then 0 else 2 * h - 1
    decreases hi - lo
  {
    HeightIsPositive(lo, hi);
    if lo < hi {
      hide Height;
      var mid := Midpoint(lo, hi);
      HalvesAreLower(lo, hi);
      if l <= mid < r {
        OneSidedPartial(lo, mid, l, r);
        OneSidedPartial(mid + 1, hi, l, r);
      } else {
        PartialBound(lo, mid, l, r);
        PartialBound(mid + 1, hi, l, r);
      }
    }
  }
}
