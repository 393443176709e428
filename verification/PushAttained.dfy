/**
 The worst case of copy-on-push (docs/proof.md, Proposition 10.7): on 2^h elements, after tagging the two boundary
 paths of [1, n - 2] bottom-up and then the root, that update pushes at 2h - 1 nodes and appends 8h - 5 records.
 */
module PushAttained {
  import opened Canonical
  import opened Policies
  import opened TagTrees
  import opened Histories
  import opened Frontier
  import opened Heights
  import opened CheckedUpdates
  import opened SumAdd

  // ---------------------------------------------------------------- the history

  /** The segments [0, 1], [0, 3], ..., [0, 2^j - 1]. */
  function TagLeft(j: nat): seq<Entry<int>> {
    if j == 0 then [] else TagLeft(j - 1) + [Entry(0, Pow2(j) - 1, 1)]
  }

  /** The segments [n - 2, n - 1], [n - 4, n - 1], ..., [n - 2^j, n - 1], with n = 2^h. */
  function TagRight(h: nat, j: nat): seq<Entry<int>>
    requires j <= h
  {
    Pow2Monotone(j, h);
    if j == 0 then [] else TagRight(h, j - 1) + [Entry(Pow2(h) - Pow2(j), Pow2(h) - 1, 1)]
  }

  /** Both boundary paths below the root, and the root last. */
  function TagAll(h: nat): seq<Entry<int>>
    requires h > 0
  {
    TagLeft(h - 1) + TagRight(h, h - 1) + [Entry(0, Pow2(h) - 1, 1)]
  }

  // ---------------------------------------------------------------- what it leaves

  /** On the leftmost path of a tree of height k the lowest j nodes above the leaf are tagged, the others are not. */
  ghost predicate LeftTagged(t: Tree<int, int>, k: nat, j: nat)
    decreases k
  {
    if k == 0 then t.Leaf?
    else t.Node? && (if k <= j then t.tag > 0 else t.tag == 0) && LeftTagged(t.left, k - 1, j)
  }

  ghost predicate RightTagged(t: Tree<int, int>, k: nat, j: nat)
    decreases k
  {
    if k == 0 then t.Leaf?
    else t.Node? && (if k <= j then t.tag > 0 else t.tag == 0) && RightTagged(t.right, k - 1, j)
  }

  lemma {:induction false} LeftFull(t: Tree<int, int>, k: nat, j: nat, i: nat)
    requires LeftTagged(t, k, j) && k <= j && k <= i
    ensures LeftTagged(t, k, i)
    decreases k
  {
    if k > 0 {
      LeftFull(t.left, k - 1, j, i);
    }
  }

  lemma {:induction false} RightFull(t: Tree<int, int>, k: nat, j: nat, i: nat)
    requires RightTagged(t, k, j) && k <= j && k <= i
    ensures RightTagged(t, k, i)
    decreases k
  {
    if k > 0 {
      RightFull(t.right, k - 1, j, i);
    }
  }

  /** Both halves of 2^k aligned elements hold 2^(k - 1). */
  lemma Halves(lo: nat, k: nat)
    requires k > 0
    ensures Pow2(k) == 2 * Pow2(k - 1) && Pow2(k - 1) > 0
    ensures Midpoint(lo, lo + Pow2(k) - 1) == lo + Pow2(k - 1) - 1
  {
  }

  /** Opening an untagged node changes nothing, and only the half with the range is updated. */
  lemma {:induction false} UntaggedStep(t: Tree<int, int>, lo: nat, hi: nat, l: nat, r: nat)
    requires t.Node? && t.tag == 0 && lo < hi && lo <= l <= r <= hi && !Covered(lo, hi, l, r)
    ensures var p, mid, u := SumAddPolicy(), Midpoint(lo, hi), Update(SumAddPolicy(), true, t, lo, hi, l, r, 1);
            && u.Node? && u.tag == 0
            && (r <= mid ==> u.left == Update(p, true, t.left, lo, mid, l, r, 1) && u.right == t.right)
            && (mid < l ==> u.left == t.left && u.right == Update(p, true, t.right, mid + 1, hi, l, r, 1))
  {
  }

  lemma {:induction false} CoveredStep(t: Tree<int, int>, lo: nat, hi: nat)
    requires t.Node?
    ensures var u := Update(SumAddPolicy(), true, t, lo, hi, lo, hi, 1);
            u.Node? && u.tag == t.tag + 1 && u.left == t.left && u.right == t.right
  {
  }

  /** The next node up the leftmost path. */
  lemma {:induction false} LeftStep(t: Tree<int, int>, lo: nat, k: nat, j: nat)
    requires LeftTagged(t, k, j) && j < k
    ensures LeftTagged(Update(SumAddPolicy(), true, t, lo, lo + Pow2(k) - 1, lo, lo + Pow2(j + 1) - 1, 1), k, j + 1)
    decreases k
  {
    hide Update, SumAddPolicy;
    Halves(lo, k);
    if k == j + 1 {
      CoveredStep(t, lo, lo + Pow2(k) - 1);
      LeftFull(t.left, k - 1, j, j + 1);
    } else {
      Pow2Monotone(j + 1, k - 1);
      UntaggedStep(t, lo, lo + Pow2(k) - 1, lo, lo + Pow2(j + 1) - 1);
      LeftStep(t.left, lo, k - 1, j);
    }
  }

  lemma {:induction false} RightStep(t: Tree<int, int>, lo: nat, k: nat, j: nat)
    requires RightTagged(t, k, j) && j < k
    ensures var hi := lo + Pow2(k) - 1;
            && Pow2(j + 1) <= Pow2(k)
            && RightTagged(Update(SumAddPolicy(), true, t, lo, hi, hi - Pow2(j + 1) + 1, hi, 1), k, j + 1)
    decreases k
  {
    hide Update, SumAddPolicy;
    Halves(lo, k);
    Pow2Monotone(j + 1, k);
    var hi := lo + Pow2(k) - 1;
    if k == j + 1 {
      CoveredStep(t, lo, hi);
      RightFull(t.right, k - 1, j, j + 1);
    } else {
      Pow2Monotone(j + 1, k - 1);
      UntaggedStep(t, lo, hi, hi - Pow2(j + 1) + 1, hi);
      RightStep(t.right, lo + Pow2(k - 1), k - 1, j);
    }
  }

  lemma {:induction false} BuiltUntagged(xs: seq<int>, lo: nat, k: nat)
    requires lo + Pow2(k) <= |xs|
    ensures LeftTagged(Build(SumAddPolicy(), xs, lo, lo + Pow2(k) - 1), k, 0)
    ensures RightTagged(Build(SumAddPolicy(), xs, lo, lo + Pow2(k) - 1), k, 0)
    decreases k
  {
    if k > 0 {
      Halves(lo, k);
      BuiltUntagged(xs, lo, k - 1);
      BuiltUntagged(xs, lo + Pow2(k - 1), k - 1);
    }
  }

  /** The state in between: an untagged root above two boundary paths, tagged j and i nodes high. */
  ghost predicate Tagged(t: Tree<int, int>, h: nat, j: nat, i: nat)
    requires h > 0
  {
    t.Node? && t.tag == 0 && LeftTagged(t.left, h - 1, j) && RightTagged(t.right, h - 1, i)
  }

  lemma {:induction false} LeftRun(xs: seq<int>, h: nat, j: nat)
    requires j < h && |xs| == Pow2(h)
    ensures Tagged(Run(SumAddPolicy(), true, xs, TagLeft(j)), h, j, 0)
  {
    hide Update, Run, SumAddPolicy, Build, LeftTagged, RightTagged, Pow2;
    Halves(0, h);
    Pow2Monotone(0, h - 1);
    if j == 0 {
      FreshRun(xs);
      BuiltUntagged(xs, 0, h - 1);
      BuiltUntagged(xs, Pow2(h - 1), h - 1);
      BuiltRoot(xs, h);
    } else {
      LeftRun(xs, h, j - 1);
      var t := Run(SumAddPolicy(), true, xs, TagLeft(j - 1));
      NextRun(xs, TagLeft(j - 1), Entry(0, Pow2(j) - 1, 1));
      Pow2Monotone(j, h - 1);
      UntaggedStep(t, 0, Pow2(h) - 1, 0, Pow2(j) - 1);
      LeftStep(t.left, 0, h - 1, j - 1);
    }
  }

  lemma FreshRun(xs: seq<int>)
    requires xs != []
    ensures Run(SumAddPolicy(), true, xs, []) == Build(SumAddPolicy(), xs, 0, |xs| - 1)
  {
  }

  lemma {:induction false} BuiltRoot(xs: seq<int>, h: nat)
    requires h > 0 && |xs| == Pow2(h)
    ensures var t := Build(SumAddPolicy(), xs, 0, Pow2(h) - 1);
            && t.Node? && t.tag == 0
            && t.left == Build(SumAddPolicy(), xs, 0, Pow2(h - 1) - 1)
            && t.right == Build(SumAddPolicy(), xs, Pow2(h - 1), Pow2(h) - 1)
  {
    hide Build, SumAddPolicy, Pow2;
    Halves(0, h);
    Pow2Monotone(0, h - 1);
    BuildUnfolds(xs, 0, Pow2(h) - 1);
  }

  lemma {:induction false} BuildUnfolds(xs: seq<int>, lo: nat, hi: nat)
    requires lo < hi < |xs|
    ensures var p, mid, t := SumAddPolicy(), Midpoint(lo, hi), Build(SumAddPolicy(), xs, lo, hi);
            && t.Node? && t.tag == 0
            && t.left == Build(p, xs, lo, mid) && t.right == Build(p, xs, mid + 1, hi)
  {
  }

  lemma {:induction false} NextRun(xs: seq<int>, log: seq<Entry<int>>, e: Entry<int>)
    requires xs != [] && e.action == 1
    ensures Run(SumAddPolicy(), true, xs, log + [e])
         == Update(SumAddPolicy(), true, Run(SumAddPolicy(), true, xs, log), 0, |xs| - 1, e.left, e.right, 1)
  {
    assert (log + [e])[..|log|] == log;
  }

  lemma {:induction false} RightRun(xs: seq<int>, h: nat, i: nat)
    requires i < h && |xs| == Pow2(h)
    ensures Tagged(Run(SumAddPolicy(), true, xs, TagLeft(h - 1) + TagRight(h, i)), h, h - 1, i)
  {
    hide Update, Run, SumAddPolicy;
    Halves(0, h);
    hide Pow2, LeftTagged, RightTagged;
    if i == 0 {
      LeftRun(xs, h, h - 1);
      assert TagLeft(h - 1) + TagRight(h, 0) == TagLeft(h - 1);
    } else {
      RightRun(xs, h, i - 1);
      var before := TagLeft(h - 1) + TagRight(h, i - 1);
      var t := Run(SumAddPolicy(), true, xs, before);
      Pow2Monotone(i, h - 1);
      var e := Entry(Pow2(h) - Pow2(i), Pow2(h) - 1, 1);
      NextRun(xs, before, e);
      assert TagLeft(h - 1) + TagRight(h, i) == before + [e];
      UntaggedStep(t, 0, Pow2(h) - 1, e.left, e.right);
      RightStep(t.right, Pow2(h - 1), h - 1, i - 1);
    }
  }

  // ---------------------------------------------------------------- what the last update pushes

  lemma {:induction false} PushUnfolds(t: Tree<int, int>, lo: nat, hi: nat, l: nat, r: nat)
    requires t.Node? && t.tag > 0 && lo < hi && Meets(lo, hi, l, r) && !Covered(lo, hi, l, r)
    ensures var p, mid := SumAddPolicy(), Midpoint(lo, hi);
            PushCount(p, true, t, lo, hi, l, r)
            == 1 + PushCount(p, true, Stamp(p, t.tag, t.left, Length(lo, mid)), lo, mid, l, r)
                 + PushCount(p, true, Stamp(p, t.tag, t.right, Length(mid + 1, hi)), mid + 1, hi, l, r)
  {
  }

  lemma {:induction false} PushStops(t: Tree<int, int>, lo: nat, hi: nat, l: nat, r: nat)
    requires !Meets(lo, hi, l, r) || Covered(lo, hi, l, r)
    ensures PushCount(SumAddPolicy(), true, t, lo, hi, l, r) == 0
  {
  }

  lemma {:induction false} StampedPath(t: Tree<int, int>, tag: int, k: nat, length: nat)
    requires tag > 0
    ensures LeftTagged(t, k, k) ==> LeftTagged(Stamp(SumAddPolicy(), tag, t, length), k, k)
    ensures RightTagged(t, k, k) ==> RightTagged(Stamp(SumAddPolicy(), tag, t, length), k, k)
  {
  }

  /** A tagged leftmost path is pushed at every node by a range that misses only its leaf. */
  lemma {:induction false} PushesLeft(t: Tree<int, int>, lo: nat, k: nat, r: nat)
    requires LeftTagged(t, k, k) && lo + Pow2(k) - 1 <= r
    ensures PushCount(SumAddPolicy(), true, t, lo, lo + Pow2(k) - 1, lo + 1, r) == k
    decreases k
  {
    hide PushCount, SumAddPolicy, Stamp;
    if k == 0 {
      PushStops(t, lo, lo, lo + 1, r);
    } else {
      var hi, mid := lo + Pow2(k) - 1, lo + Pow2(k - 1) - 1;
      Halves(lo, k);
      PushUnfolds(t, lo, hi, lo + 1, r);
      LeftFull(t.left, k - 1, k, k - 1);
      StampedPath(t.left, t.tag, k - 1, Length(lo, mid));
      PushesLeft(Stamp(SumAddPolicy(), t.tag, t.left, Length(lo, mid)), lo, k - 1, r);
      PushStops(Stamp(SumAddPolicy(), t.tag, t.right, Length(mid + 1, hi)), mid + 1, hi, lo + 1, r);
    }
  }

  lemma {:induction false} PushesRight(t: Tree<int, int>, lo: nat, k: nat, l: nat)
    requires RightTagged(t, k, k) && l <= lo && lo + Pow2(k) >= 2
    ensures PushCount(SumAddPolicy(), true, t, lo, lo + Pow2(k) - 1, l, lo + Pow2(k) - 2) == k
    decreases k
  {
    hide PushCount, SumAddPolicy, Stamp;
    if k == 0 {
      PushStops(t, lo, lo, l, lo - 1);
    } else {
      var hi, mid := lo + Pow2(k) - 1, lo + Pow2(k - 1) - 1;
      Halves(lo, k);
      PushUnfolds(t, lo, hi, l, hi - 1);
      RightFull(t.right, k - 1, k, k - 1);
      StampedPath(t.right, t.tag, k - 1, Length(mid + 1, hi));
      PushesRight(Stamp(SumAddPolicy(), t.tag, t.right, Length(mid + 1, hi)), mid + 1, k - 1, l);
      PushStops(Stamp(SumAddPolicy(), t.tag, t.left, Length(lo, mid)), lo, mid, l, hi - 1);
    }
  }

  /** The update of [1, n - 2] after that history pushes at 2h - 1 nodes and appends 8h - 5 records. */
  lemma WorstPushAttained(xs: seq<int>, h: nat)
    requires h >= 2 && |xs| == Pow2(h)
    ensures var t := Run(SumAddPolicy(), true, xs, TagAll(h));
            && PushCount(SumAddPolicy(), true, t, 0, |xs| - 1, 1, |xs| - 2) == 2 * h - 1
            && Growth(SumAddPolicy(), true, t, 0, |xs| - 1, 1, |xs| - 2) == 8 * h - 5
  {
    hide PushCount, SumAddPolicy, Stamp, Run, Update, Visited, TagLeft, TagRight;
    var before := TagLeft(h - 1) + TagRight(h, h - 1);
    var s, n := Run(SumAddPolicy(), true, xs, before), Pow2(h);
    RightRun(xs, h, h - 1);
    NextRun(xs, before, Entry(0, n - 1, 1));
    CoveredStep(s, 0, n - 1);
    var t := Run(SumAddPolicy(), true, xs, TagAll(h));
    Halves(0, h);
    Halves(0, h - 1);
    PushUnfolds(t, 0, n - 1, 1, n - 2);
    var half := Pow2(h - 1);
    StampedPath(t.left, t.tag, h - 1, Length(0, half - 1));
    StampedPath(t.right, t.tag, h - 1, Length(half, n - 1));
    PushesLeft(Stamp(SumAddPolicy(), t.tag, t.left, Length(0, half - 1)), 0, h - 1, n - 2);
    PushesRight(Stamp(SumAddPolicy(), t.tag, t.right, Length(half, n - 1)), half, h - 1, 1);
    FrontierBoundAttained(h);
  }
}
