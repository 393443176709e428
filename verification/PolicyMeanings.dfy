/**
 What the two policies that are not sums compute, said without them: MinAddPolicy yields the least element of the range
 after plain range additions, AffineSumModPolicy the sum of the elements modulo the modulus after plain affine maps
 (include/valseg/policy.hpp:239-440).  Both are carried to the answers of the trees.
 */
module PolicyMeanings {
  import opened Wrappers
  import opened Canonical
  import opened Checked
  import opened Policies
  import opened TagTrees
  import opened Histories
  import opened CheckedUpdates
  import opened RangeSum
  import opened MinAdd
  import opened AffineSumMod
  import opened PolicyTrees
  import opened PointTrees

  // ---------------------------------------------------------------- minima

  /** Words as minima. */
  function Finites(xs: seq<int>): (ys: seq<Minimum>)
    ensures |ys| == |xs|
  {
    seq(|xs|, i requires 0 <= i < |xs| => Finite(xs[i]))
  }

  /** The least of the elements l, ..., r. */
  predicate IsLeast(m: int, xs: seq<int>, l: nat, r: nat)
    requires r < |xs|
  {
    && (exists i :: l <= i <= r && xs[i] == m)
    && forall i :: l <= i <= r ==> m <= xs[i]
  }

  /** The fold of nonempty words is the least of them; that of none is represented by the largest word. */
  lemma {:induction false} FoldIsLeast(xs: seq<int>)
    ensures Word(Fold(MinAddPolicy(), [])) == 0x7FFF_FFFF_FFFF_FFFF
    ensures xs != [] ==>
              var least := Fold(MinAddPolicy(), Finites(xs));
              least.Finite? && IsLeast(least.value, xs, 0, |xs| - 1)
  {
    if xs != [] {
      assert Finites(xs)[1..] == Finites(xs[1..]);
      FoldIsLeast(xs[1..]);
      var least := Fold(MinAddPolicy(), Finites(xs));
      if |xs| == 1 {
        assert least == Finite(xs[0]);
      } else {
        var rest := Fold(MinAddPolicy(), Finites(xs[1..])).value;
        var i :| 0 <= i <= |xs| - 2 && xs[1..][i] == rest;
        assert xs[i + 1] == rest;
        assert least == Finite(if xs[0] < rest then xs[0] else rest);
        forall k | 0 <= k <= |xs| - 1 ensures least.value <= xs[k] {
          assert k > 0 ==> xs[k] == xs[1..][k - 1];
        }
      }
    }
  }

  /** The oracle of a log of range additions: the plain array after it. */
  lemma {:induction false} MinimumOracle(xs: seq<int>, log: seq<Entry<int>>)
    ensures Oracle(MinAddPolicy(), Finites(xs), log) == Finites(ArrayAfter(xs, log))
  {
    if log != [] {
      MinimumOracle(xs, log[..|log| - 1]);
    }
  }

  lemma {:induction false} MinimumValid(xs: seq<int>, log: seq<Entry<int>>)
    requires RangesIn(|xs|, log)
    ensures AllValid(MinAddPolicy(), Finites(xs)) && ValidHistory(MinAddPolicy(), |xs|, log)
  {
  }

  /** What any tree is to answer: the least of the elements l, ..., r after the log. */
  lemma {:induction false} MinimumExpected(xs: seq<int>, log: seq<Entry<int>>, l: nat, r: nat)
    requires ValidRange(|xs|, l, r)
    ensures var m := Expected(MinAddPolicy(), Finites(xs), log, l, r);
            m.Finite? && IsLeast(m.value, ArrayAfter(xs, log), l, r)
  {
    hide Fold, Oracle;
    var ys := ArrayAfter(xs, log);
    MinimumOracle(xs, log);
    var slice := ys[l..r + 1];
    assert Finites(ys)[l..r + 1] == Finites(slice);
    FoldIsLeast(slice);
    var m := Expected(MinAddPolicy(), Finites(xs), log, l, r).value;
    var i :| 0 <= i <= |slice| - 1 && slice[i] == m;
    assert ys[l + i] == m;
    forall k | l <= k <= r ensures m <= ys[k] {
      assert slice[k - l] == ys[k];
    }
  }

  /** Two deltas compose exactly when their sum is a word. */
  lemma MinimumComposes(newer: int, older: int)
    ensures MinAddPolicy().composeFits(newer, older)
       <==> -0x8000_0000_0000_0000 <= newer + older <= 0x7FFF_FFFF_FFFF_FFFF
    ensures MinAddPolicy().compose(newer, older) == newer + older
  {
  }

  /** A query needs the tags to add up to words, step by step, and the least element of each covered node to be one. */
  predicate MinimumRepresentable(t: Tree<Minimum, int>, lo: nat, hi: nat, l: nat, r: nat, inherited: int)
    decreases t
  {
    Meets(lo, hi, l, r) ==>
      if t.Leaf? || Covered(lo, hi, l, r) then
        t.agg.Finite? ==> -0x8000_0000_0000_0000 <= t.agg.value + inherited <= 0x7FFF_FFFF_FFFF_FFFF
      else
        && -0x8000_0000_0000_0000 <= inherited + t.tag <= 0x7FFF_FFFF_FFFF_FFFF
        && MinimumRepresentable(t.left, lo, Midpoint(lo, hi), l, r, inherited + t.tag)
        && MinimumRepresentable(t.right, Midpoint(lo, hi) + 1, hi, l, r, inherited + t.tag)
  }

  lemma {:induction false} MinimumUnfolds(
      t: Tree<Minimum, int>, lo: nat, hi: nat, l: nat, r: nat, inherited: int)
    requires Shaped(t, lo, hi)
    ensures var p, answer := MinAddPolicy(), TryQuery(MinAddPolicy(), t, lo, hi, l, r, inherited);
            && (!Meets(lo, hi, l, r) ==> answer.Some?)
            && (Meets(lo, hi, l, r) && (t.Leaf? || Covered(lo, hi, l, r)) ==>
                  (answer.Some? <==> (t.agg.Finite? ==> Fits(t.agg.value + inherited))))
            && (Meets(lo, hi, l, r) && t.Node? && !Covered(lo, hi, l, r) ==>
                  (answer.Some? <==>
                     && Fits(inherited + t.tag)
                     && TryQuery(p, t.left, lo, Midpoint(lo, hi), l, r, inherited + t.tag).Some?
                     && TryQuery(p, t.right, Midpoint(lo, hi) + 1, hi, l, r, inherited + t.tag).Some?))
  {
  }

  lemma {:induction false} MinimumSucceeds(
      t: Tree<Minimum, int>, lo: nat, hi: nat, l: nat, r: nat, inherited: int)
    requires Shaped(t, lo, hi)
    ensures TryQuery(MinAddPolicy(), t, lo, hi, l, r, inherited).Some?
       <==> MinimumRepresentable(t, lo, hi, l, r, inherited)
    decreases t
  {
    hide MinAddPolicy, TryQuery;
    MinimumUnfolds(t, lo, hi, l, r, inherited);
    if t.Node? {
      MinimumSucceeds(t.left, lo, Midpoint(lo, hi), l, r, inherited + t.tag);
      MinimumSucceeds(t.right, Midpoint(lo, hi) + 1, hi, l, r, inherited + t.tag);
    }
  }

  /** The minimum over a range of any version of a path-copying tree, with retained or with pushed tags. */
  method RangeMinimum(tree: PathCopyingActionTree<Minimum, int>, ghost xs: seq<int>, version: nat, l: nat, r: nat)
    returns (answer: Option<int>)
    requires tree.Valid() && tree.policy == MinAddPolicy() && tree.initial == Finites(xs)
    ensures answer.Some? <==>
              && version < |tree.roots| && ValidRange(|xs|, l, r)
              && MinimumRepresentable(Run(MinAddPolicy(), tree.push, tree.initial, tree.log[..version]), 0, |xs| - 1,
                                      l, r, 0)
    ensures answer.Some? ==>
              && version <= |tree.log| && ValidRange(|xs|, l, r)
              && IsLeast(answer.value, ArrayAfter(xs, tree.log[..version]), l, r)
  {
    hide PolicyTrees.Coherent, Lawful, InducedActionsCommute, AllValid, ValidHistory, Expected, TryQuery, Run, IsLeast,
         ArrayAfter;
    MinAddLawful();
    tree.Facts();
    MinimumValid(xs, tree.log);
    var minimum := tree.RangeAggregate(version, l, r);
    if version < |tree.roots| && ValidRange(|xs|, l, r) {
      RunShaped(MinAddPolicy(), tree.push, tree.initial, tree.log[..version]);
      MinimumSucceeds(Run(MinAddPolicy(), tree.push, tree.initial, tree.log[..version]), 0, |xs| - 1, l, r, 0);
    }
    if minimum.None? {
      return None;
    }
    MinimumExpected(xs, tree.log[..version], l, r);
    return Some(minimum.value.value);
  }

  // ---------------------------------------------------------------- affine maps

  /** Residues. */
  predicate ReducedAll(xs: seq<int>, m: nat) {
    forall i :: 0 <= i < |xs| ==> 0 <= xs[i] < m
  }

  predicate ReducedLog(log: seq<Entry<Affine>>, m: nat) {
    forall k :: 0 <= k < |log| ==> 0 <= log[k].action.scale < m && 0 <= log[k].action.shift < m
  }

  /** The fold of residues is their sum modulo m. */
  lemma {:induction false} FoldIsSumModulo(xs: seq<int>, m: nat)
    requires m > 1
    ensures Fold(AffineSumModPolicy(m), xs) == Sum(xs) % m
  {
    if xs != [] {
      FoldIsSumModulo(xs[1..], m);
      SumModulo(xs[0], Sum(xs[1..]), m);
      hide Sum;
    }
  }

  lemma SumModulo(x: int, y: int, m: nat)
    requires m > 1
    ensures AffineSumModPolicy(m).combine(x, y % m) == (x + y) % m
  {
    Same(x, m);
    Same(y, m);
    Same(x + y, m);
    Reduced(y, y, m);
    CombineCongruent(x, x, y % m, y, m);
    Reduced(x + y, x + y, m);
    hide Congruent;
    ReducedEqual(AffineSumModPolicy(m).combine(x, y % m), (x + y) % m, x + y, m);
  }

  /** One element under an action: its affine image, reduced. */
  lemma AppliedToResidue(f: Affine, x: int, m: nat)
    requires m > 1
    ensures AffineSumModPolicy(m).apply(f, x, 1) == (f.scale * x + f.shift) % m
  {
    Same(x, m);
    Same(f.scale * x + f.shift, m);
    ApplyCongruent(f, x, x, 1, m);
    Reduced(f.scale * x + f.shift, f.scale * x + f.shift, m);
    assert f.scale * x + f.shift * 1 == f.scale * x + f.shift;
    hide Congruent;
    ReducedEqual(AffineSumModPolicy(m).apply(f, x, 1), (f.scale * x + f.shift) % m, f.scale * x + f.shift, m);
  }

  /** The array after a log of affine maps, written out. */
  function MappedAfter(xs: seq<int>, log: seq<Entry<Affine>>, m: nat): (ys: seq<int>)
    requires m > 1
    ensures |ys| == |xs|
  {
    if log == [] then xs
    else
      var before, e := MappedAfter(xs, log[..|log| - 1], m), log[|log| - 1];
      seq(|xs|, i requires 0 <= i < |xs| =>
        if e.left <= i <= e.right then (e.action.scale * before[i] + e.action.shift) % m else before[i])
  }

  lemma {:induction false} AffineOracle(xs: seq<int>, log: seq<Entry<Affine>>, m: nat)
    requires m > 1
    ensures Oracle(AffineSumModPolicy(m), xs, log) == MappedAfter(xs, log, m)
  {
    hide AffineSumModPolicy;
    if log != [] {
      var before, e := MappedAfter(xs, log[..|log| - 1], m), log[|log| - 1];
      AffineOracle(xs, log[..|log| - 1], m);
      forall i | 0 <= i < |xs|
        ensures Oracle(AffineSumModPolicy(m), xs, log)[i] == MappedAfter(xs, log, m)[i]
      {
        AppliedToResidue(e.action, before[i], m);
      }
    }
  }

  /** What any tree is to answer: the sum of the mapped elements l, ..., r modulo m. */
  lemma {:induction false} AffineExpected(xs: seq<int>, log: seq<Entry<Affine>>, m: nat, l: nat, r: nat)
    requires m > 1 && ValidRange(|xs|, l, r)
    ensures Expected(AffineSumModPolicy(m), xs, log, l, r) == Sum(MappedAfter(xs, log, m)[l..r + 1]) % m
  {
    hide AffineSumModPolicy, Fold, Sum, Oracle, MappedAfter;
    AffineOracle(xs, log, m);
    FoldIsSumModulo(MappedAfter(xs, log, m)[l..r + 1], m);
  }

  /** No operation of the policy fails. */
  lemma AffineNeverFails(m: nat)
    requires m > 1
    ensures NeverFails(AffineSumModPolicy(m))
  {
  }

  lemma {:induction false} AffineValid(xs: seq<int>, log: seq<Entry<Affine>>, m: nat)
    requires m > 1 && RangesIn(|xs|, log) && ReducedAll(xs, m) && ReducedLog(log, m)
    ensures AllValid(AffineSumModPolicy(m), xs) && ValidHistory(AffineSumModPolicy(m), |xs|, log)
  {
  }

  /** Copy-on-push answers every query of every version with the sum of the mapped elements modulo m. */
  method AffineRangeSum(
      tree: PathCopyingActionTree<int, Affine>, ghost xs: seq<int>, ghost m: nat, version: nat, l: nat, r: nat)
    returns (answer: Option<int>)
    requires m > 1 && tree.Valid() && tree.policy == AffineSumModPolicy(m) && tree.push
    requires tree.initial == xs && ReducedAll(xs, m) && ReducedLog(tree.log, m)
    ensures answer.Some? <==> version < |tree.roots| && ValidRange(|xs|, l, r)
    ensures answer.Some? ==>
              && version <= |tree.log|
              && answer.value == Sum(MappedAfter(xs, tree.log[..version], m)[l..r + 1]) % m
  {
    hide PolicyTrees.Coherent, AffineSumModPolicy, Lawful, InducedActionsCommute, AllValid, ValidHistory, Expected, Sum,
         TryQuery, Run, NeverFails, MappedAfter, ReducedAll, ReducedLog;
    AffineLawful(m);
    AffineNeverFails(m);
    tree.Facts();
    if xs != [] {
      AffineValid(xs, tree.log, m);
    }
    answer := tree.RangeAggregate(version, l, r);
    if answer.Some? {
      AffineExpected(xs, tree.log[..version], m, l, r);
    }
  }

  /** ... and so does the point-materialized tree. */
  method AffinePointSum(
      tree: PointMaterializedPersistentTree<int, Affine>, ghost xs: seq<int>, ghost m: nat, version: nat,
      l: nat, r: nat)
    returns (answer: Option<int>)
    requires m > 1 && tree.Valid() && tree.policy == AffineSumModPolicy(m)
    requires tree.initial == xs && ReducedAll(xs, m) && ReducedLog(tree.log, m)
    ensures answer.Some? <==> version < |tree.roots| && ValidRange(|xs|, l, r)
    ensures answer.Some? ==>
              && version <= |tree.log|
              && answer.value == Sum(MappedAfter(xs, tree.log[..version], m)[l..r + 1]) % m
  {
    hide PointTrees.Coherent, AffineSumModPolicy, Lawful, InducedActionsCommute, AllValid, ValidHistory, Expected, Sum,
         TryTotal, TryPointRun, NeverFails, MappedAfter, ReducedAll, ReducedLog;
    AffineLawful(m);
    AffineNeverFails(m);
    tree.Facts();
    if xs != [] {
      AffineValid(xs, tree.log, m);
    }
    answer := tree.RangeAggregate(version, l, r);
    if answer.Some? {
      AffineExpected(xs, tree.log[..version], m, l, r);
    }
  }

  /** Doubling and incrementing the only element, 1, modulo 7: copy-on-push publishes it, and then answers 3. */
  method AffineExample() returns (version: Option<nat>, answer: Option<int>)
    ensures version == Some(1) && answer == Some(3)
  {
    hide PolicyTrees.Coherent, AffineSumModPolicy, NeverFails;
    AffineNeverFails(7);
    var tree := new PathCopyingActionTree<int, Affine>(AffineSumModPolicy(7), true);
    var built := tree.Initialize([1], false);
    version := tree.RangeApply(0, 0, Affine(2, 1), false);
    assert tree.log == [Entry(0, 0, Affine(2, 1))] && tree.log[..1] == tree.log;
    tree.Facts();
    ExampleValue();
    answer := AffineRangeSum(tree, [1], 7, 1, 0, 0);
  }

  lemma ExampleValue()
    ensures Sum(MappedAfter([1], [Entry(0, 0, Affine(2, 1))], 7)[0..1]) % 7 == 3
  {
    var log := [Entry(0, 0, Affine(2, 1))];
    assert log[..0] == [];
    assert MappedAfter([1], [], 7) == [1];
    assert MappedAfter([1], log, 7)[0] == 3;
    assert MappedAfter([1], log, 7)[0..1] == [3] && [3][1..] == [];
  }
}
