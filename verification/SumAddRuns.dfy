/** Facts about runs of SumAdd trees that every guarded structure uses. */
module SumAddRuns {
  import opened Wrappers
  import opened Canonical
  import opened Policies
  import opened TagTrees
  import opened Arenas
  import opened Histories
  import opened Reads
  import opened CheckedUpdates
  import opened Checked
  import opened SumAdd
  import opened RangeSum
  import opened NumericDomain

  /** The traversal of the latest version yields the current array, when it yields anything. */
  lemma {:induction false} LeavesAreCurrent(push: bool, xs: seq<int>, log: seq<Entry<int>>)
    requires xs != [] && RangesIn(|xs|, log)
    ensures var leaves := TryMaterialize(SumAddPolicy(), Run(SumAddPolicy(), push, xs, log), 0);
            leaves.Some? ==> leaves.value == ArrayAfter(xs, log)
  {
    var p := SumAddPolicy();
    SumAddLawful();
    RunRepresentsOracle(p, push, xs, log);
    OracleIsArrayAfter(xs, log);
    var t := Run(p, push, xs, log);
    if TryMaterialize(p, t, 0).Some? {
      MaterializeIsElements(p, t, 0, |xs| - 1, 0);
      MapIdentity(p, Elements(p, t));
    }
  }

  /** What a checked query of a published version answers is the sum over that version's array. */
  lemma {:induction false} CheckedAnswerIsSum(push: bool, xs: seq<int>, log: seq<Entry<int>>, l: nat, r: nat)
    requires ValidRange(|xs|, l, r) && RangesIn(|xs|, log)
    ensures var answer := TryQuery(SumAddPolicy(), Run(SumAddPolicy(), push, xs, log), 0, |xs| - 1, l, r, 0);
            answer.Some? ==> answer.value == Sum(ArrayAfter(xs, log)[l..r + 1])
  {
    AnswerIsSum(push, xs, log, l, r);
  }

  /** One more entry: its range added, its tree stepped. */
  lemma {:induction false} OneMore(push: bool, xs: seq<int>, log: seq<Entry<int>>, e: Entry<int>)
    requires xs != []
    ensures ArrayAfter(xs, log + [e]) == AddRange(ArrayAfter(xs, log), e.left, e.right, e.action)
    ensures e.action == 0 ==> ArrayAfter(xs, log + [e]) == ArrayAfter(xs, log)
    ensures Run(SumAddPolicy(), push, xs, log + [e])
         == Step(SumAddPolicy(), push, Run(SumAddPolicy(), push, xs, log), |xs| - 1, e)
  {
    assert (log + [e])[..|log|] == log;
  }

  lemma {:induction false} RunNext(xs: seq<int>, log: seq<Entry<int>>, e: Entry<int>)
    requires xs != []
    ensures Run(SumAddPolicy(), false, xs, log + [e])
         == Step(SumAddPolicy(), false, Run(SumAddPolicy(), false, xs, log), |xs| - 1, e)
  {
    assert (log + [e])[..|log|] == log;
  }

  // ---------------------------------------------------------------- build

  /** The sums over the halves, if they are representable and so is their sum. */
  lemma {:induction false} CanonicalSumUnfolds(xs: seq<int>, lo: nat, hi: nat)
    requires lo <= hi < |xs|
    ensures lo == hi ==> CanonicalSum(xs, lo, hi) == Some(xs[lo])
    ensures lo < hi ==>
              var left, right := CanonicalSum(xs, lo, Midpoint(lo, hi)), CanonicalSum(xs, Midpoint(lo, hi) + 1, hi);
              CanonicalSum(xs, lo, hi)
              == if left.Some? && right.Some? && Fits(left.value + right.value) then Some(left.value + right.value)
                 else None
  {
    hide Sum;
  }

  lemma {:induction false} CanonicalSumIs(values: seq<int>, lo: nat, hi: nat)
    requires lo < hi < |values|
    ensures CanonicalSum(values, lo, hi).Some? ==>
              && CanonicalSum(values, lo, Midpoint(lo, hi)).Some?
              && CanonicalSum(values, Midpoint(lo, hi) + 1, hi).Some?
              && CanonicalSum(values, lo, hi).value
                 == SumAddPolicy().combine(CanonicalSum(values, lo, Midpoint(lo, hi)).value,
                                           CanonicalSum(values, Midpoint(lo, hi) + 1, hi).value)
  {
  }

  lemma {:induction false} BuildNode(values: seq<int>, lo: nat, hi: nat)
    requires lo < hi < |values|
    ensures var t, mid := Build(SumAddPolicy(), values, lo, hi), Midpoint(lo, hi);
            && t.Node? && t.tag == 0 && t.agg == SumAddPolicy().combine(t.left.agg, t.right.agg)
            && t.left == Build(SumAddPolicy(), values, lo, mid) && t.right == Build(SumAddPolicy(), values, mid + 1, hi)
  {
  }

  lemma {:induction false} BuildLeaf(values: seq<int>, at: nat)
    requires at < |values|
    ensures Build(SumAddPolicy(), values, at, at) == Leaf(values[at], 0)
    ensures CanonicalSum(values, at, at) == Some(values[at])
  {
  }

  /** The aggregate of a built tree is the canonical sum, when that is representable. */
  lemma {:induction false} BuildSum(values: seq<int>, lo: nat, hi: nat)
    requires lo <= hi < |values|
    ensures CanonicalSum(values, lo, hi).Some? ==>
              CanonicalSum(values, lo, hi).value == Build(SumAddPolicy(), values, lo, hi).agg
    decreases hi - lo
  {
    hide CanonicalSum, Build, SumAddPolicy, Sum;
    if lo == hi {
      BuildLeaf(values, lo);
    } else {
      BuildSum(values, lo, Midpoint(lo, hi));
      BuildSum(values, Midpoint(lo, hi) + 1, hi);
      CanonicalSumIs(values, lo, hi);
      BuildNode(values, lo, hi);
    }
  }

  /** `build` succeeds exactly when the canonical sums are representable. */
  lemma {:induction false} BuildIsCanonical(values: seq<int>, lo: nat, hi: nat)
    requires lo <= hi < |values|
    ensures TryBuild(SumAddPolicy(), values, lo, hi).Some? <==> CanonicalSum(values, lo, hi).Some?
    decreases hi - lo
  {
    hide SumAddPolicy, Build, TryBuild, CanonicalSum;
    BuildOrNot(values, lo, hi);
    if lo < hi {
      BuildIsCanonical(values, lo, Midpoint(lo, hi));
      BuildIsCanonical(values, Midpoint(lo, hi) + 1, hi);
      BuildSum(values, lo, Midpoint(lo, hi));
      BuildSum(values, Midpoint(lo, hi) + 1, hi);
      SumOrNot(values, lo, hi);
    }
  }

  lemma {:induction false} BuildOrNot(values: seq<int>, lo: nat, hi: nat)
    requires lo <= hi < |values|
    ensures lo == hi ==> TryBuild(SumAddPolicy(), values, lo, hi).Some? && CanonicalSum(values, lo, hi).Some?
    ensures lo < hi ==>
              var left := TryBuild(SumAddPolicy(), values, lo, Midpoint(lo, hi));
              var right := TryBuild(SumAddPolicy(), values, Midpoint(lo, hi) + 1, hi);
              TryBuild(SumAddPolicy(), values, lo, hi).Some?
              <==> left.Some? && right.Some? && Fits(left.value.agg + right.value.agg)
  {
  }

  lemma {:induction false} SumOrNot(values: seq<int>, lo: nat, hi: nat)
    requires lo < hi < |values|
    ensures var left := CanonicalSum(values, lo, Midpoint(lo, hi));
            var right := CanonicalSum(values, Midpoint(lo, hi) + 1, hi);
            CanonicalSum(values, lo, hi).Some? <==> left.Some? && right.Some? && Fits(left.value + right.value)
  {
  }

  // ---------------------------------------------------------------- updates

  lemma {:induction false} ShapedNode(t: Tree<int, int>, lo: nat, hi: nat)
    requires Shaped(t, lo, hi)
    ensures lo <= hi && (t.Leaf? <==> lo == hi)
    ensures t.Node? ==> Shaped(t.left, lo, Midpoint(lo, hi)) && Shaped(t.right, Midpoint(lo, hi) + 1, hi)
  {
  }

  /** A checked update of a covered node. */
  lemma {:induction false} CoveredStamp(t: Tree<int, int>, lo: nat, hi: nat, l: nat, r: nat, value: int)
    requires Covered(lo, hi, l, r)
    ensures var p, u := SumAddPolicy(), Stamp(SumAddPolicy(), value, t, Length(lo, hi));
            TryUpdate(p, false, t, lo, hi, l, r, value).Some? ==>
              && TryUpdate(p, false, t, lo, hi, l, r, value) == Some(u)
              && (u.Leaf? <==> t.Leaf?) && (u.Node? ==> u.left == t.left && u.right == t.right)
              && p.TryApply(value, t.agg, Length(lo, hi)) == Some(u.agg) && p.TryCompose(t.tag, value) == Some(u.tag)
  {
  }

  /** A checked join. */
  lemma {:induction false} JoinIs(tag: int, left: Tree<int, int>, right: Tree<int, int>, length: nat)
    ensures var p, u := SumAddPolicy(), TryJoin(SumAddPolicy(), tag, left, right, length);
            u.Some? ==>
              && u.value.Node? && u.value.left == left && u.value.right == right && u.value.tag == tag
              && p.TryCombine(left.agg, right.agg).Some?
              && p.TryApply(tag, p.TryCombine(left.agg, right.agg).value, length) == Some(u.value.agg)
  {
  }

  lemma CombineIs(x: int, y: int)
    ensures SumAddPolicy().TryCombine(x, y) == if Fits(x + y) then Some(x + y) else None
    ensures SumAddPolicy().combine(x, y) == x + y
  {
  }

  /** A checked nonzero update is the step of the run. */
  lemma {:induction false} CheckedStep(push: bool, t: Tree<int, int>, last: nat, l: nat, r: nat, value: int)
    requires value != 0
    ensures var u := TryUpdate(SumAddPolicy(), push, t, 0, last, l, r, value);
            u.Some? ==> u.value == Step(SumAddPolicy(), push, t, last, Entry(l, r, value))
  {
  }

  /** What the preflights of an accepted delta establish: the proposed array, the new bound, the update's arithmetic. */
  ghost predicate Prepared(xs: seq<int>, log: seq<Entry<int>>, l: nat, r: nat, value: int, next: nat) {
    && xs != []
    && Guards(next, AddRange(ArrayAfter(xs, log), l, r, value))
    && (value != 0 ==>
          && ProposalFits(ArrayAfter(xs, log), l, r, value)
          && TryUpdate(SumAddPolicy(), false, Run(SumAddPolicy(), false, xs, log), 0, |xs| - 1, l, r, value).Some?)
  }

  /** A zero delta leaves the array, and so the bound, as they are. */
  lemma {:induction false} NothingToDo(xs: seq<int>, log: seq<Entry<int>>, bound: nat, l: nat, r: nat)
    requires xs != [] && Guards(bound, ArrayAfter(xs, log))
    ensures Prepared(xs, log, l, r, 0, bound)
  {
    assert AddRange(ArrayAfter(xs, log), l, r, 0) == ArrayAfter(xs, log);
  }

  lemma {:induction false} PreparedBy(xs: seq<int>, log: seq<Entry<int>>, l: nat, r: nat, value: int, next: nat)
    requires xs != [] && ProposalFits(ArrayAfter(xs, log), l, r, value)
    requires Guards(next, AddRange(ArrayAfter(xs, log), l, r, value))
    requires TryUpdate(SumAddPolicy(), false, Run(SumAddPolicy(), false, xs, log), 0, |xs| - 1, l, r, value).Some?
    ensures Prepared(xs, log, l, r, value, next)
  {
  }

  // ---------------------------------------------------------------- the update preflight

  /** The guarded recursive call, on the tree: a child outside the range is shared. */
  function TryIfMet(t: Tree<int, int>, lo: nat, hi: nat, l: nat, r: nat, value: int): Option<Tree<int, int>> {
    if Meets(lo, hi, l, r) then TryUpdate(SumAddPolicy(), false, t, lo, hi, l, r, value) else Some(t)
  }

  /** A retained-tag update unfolded at a partially covered node. */
  lemma {:induction false} PartialRetained(t: Tree<int, int>, lo: nat, hi: nat, l: nat, r: nat, value: int)
    requires t.Node? && lo < hi && Meets(lo, hi, l, r) && !Covered(lo, hi, l, r)
    ensures var left := TryIfMet(t.left, lo, Midpoint(lo, hi), l, r, value);
            var right := TryIfMet(t.right, Midpoint(lo, hi) + 1, hi, l, r, value);
            TryUpdate(SumAddPolicy(), false, t, lo, hi, l, r, value)
            == if left.None? || right.None? then None
               else TryJoin(SumAddPolicy(), t.tag, left.value, right.value, Length(lo, hi))
  {
  }

  /**
   `validateUpdate`: the root sum the update will leave, if every operation of the update is representable.  It runs
   the arithmetic of the update without writing anything.
   */
  function ValidateUpdate(
      nodes: seq<Cell<int, int>>, i: nat, lo: nat, hi: nat, l: nat, r: nat, value: int, ghost t: Tree<int, int>)
    : (sum: Option<int>)
    requires Stands(nodes, i, t) && Shaped(t, lo, hi) && Meets(lo, hi, l, r)
    ensures sum == SumOf(TryUpdate(SumAddPolicy(), false, t, lo, hi, l, r, value))
    decreases t
  {
    if Covered(lo, hi, l, r) then
      var sum := SumAddPolicy().TryApply(value, nodes[i].agg, Length(lo, hi));
      var lazy :- SumAddPolicy().TryCompose(value, nodes[i].tag);
      sum
    else
      var mid := Midpoint(lo, hi);
      var left, right := nodes[i].left, nodes[i].right;
      assert Stands(nodes, left, t.left) && Stands(nodes, right, t.right);
      PartialRetained(t, lo, hi, l, r, value);
      var leftSum :- if l <= mid then ValidateUpdate(nodes, left, lo, mid, l, r, value, t.left)
                     else Some(nodes[left].agg);
      var rightSum :- if mid < r then ValidateUpdate(nodes, right, mid + 1, hi, l, r, value, t.right)
                      else Some(nodes[right].agg);
      var children :- SumAddPolicy().TryCombine(leftSum, rightSum);
      SumAddPolicy().TryApply(nodes[i].tag, children, Length(lo, hi))
  }

  function SumOf(t: Option<Tree<int, int>>): Option<int> {
    match t
    case None => None
    case Some(u) => Some(u.agg)
  }
}
