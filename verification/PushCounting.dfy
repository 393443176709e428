/** PushCountingModel: the tags of copy-on-push alone, in a heap (include/valseg/frontier.hpp:455-540). */
module PushCounting {
  import opened Wrappers
  import opened Canonical
  import opened Policies
  import opened TagTrees
  import opened Histories
  import opened CheckedUpdates
  import opened HeapLayout

  /** The heap of tags before and after the push of a node's tag. */
  lemma {:induction false} PushedTags<S, A>(p: Policy<S, A>, tags: seq<A>, i: nat, t: Tree<S, A>, lo: nat, hi: nat)
    requires Laid(tags, TagOf, i, t) && Shaped(t, lo, hi) && t.Node?
    ensures 2 * i + 2 < |tags| && tags[i] == t.tag
    ensures var o := Opened(p, true, t, lo, hi);
            var after := if t.tag == p.identity then tags
                         else tags[2 * i + 1 := p.compose(tags[i], tags[2 * i + 1])]
                                  [2 * i + 2 := p.compose(tags[i], tags[2 * i + 2])][i := p.identity];
            && o.Node? && Shaped(o.left, lo, Midpoint(lo, hi)) && Shaped(o.right, Midpoint(lo, hi) + 1, hi)
            && Laid(after, TagOf, i, o)
            && AgreeElsewhere(tags, after, i)
  {
    OpenedShaped(p, true, t, lo, hi);
    if t.tag != p.identity {
      LaidRefreshed(tags, TagOf, i, t, Opened(p, true, t, lo, hi));
    }
  }

  /** What a partial descent counts. */
  lemma {:induction false} PushCountSplits<S, A>(p: Policy<S, A>, t: Tree<S, A>, lo: nat, hi: nat, l: nat, r: nat)
    requires Shaped(t, lo, hi) && Meets(lo, hi, l, r) && !Covered(lo, hi, l, r) && l <= r
    ensures var o, mid := Opened(p, true, t, lo, hi), Midpoint(lo, hi);
            && t.Node? && o.Node?
            && PushCount(p, true, t, lo, hi, l, r)
               == (if t.tag == p.identity then 0 else 1)
                  + PushCount(p, true, o.left, lo, mid, l, r) + PushCount(p, true, o.right, mid + 1, hi, l, r)
  {
  }

  lemma {:induction false} UpdateSplits<S, A>(
      p: Policy<S, A>, push: bool, t: Tree<S, A>, lo: nat, hi: nat, l: nat, r: nat, f: A)
    requires Shaped(t, lo, hi) && Meets(lo, hi, l, r) && !Covered(lo, hi, l, r) && l <= r
    ensures lo < hi && Opened(p, push, t, lo, hi).Node?
    ensures Update(p, push, t, lo, hi, l, r, f) == Rebuilt(p, push, Opened(p, push, t, lo, hi), lo, hi, l, r, f)
  {
  }

  lemma {:induction false} RebuiltParts<S, A>(
      p: Policy<S, A>, push: bool, o: Tree<S, A>, lo: nat, hi: nat, l: nat, r: nat, f: A)
    requires o.Node? && lo < hi && Meets(lo, hi, l, r)
    ensures var u, mid := Rebuilt(p, push, o, lo, hi, l, r, f), Midpoint(lo, hi);
            && u.tag == o.tag
            && u.left == UpdateIfMet(p, push, o.left, lo, mid, l, r, f)
            && u.right == UpdateIfMet(p, push, o.right, mid + 1, hi, l, r, f)
  {
  }

  /** Every composition of an update of copy-on-push is representable. */
  predicate ComposesFit<S, A(==)>(p: Policy<S, A>, t: Tree<S, A>, lo: nat, hi: nat, l: nat, r: nat, f: A)
    decreases Length(lo, hi)
  {
    if !Meets(lo, hi, l, r) then true
    else if Covered(lo, hi, l, r) then p.composeFits(f, t.tag)
    else
      lo < hi && t.Node? ==>
        var o := Opened(p, true, t, lo, hi);
        && TagsFit(p, t)
        && ComposesFit(p, o.left, lo, Midpoint(lo, hi), l, r, f)
        && ComposesFit(p, o.right, Midpoint(lo, hi) + 1, hi, l, r, f)
  }

  /** The tag of a node can be composed outside both children's. */
  predicate TagsFit<S, A(==)>(p: Policy<S, A>, t: Tree<S, A>)
    requires t.Node?
  {
    t.tag != p.identity ==> p.composeFits(t.tag, t.left.tag) && p.composeFits(t.tag, t.right.tag)
  }

  /** ... where it stops, and where it goes on. */
  lemma {:induction false} ComposesFitCases<S, A>(
      p: Policy<S, A>, t: Tree<S, A>, lo: nat, hi: nat, l: nat, r: nat, f: A)
    requires Shaped(t, lo, hi) && l <= r
    ensures !Meets(lo, hi, l, r) ==> ComposesFit(p, t, lo, hi, l, r, f)
    ensures Meets(lo, hi, l, r) && Covered(lo, hi, l, r) ==>
              (ComposesFit(p, t, lo, hi, l, r, f) <==> p.composeFits(f, t.tag))
    ensures Meets(lo, hi, l, r) && !Covered(lo, hi, l, r) ==>
              var o := Opened(p, true, t, lo, hi);
              && lo < hi && t.Node? && o.Node?
              && (ComposesFit(p, t, lo, hi, l, r, f) <==> TagsFit(p, t) && ComposesBelow(p, o, lo, hi, l, r, f))
  {
  }

  /** Where copy-on-push applies an update, the model counts it. */
  lemma {:induction false} CountedWhenApplied<S, A>(
      p: Policy<S, A>, t: Tree<S, A>, lo: nat, hi: nat, l: nat, r: nat, f: A)
    requires Shaped(t, lo, hi) && l <= r && Meets(lo, hi, l, r)
    requires TryUpdate(p, true, t, lo, hi, l, r, f).Some?
    ensures ComposesFit(p, t, lo, hi, l, r, f)
    decreases Length(lo, hi)
  {
    if !Covered(lo, hi, l, r) {
      var o, mid := Opened(p, true, t, lo, hi), Midpoint(lo, hi);
      OpenedShaped(p, true, t, lo, hi);
      if l <= mid {
        CountedWhenApplied(p, o.left, lo, mid, l, r, f);
      }
      if mid < r {
        CountedWhenApplied(p, o.right, mid + 1, hi, l, r, f);
      }
    }
  }

  predicate ComposesBelow<S, A(==)>(p: Policy<S, A>, o: Tree<S, A>, lo: nat, hi: nat, l: nat, r: nat, f: A)
    requires o.Node? && lo < hi
  {
    && ComposesFit(p, o.left, lo, Midpoint(lo, hi), l, r, f)
    && ComposesFit(p, o.right, Midpoint(lo, hi) + 1, hi, l, r, f)
  }

  class PushCountingModel<S(!new), A(==, !new)> {
    const policy: Policy<S, A>
    const arraySize: nat
    var tags: seq<A>
    /** Any array of that size, and the updates applied so far to the tree over it. */
    ghost const initial: seq<S>
    ghost var log: seq<Entry<A>>

    ghost predicate Valid()
      reads this
    {
      && arraySize == |initial| > 0
      && |tags| == 4 * arraySize
      && Laid(tags, TagOf, 0, Run(policy, true, initial, log))
    }

    constructor (policy: Policy<S, A>, n: nat, ghost initial: seq<S>)
      requires n == |initial| > 0
      ensures Valid() && log == [] && this.policy == policy && this.initial == initial && |tags| == 4 * n
    {
      this.policy, arraySize, this.initial := policy, n, initial;
      tags, log := seq(4 * n, i => policy.identity), [];
      new;
      BuiltTags(policy, initial, 0, n - 1);
      UniformLaid(tags, TagOf, policy.identity, 0, Build(policy, initial, 0, n - 1), 0, n - 1, n);
    }

    /**
     `apply`: the push frontier P of this update, as copy-on-push would push after the same history.  A composition that
     is not representable leaves the model unusable.
     */
    method Apply(l: nat, r: nat, f: A) returns (pushes: Option<nat>)
      requires Valid()
      modifies this
      ensures !ValidRange(arraySize, l, r) ==> pushes.None? && unchanged(this)
      ensures pushes.Some? ==> Valid() && log == old(log) + [Entry(l, r, f)]
      ensures pushes.Some? ==>
                pushes.value == if f == policy.identity then 0
                                else PushCount(policy, true, Run(policy, true, initial, old(log)), 0, arraySize - 1,
                                               l, r)
      ensures ValidRange(arraySize, l, r) ==>
                (pushes.Some? <==>
                   || f == policy.identity
                   || ComposesFit(policy, Run(policy, true, initial, old(log)), 0, arraySize - 1, l, r, f))
    {
      if !ValidRange(arraySize, l, r) {
        return None;
      }
      ghost var t := Run(policy, true, initial, log);
      assert (log + [Entry(l, r, f)])[..|log|] == log;
      RunShaped(policy, true, initial, log);
      hide Laid, Shaped, TagTrees.Update, PushCount, ComposesFit;
      pushes := Some(0);
      if f != policy.identity {
        pushes := Update(0, 0, arraySize - 1, l, r, f, t);
      }
      log := log + [Entry(l, r, f)];
    }

    method Update(i: nat, lo: nat, hi: nat, l: nat, r: nat, f: A, ghost t: Tree<S, A>) returns (pushes: Option<nat>)
      requires Laid(tags, TagOf, i, t) && Shaped(t, lo, hi) && l <= r && Meets(lo, hi, l, r)
      modifies this`tags
      ensures pushes.Some? ==>
                && Laid(tags, TagOf, i, TagTrees.Update(policy, true, t, lo, hi, l, r, f))
                && AgreeElsewhere(old(tags), tags, i)
                && pushes.value == PushCount(policy, true, t, lo, hi, l, r)
      ensures pushes.Some? <==> ComposesFit(policy, t, lo, hi, l, r, f)
      decreases hi - lo, 1
    {
      ComposesFitCases(policy, t, lo, hi, l, r, f);
      hide ComposesFit;
      if Covered(lo, hi, l, r) {
        var composed :- policy.TryCompose(f, tags[i]);
        LaidAbove(tags, TagOf, i, TagTrees.Update(policy, true, t, lo, hi, l, r, f));
        tags := tags[i := composed];
        return Some(0);
      }
      PushCountSplits(policy, t, lo, hi, l, r);
      UpdateSplits(policy, true, t, lo, hi, l, r, f);
      PushedTags(policy, tags, i, t, lo, hi);
      TagsAt(tags, i, t);
      ghost var o := Opened(policy, true, t, lo, hi);
      hide Laid, Shaped, AgreeElsewhere, TagTrees.Update, PushCount, Opened;
      var count := 0;
      if tags[i] != policy.identity {
        var left :- policy.TryCompose(tags[i], tags[2 * i + 1]);
        var right :- policy.TryCompose(tags[i], tags[2 * i + 2]);
        tags := tags[2 * i + 1 := left][2 * i + 2 := right][i := policy.identity];
        count := 1;
      }
      ghost var pushed := tags;
      var below := Descend(i, lo, hi, l, r, f, o);
      if below.None? {
        return None;
      }
      ElsewhereTransitive(old(tags), pushed, tags, i);
      return Some(count + below.value);
    }

    /** The guard of a recursive call. */
    method Enter(i: nat, lo: nat, hi: nat, l: nat, r: nat, f: A, ghost t: Tree<S, A>) returns (pushes: Option<nat>)
      requires Laid(tags, TagOf, i, t) && Shaped(t, lo, hi) && l <= r
      modifies this`tags
      ensures pushes.Some? ==>
                && Laid(tags, TagOf, i, UpdateIfMet(policy, true, t, lo, hi, l, r, f))
                && AgreeElsewhere(old(tags), tags, i)
                && pushes.value == PushCount(policy, true, t, lo, hi, l, r)
      ensures pushes.Some? <==> ComposesFit(policy, t, lo, hi, l, r, f)
      decreases hi - lo, 2
    {
      ComposesFitCases(policy, t, lo, hi, l, r, f);
      hide Laid, Shaped, TagTrees.Update, ComposesFit;
      pushes := Some(0);
      if Meets(lo, hi, l, r) {
        pushes := Update(i, lo, hi, l, r, f, t);
      }
    }

    /** The children of a node without a tag, as far as they meet the range. */
    method Descend(i: nat, lo: nat, hi: nat, l: nat, r: nat, f: A, ghost o: Tree<S, A>) returns (pushes: Option<nat>)
      requires o.Node? && lo < hi && l <= r && Laid(tags, TagOf, i, o) && Meets(lo, hi, l, r)
      requires Shaped(o.left, lo, Midpoint(lo, hi)) && Shaped(o.right, Midpoint(lo, hi) + 1, hi)
      modifies this`tags
      ensures pushes.Some? ==>
                && Laid(tags, TagOf, i, Rebuilt(policy, true, o, lo, hi, l, r, f))
                && AgreeElsewhere(old(tags), tags, i)
                && pushes.value == PushCount(policy, true, o.left, lo, Midpoint(lo, hi), l, r)
                                   + PushCount(policy, true, o.right, Midpoint(lo, hi) + 1, hi, l, r)
      ensures pushes.Some? <==> ComposesBelow(policy, o, lo, hi, l, r, f)
      decreases hi - lo, 0
    {
      var mid := Midpoint(lo, hi);
      hide Laid, Shaped, AgreeElsewhere, UpdateIfMet, TagTrees.Update, PushCount, Rebuilt,
           ComposesFit;
      LaidChildren(tags, TagOf, i, o);
      RebuiltParts(policy, true, o, lo, hi, l, r, f);
      ghost var u := Rebuilt(policy, true, o, lo, hi, l, r, f);
      var left :- Enter(2 * i + 1, lo, mid, l, r, f, o.left);
      BesideLeft(old(tags), tags, TagOf, i, o.right);
      ghost var before := tags;
      var right :- Enter(2 * i + 2, mid + 1, hi, l, r, f, o.right);
      LaidBoth(old(tags), before, tags, TagOf, i, u);
      return Some(left + right);
    }
  }
}
