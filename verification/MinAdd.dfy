/** MinAddPolicy (include/valseg/policy.hpp:239-310): range-add actions over range-minimum aggregates. */
module MinAdd {
  import opened Wrappers
  import opened Policies
  import opened Checked

  /** A segment minimum; C++ represents the minimum of no elements by the largest word. */
  datatype Minimum = Infinity | Finite(value: int)

  function MinAddPolicy(): Policy<Minimum, int> {
    Policy(
      (x: Minimum, y: Minimum) =>
        if x.Infinity? then y else if y.Infinity? then x else if x.value < y.value then x else y,
      Infinity,
      (newer: int, older: int) => newer + older,
      0,
      (d: int, x: Minimum, n: nat) => if n == 0 || x.Infinity? then x else Finite(x.value + d),
      (x: Minimum, y: Minimum) => true,
      (newer: int, older: int) => Fits(newer + older),
      (d: int, x: Minimum, n: nat) => n == 0 || x.Infinity? || Fits(x.value + d),
      (x: Minimum, n: nat) => n == 0 <==> x.Infinity?,
      (d: int) => true)
  }

  lemma MinAddLawful()
    ensures Lawful(MinAddPolicy()) && InducedActionsCommute(MinAddPolicy())
  {
    hide DistributesAt;
    var p := MinAddPolicy();
    forall d: int, x: Minimum, m: nat, y: Minimum, n: nat ensures DistributesAt(p, d, x, m, y, n) {
      MinAddDistributes(d, x, m, y, n);
    }
  }

  lemma MinAddDistributes(d: int, x: Minimum, m: nat, y: Minimum, n: nat)
    ensures DistributesAt(MinAddPolicy(), d, x, m, y, n)
  {
  }

  // ---------------------------------------------------------------- the machine words

  /** The word that stands for a minimum: that of no elements is the largest word, which is also a value. */
  function Word(x: Minimum): int {
    if x.Infinity? then MAXIMUM else x.value
  }

  /** `combine` on words. */
  function CombineWords(left: int, right: int): (least: int)
    ensures least <= left && least <= right && (least == left || least == right)
  {
    if left < right then left else right
  }

  /** `apply` on words. */
  function ApplyWord(d: int, x: int, length: nat): Option<int>
    requires Fits(d) && Fits(x)
  {
    if length == 0 then Some(x) else CheckedAdd(x, d)
  }

  /** Combining words is combining minima, also where the largest word is a value. */
  lemma CombineAgrees(x: Minimum, y: Minimum)
    requires Fits(Word(x)) && Fits(Word(y))
    ensures CombineWords(Word(x), Word(y)) == Word(MinAddPolicy().combine(x, y))
  {
  }

  /**
   Applying to a word is applying to a minimum, success and failure alike, except a nonzero delta on the empty segment's
   minimum taken for that of a nonempty one; on a valid aggregate of its length it always is.
   */
  lemma ApplyAgrees(d: int, x: Minimum, length: nat)
    requires Fits(d) && Fits(Word(x))
    ensures var word, exact := ApplyWord(d, Word(x), length), MinAddPolicy().TryApply(d, x, length);
            word == (if exact.Some? then Some(Word(exact.value)) else None)
            <==> !(x.Infinity? && length > 0 && d != 0)
    ensures MinAddPolicy().validAggregate(x, length) ==> !(x.Infinity? && length > 0 && d != 0)
  {
    if x.Finite? {
      assert MinAddPolicy().TryApply(d, x, length)
          == if length == 0 then Some(x) else if Fits(x.value + d) then Some(Finite(x.value + d)) else None;
    }
  }
}
