/**
 Exact signed 64-bit arithmetic, and arithmetic of sizes, with a defined failure (include/valseg/policy.hpp:72-137,
 include/valseg/detail/checked_size.hpp:18-38).
 */
module Checked {
  import opened Wrappers

  const MAXIMUM: int := 0x7FFF_FFFF_FFFF_FFFF
  const MINIMUM: int := -0x8000_0000_0000_0000

  /** Representable as `long long`. */
  predicate Fits(x: int) {
    MINIMUM <= x <= MAXIMUM
  }

  lemma FitsIsWord(x: int)
    ensures Fits(x) <==> -0x8000_0000_0000_0000 <= x <= 0x7FFF_FFFF_FFFF_FFFF
  {
  }

  /** `checkedAdd`: decides without leaving the representation, and fails exactly when the sum leaves it. */
  function CheckedAdd(left: int, right: int): (sum: Option<int>)
    requires Fits(left) && Fits(right)
    ensures sum.Some? <==> -0x8000_0000_0000_0000 <= left + right <= 0x7FFF_FFFF_FFFF_FFFF
    ensures sum.Some? ==> sum.value == left + right
  {
    if (right > 0 && left > MAXIMUM - right) || (right < 0 && left < MINIMUM - right) then None
    else Some(left + right)
  }

  /** Division truncating toward zero, as in C++. */
  function Truncated(dividend: int, divisor: int): int
    requires divisor != 0
  {
    if dividend >= 0 then
      if divisor > 0 then dividend / divisor else -(dividend / -divisor)
    else
      if divisor > 0 then -(-dividend / divisor) else -dividend / -divisor
  }

  /** For a positive divisor d, a product exceeds m exactly when the factor exceeds the quotient m / d. */
  lemma QuotientBound(x: int, d: int, m: int)
    requires d > 0 && m >= 0
    ensures x > m / d <==> x * d > m
  {
    var q := m / d;
    assert m == d * q + m % d;
    if x > q {
      Stretch(q + 1, x, d);
      assert (q + 1) * d == d * q + d;
    } else {
      Stretch(x, q, d);
      assert q * d == d * q;
    }
  }

  lemma Stretch(x: int, y: int, d: int)
    requires x <= y && d > 0
    ensures x * d <= y * d
  {
    assert y * d == x * d + (y - x) * d && (y - x) * d >= 0;
  }

  /** `checkedMultiply`: fails exactly when the product leaves the representation. */
  function CheckedMultiply(left: int, right: int): (product: Option<int>)
    requires Fits(left) && Fits(right)
    ensures product.Some? <==> -0x8000_0000_0000_0000 <= left * right <= 0x7FFF_FFFF_FFFF_FFFF
    ensures product.Some? ==> product.value == left * right
  {
    if left == 0 || right == 0 then Some(0)
    else if left == -1 then (if right == MINIMUM then None else Some(-right))
    else if right == -1 then (if left == MINIMUM then None else Some(-left))
    else
      var overflows :=
        || (left > 0 && right > 0 && left > Truncated(MAXIMUM, right))
        || (left > 0 && right < 0 && right < Truncated(MINIMUM, left))
        || (left < 0 && right > 0 && left < Truncated(MINIMUM, right))
        || (left < 0 && right < 0 && left < Truncated(MAXIMUM, right));
      MultiplyBranches(left, right);
      if overflows then None else Some(left * right)
  }

  /** The four sign cases of the overflow test. */
  lemma MultiplyBranches(left: int, right: int)
    requires Fits(left) && Fits(right)
    requires left != 0 && right != 0 && left != -1 && right != -1
    ensures left > 0 && right > 0 ==> (left > Truncated(MAXIMUM, right) <==> !Fits(left * right))
    ensures left > 0 && right < 0 ==> (right < Truncated(MINIMUM, left) <==> !Fits(left * right))
    ensures left < 0 && right > 0 ==> (left < Truncated(MINIMUM, right) <==> !Fits(left * right))
    ensures left < 0 && right < 0 ==> (left < Truncated(MAXIMUM, right) <==> !Fits(left * right))
  {
    if left > 0 && right > 0 {
      QuotientBound(left, right, MAXIMUM);
      SignOfProduct(left, right);
    } else if left > 0 {
      QuotientBound(-right, left, -MINIMUM);
      SignOfProduct(left, -right);
      assert -right * left == -(left * right) == left * -right;
    } else if right > 0 {
      QuotientBound(-left, right, -MINIMUM);
      SignOfProduct(-left, right);
      assert -left * right == -(left * right);
    } else {
      QuotientBound(-left, -right, MAXIMUM);
      SignOfProduct(-left, -right);
      assert -left * -right == left * right;
    }
  }

  lemma SignOfProduct(x: int, y: int)
    requires x >= 0 && y >= 0
    ensures x * y >= 0
  {
  }

  /** `checkedLength` */
  function CheckedLength(length: nat): (signed: Option<int>)
    ensures signed.Some? <==> length <= 0x7FFF_FFFF_FFFF_FFFF
    ensures signed.Some? ==> signed.value == length
  {
    if length > MAXIMUM then None else Some(length)
  }

  // ---------------------------------------------------------------- sizes

  const SIZE_MAXIMUM: nat := 0xFFFF_FFFF_FFFF_FFFF

  /** `checkedSizeAdd`: decides without leaving the representation of a size. */
  function CheckedSizeAdd(left: nat, right: nat): (sum: Option<nat>)
    requires left <= SIZE_MAXIMUM && right <= SIZE_MAXIMUM
    ensures sum.Some? <==> left + right < 0x1_0000_0000_0000_0000
    ensures sum.Some? ==> sum.value == left + right
  {
    if right > SIZE_MAXIMUM - left then None else Some(left + right)
  }

  /** `checkedSizeMultiply`: ... by a division. */
  function CheckedSizeMultiply(left: nat, right: nat): (product: Option<nat>)
    requires left <= SIZE_MAXIMUM && right <= SIZE_MAXIMUM
    ensures product.Some? <==> left * right < 0x1_0000_0000_0000_0000
    ensures product.Some? ==> product.value == left * right
  {
    if left != 0 then
      QuotientBound(right, left, SIZE_MAXIMUM);
      if right > SIZE_MAXIMUM / left then None else Some(left * right)
    else Some(0)
  }
}
