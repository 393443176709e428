/**
 AffineSumModPolicy (include/valseg/policy.hpp:325-440): affine actions over range-sum aggregates, modulo an integer;
 the witness whose actions do not commute.
 */
module AffineSumMod {
  import opened Policies

  /** The map x -> scale * x + shift. */
  datatype Affine = Affine(scale: int, shift: int)

  function AddReduced(x: int, y: int, modulus: nat): int
    requires modulus > 0
  {
    (x + y) % modulus
  }

  function MultiplyReduced(x: int, y: int, modulus: nat): int
    requires modulus > 0
  {
    (x * y) % modulus
  }

  /** AffineSumModPolicy, on reduced aggregates and reduced coefficients. */
  function AffineSumModPolicy(modulus: nat): Policy<int, Affine>
    requires modulus > 1
  {
    Policy(
      (x: int, y: int) => AddReduced(x % modulus, y % modulus, modulus),
      0,
      (newer: Affine, older: Affine) =>
        Affine(MultiplyReduced(newer.scale, older.scale, modulus),
               AddReduced(MultiplyReduced(newer.scale, older.shift, modulus), newer.shift, modulus)),
      Affine(1, 0),
      (f: Affine, x: int, n: nat) =>
        AddReduced(MultiplyReduced(f.scale, x % modulus, modulus), MultiplyReduced(f.shift, n % modulus, modulus),
                   modulus),
      (x: int, y: int) => true,
      (newer: Affine, older: Affine) => true,
      (f: Affine, x: int, n: nat) => true,
      (x: int, n: nat) => 0 <= x < modulus && (n == 0 ==> x == 0),
      (f: Affine) => 0 <= f.scale < modulus && 0 <= f.shift < modulus)
  }

  /** Congruence modulo m. */
  ghost predicate Congruent(x: int, y: int, m: nat) {
    exists k: int :: Differ(x, y, k, m)
  }

  ghost predicate Differ(x: int, y: int, k: int, m: nat) {
    x == y + k * m
  }

  lemma Reduced(x: int, y: int, m: nat)
    requires m > 0 && Congruent(x, y, m)
    ensures Congruent(x % m, y, m) && 0 <= x % m < m
  {
    var k: int :| Differ(x, y, k, m);
    assert x == m * (x / m) + x % m;
    assert x / m * m == m * (x / m);
    assert (k - x / m) * m == k * m - x / m * m;
    assert Differ(x % m, y, k - x / m, m);
  }

  lemma Same(x: int, m: nat)
    ensures Congruent(x, x, m)
  {
    assert Differ(x, x, 0, m);
  }

  lemma CongruentSum(x: int, x': int, y: int, y': int, m: nat)
    requires Congruent(x, x', m) && Congruent(y, y', m)
    ensures Congruent(x + y, x' + y', m)
  {
    var j: int :| Differ(x, x', j, m);
    var k: int :| Differ(y, y', k, m);
    assert (j + k) * m == j * m + k * m;
    assert Differ(x + y, x' + y', j + k, m);
  }

  lemma CongruentProduct(x: int, x': int, y: int, y': int, m: nat)
    requires Congruent(x, x', m) && Congruent(y, y', m)
    ensures Congruent(x * y, x' * y', m)
  {
    var j: int :| Differ(x, x', j, m);
    var k: int :| Differ(y, y', k, m);
    calc {
      x * y;
      (x' + j * m) * (y' + k * m);
      x' * y' + x' * (k * m) + (j * m) * y' + (j * m) * (k * m);
      x' * y' + (x' * k + j * y' + j * m * k) * m;
    }
    assert Differ(x * y, x' * y', x' * k + j * y' + j * m * k, m);
  }

  /** Two reduced numbers congruent to the same number are equal. */
  lemma ReducedEqual(x: int, y: int, z: int, m: nat)
    requires Congruent(x, z, m) && Congruent(y, z, m) && 0 <= x < m && 0 <= y < m
    ensures x == y
  {
    var j: int :| Differ(x, z, j, m);
    var k: int :| Differ(y, z, k, m);
    assert (j - k) * m == j * m - k * m == x - y;
    if j != k {
      Multiple(j - k, m);
    }
  }

  lemma Multiple(k: int, m: nat)
    requires k != 0
    ensures k * m >= m || k * m <= 0 - m
  {
    if k > 0 {
      assert k * m == (k - 1) * m + m && (k - 1) * m >= 0;
    } else {
      assert k * m == -((-k - 1) * m) - m && (-k - 1) * m >= 0;
    }
  }

  // What each operation computes, up to congruence.

  lemma CombineCongruent(x: int, x': int, y: int, y': int, m: nat)
    requires m > 1 && Congruent(x, x', m) && Congruent(y, y', m)
    ensures var z := AffineSumModPolicy(m).combine(x, y); Congruent(z, x' + y', m) && 0 <= z < m
  {
    Reduced(x, x', m);
    Reduced(y, y', m);
    CongruentSum(x % m, x', y % m, y', m);
    Reduced(x % m + y % m, x' + y', m);
  }

  lemma ApplyCongruent(f: Affine, x: int, x': int, n: nat, m: nat)
    requires m > 1 && Congruent(x, x', m)
    ensures var z := AffineSumModPolicy(m).apply(f, x, n); Congruent(z, f.scale * x' + f.shift * n, m) && 0 <= z < m
  {
    Same(f.scale, m);
    Same(f.shift, m);
    Same(n, m);
    Reduced(x, x', m);
    Reduced(n, n, m);
    CongruentProduct(f.scale, f.scale, x % m, x', m);
    CongruentProduct(f.shift, f.shift, n % m, n, m);
    Reduced(f.scale * (x % m), f.scale * x', m);
    Reduced(f.shift * (n % m), f.shift * n, m);
    var a, b := (f.scale * (x % m)) % m, (f.shift * (n % m)) % m;
    CongruentSum(a, f.scale * x', b, f.shift * n, m);
    Reduced(a + b, f.scale * x' + f.shift * n, m);
  }

  lemma ComposeCongruent(g: Affine, f: Affine, m: nat)
    requires m > 1
    ensures var h := AffineSumModPolicy(m).compose(g, f);
            && Congruent(h.scale, g.scale * f.scale, m) && 0 <= h.scale < m
            && Congruent(h.shift, g.scale * f.shift + g.shift, m) && 0 <= h.shift < m
  {
    Same(g.scale * f.scale, m);
    Reduced(g.scale * f.scale, g.scale * f.scale, m);
    Same(g.scale * f.shift, m);
    Reduced(g.scale * f.shift, g.scale * f.shift, m);
    Same(g.shift, m);
    CongruentSum((g.scale * f.shift) % m, g.scale * f.shift, g.shift, g.shift, m);
    Reduced((g.scale * f.shift) % m + g.shift, g.scale * f.shift + g.shift, m);
  }

  lemma AffineAssociative(x: int, y: int, z: int, m: nat)
    requires m > 1
    ensures var p := AffineSumModPolicy(m); p.combine(p.combine(x, y), z) == p.combine(x, p.combine(y, z))
  {
    var p := AffineSumModPolicy(m);
    Same(x, m);
    Same(y, m);
    Same(z, m);
    CombineCongruent(x, x, y, y, m);
    CombineCongruent(y, y, z, z, m);
    CombineCongruent(p.combine(x, y), x + y, z, z, m);
    CombineCongruent(x, x, p.combine(y, z), y + z, m);
    ReducedEqual(p.combine(p.combine(x, y), z), p.combine(x, p.combine(y, z)), x + y + z, m);
  }

  lemma AffineComposes(g: Affine, f: Affine, x: int, n: nat, m: nat)
    requires m > 1
    ensures var p := AffineSumModPolicy(m); p.apply(p.compose(g, f), x, n) == p.apply(g, p.apply(f, x, n), n)
  {
    var p := AffineSumModPolicy(m);
    var h := p.compose(g, f);
    Same(x, m);
    Same(n, m);
    ComposeCongruent(g, f, m);
    ApplyCongruent(h, x, x, n, m);
    ApplyCongruent(f, x, x, n, m);
    ApplyCongruent(g, p.apply(f, x, n), f.scale * x + f.shift * n, n, m);
    CongruentProduct(h.scale, g.scale * f.scale, x, x, m);
    CongruentProduct(h.shift, g.scale * f.shift + g.shift, n, n, m);
    CongruentSum(h.scale * x, g.scale * f.scale * x, h.shift * n, (g.scale * f.shift + g.shift) * n, m);
    var target := g.scale * (f.scale * x + f.shift * n) + g.shift * n;
    ComposePolynomial(g.scale, g.shift, f.scale, f.shift, x, n);
    CongruentTransitive(p.apply(h, x, n), h.scale * x + h.shift * n, target, m);
    ReducedEqual(p.apply(h, x, n), p.apply(g, p.apply(f, x, n), n), target, m);
  }

  lemma ComposePolynomial(a: int, b: int, c: int, d: int, x: int, n: int)
    ensures a * c * x + (a * d + b) * n == a * (c * x + d * n) + b * n
  {
    assert a * (c * x + d * n) == a * (c * x) + a * (d * n);
    assert (a * d + b) * n == a * d * n + b * n;
  }

  lemma CongruentTransitive(x: int, y: int, z: int, m: nat)
    requires Congruent(x, y, m) && Congruent(y, z, m)
    ensures Congruent(x, z, m)
  {
    var j: int :| Differ(x, y, j, m);
    var k: int :| Differ(y, z, k, m);
    assert (j + k) * m == j * m + k * m;
    assert Differ(x, z, j + k, m);
  }

  lemma AffineDistributes(f: Affine, x: int, i: nat, y: int, j: nat, m: nat)
    requires m > 1
    ensures var p := AffineSumModPolicy(m);
            p.apply(f, p.combine(x, y), i + j) == p.combine(p.apply(f, x, i), p.apply(f, y, j))
  {
    var p := AffineSumModPolicy(m);
    var whole, fx, fy := p.apply(f, p.combine(x, y), i + j), p.apply(f, x, i), p.apply(f, y, j);
    var px, py := f.scale * x + f.shift * i, f.scale * y + f.shift * j;
    Same(x, m);
    Same(y, m);
    CombineCongruent(x, x, y, y, m);
    ApplyCongruent(f, p.combine(x, y), x + y, i + j, m);
    ApplyCongruent(f, x, x, i, m);
    ApplyCongruent(f, y, y, j, m);
    CombineCongruent(fx, px, fy, py, m);
    DistributePolynomial(f.scale, f.shift, x, i, y, j);
    ReducedEqual(whole, p.combine(fx, fy), px + py, m);
  }

  lemma DistributePolynomial(a: int, b: int, x: int, i: int, y: int, j: int)
    ensures a * (x + y) + b * (i + j) == a * x + b * i + (a * y + b * j)
  {
  }

  lemma AffineMonoid(h: Affine, g: Affine, f: Affine, m: nat)
    requires m > 1
    ensures MonoidAt(AffineSumModPolicy(m), h, g, f)
  {
    ComposeCongruent(g, f, m);
    ComposeScale(h, g, f, m);
    ComposeShift(h, g, f, m);
    ComposeIdentity(f, m);
  }

  lemma ComposeIdentity(f: Affine, m: nat)
    requires m > 1
    ensures var p := AffineSumModPolicy(m);
            p.validAction(f) ==> p.compose(p.identity, f) == f == p.compose(f, p.identity)
  {
    var a, b := f.scale, f.shift;
    if 0 <= a < m && 0 <= b < m {
      SmallRemainder(a, m);
      SmallRemainder(b, m);
      assert MultiplyReduced(1, a, m) == a == MultiplyReduced(a, 1, m);
      assert MultiplyReduced(1, b, m) == b && MultiplyReduced(a, 0, m) == 0;
    }
  }

  lemma SmallRemainder(a: int, m: nat)
    requires 0 <= a < m
    ensures a % m == a
  {
  }

  lemma ComposeScale(h: Affine, g: Affine, f: Affine, m: nat)
    requires m > 1
    ensures var p := AffineSumModPolicy(m);
            p.compose(h, p.compose(g, f)).scale == p.compose(p.compose(h, g), f).scale
  {
    var p := AffineSumModPolicy(m);
    var gf, hg := p.compose(g, f), p.compose(h, g);
    ComposeCongruent(g, f, m);
    ComposeCongruent(h, g, m);
    ComposeCongruent(h, gf, m);
    ComposeCongruent(hg, f, m);
    ProductOfCongruents(h.scale, g.scale, f.scale, gf.scale, hg.scale, m);
    var target := h.scale * g.scale * f.scale;
    CongruentTransitive(p.compose(h, gf).scale, h.scale * gf.scale, target, m);
    CongruentTransitive(p.compose(hg, f).scale, hg.scale * f.scale, target, m);
    ReducedEqual(p.compose(h, gf).scale, p.compose(hg, f).scale, target, m);
  }

  lemma ProductOfCongruents(a: int, b: int, c: int, bc: int, ab: int, m: nat)
    requires Congruent(bc, b * c, m) && Congruent(ab, a * b, m)
    ensures Congruent(a * bc, a * b * c, m) && Congruent(ab * c, a * b * c, m)
  {
    Same(a, m);
    Same(c, m);
    CongruentProduct(a, a, bc, b * c, m);
    CongruentProduct(ab, a * b, c, c, m);
    assert a * (b * c) == a * b * c;
  }

  lemma ComposeShift(h: Affine, g: Affine, f: Affine, m: nat)
    requires m > 1
    ensures var p := AffineSumModPolicy(m);
            p.compose(h, p.compose(g, f)).shift == p.compose(p.compose(h, g), f).shift
  {
    var p := AffineSumModPolicy(m);
    var gf, hg := p.compose(g, f), p.compose(h, g);
    ComposeCongruent(g, f, m);
    ComposeCongruent(h, g, m);
    ComposeCongruent(h, gf, m);
    ComposeCongruent(hg, f, m);
    ShiftOfCongruents(h.scale, h.shift, g.scale, g.shift, f.shift, gf.shift, hg.scale, hg.shift, m);
    var target := h.scale * g.scale * f.shift + h.scale * g.shift + h.shift;
    CongruentTransitive(p.compose(h, gf).shift, h.scale * gf.shift + h.shift, target, m);
    CongruentTransitive(p.compose(hg, f).shift, hg.scale * f.shift + hg.shift, target, m);
    ReducedEqual(p.compose(h, gf).shift, p.compose(hg, f).shift, target, m);
  }

  lemma ShiftOfCongruents(a: int, b: int, c: int, d: int, e: int, gf: int, scale: int, shift: int, m: nat)
    requires Congruent(gf, c * e + d, m) && Congruent(scale, a * c, m) && Congruent(shift, a * d + b, m)
    ensures Congruent(a * gf + b, a * c * e + a * d + b, m)
    ensures Congruent(scale * e + shift, a * c * e + a * d + b, m)
  {
    Same(a, m);
    Same(b, m);
    Same(e, m);
    CongruentProduct(a, a, gf, c * e + d, m);
    CongruentSum(a * gf, a * (c * e + d), b, b, m);
    assert a * (c * e + d) == a * c * e + a * d by {
      assert a * (c * e) == a * c * e;
    }
    CongruentProduct(scale, a * c, e, e, m);
    CongruentSum(scale * e, a * c * e, shift, a * d + b, m);
  }

  /** AffineSumModPolicy is a valid policy for every modulus. */
  lemma AffineLawful(m: nat)
    requires m > 1
    ensures Lawful(AffineSumModPolicy(m))
  {
    hide NeutralAt, AssociativeAt, ApplyClosedAt, ComposeAt, DistributesAt, MonoidAt;
    var p := AffineSumModPolicy(m);
    forall x: int, i: nat, y: int, j: nat ensures CombineClosedAt(p, x, i, y, j) {
    }
    forall x: int, n: nat ensures NeutralAt(p, x, n) {
      AffineNeutral(x, n, m);
    }
    forall x: int, i: nat, y: int, j: nat, z: int, k: nat ensures AssociativeAt(p, x, i, y, j, z, k) {
      AssociativeLaw(x, i, y, j, z, k, m);
    }
    forall f: Affine, x: int, n: nat ensures ApplyClosedAt(p, f, x, n) {
      AffineClosed(f, x, n, m);
    }
    forall g: Affine, f: Affine, x: int, n: nat ensures ComposeAt(p, g, f, x, n) {
      ComposeLaw(g, f, x, n, m);
    }
    forall f: Affine, x: int, i: nat, y: int, j: nat ensures DistributesAt(p, f, x, i, y, j) {
      DistributesLaw(f, x, i, y, j, m);
    }
    forall h: Affine, g: Affine, f: Affine ensures MonoidAt(p, h, g, f) {
      MonoidLaw(h, g, f, m);
    }
  }

  lemma AssociativeLaw(x: int, i: nat, y: int, j: nat, z: int, k: nat, m: nat)
    requires m > 1
    ensures AssociativeAt(AffineSumModPolicy(m), x, i, y, j, z, k)
  {
    AffineAssociative(x, y, z, m);
  }

  lemma ComposeLaw(g: Affine, f: Affine, x: int, n: nat, m: nat)
    requires m > 1
    ensures ComposeAt(AffineSumModPolicy(m), g, f, x, n)
  {
    AffineComposes(g, f, x, n, m);
  }

  lemma DistributesLaw(f: Affine, x: int, i: nat, y: int, j: nat, m: nat)
    requires m > 1
    ensures DistributesAt(AffineSumModPolicy(m), f, x, i, y, j)
  {
    AffineDistributes(f, x, i, y, j, m);
  }

  lemma MonoidLaw(h: Affine, g: Affine, f: Affine, m: nat)
    requires m > 1
    ensures MonoidAt(AffineSumModPolicy(m), h, g, f)
  {
    AffineMonoid(h, g, f, m);
  }

  lemma AffineNeutral(x: int, n: nat, m: nat)
    requires m > 1
    ensures NeutralAt(AffineSumModPolicy(m), x, n)
  {
    if 0 <= x < m {
      assert x % m == x && 1 * (x % m) == x && 0 * (n % m) == 0;
    }
  }

  lemma AffineClosed(f: Affine, x: int, n: nat, m: nat)
    requires m > 1
    ensures ApplyClosedAt(AffineSumModPolicy(m), f, x, n)
  {
    Same(x, m);
    ApplyCongruent(f, x, x, n, m);
    if n == 0 && x == 0 {
      ApplyNothing(f, m);
    }
    hide Congruent;
  }

  lemma ApplyNothing(f: Affine, m: nat)
    requires m > 1
    ensures AffineSumModPolicy(m).apply(f, 0, 0) == 0
  {
    assert 0 % m == 0 && f.scale * 0 == 0 && f.shift * 0 == 0;
  }

  /** Resetting and incrementing do not commute, so no modulus makes retained tags correct. */
  lemma AffineDoesNotCommute(m: nat)
    requires m > 1
    ensures !InducedActionsCommute(AffineSumModPolicy(m))
  {
    var reset, increment := Affine(0, 0), Affine(1, 1);
    assert !CommuteAt(AffineSumModPolicy(m), reset, increment, 0) by {
      assert 0 * (1 % m) == 0 && 1 * (0 % m) == 0 && 1 % m == 1;
    }
  }

  /** Below 2^32 no intermediate result of a reduced operation leaves 64 unsigned bits. */
  lemma AffineNoWrap(g: Affine, f: Affine, x: int, y: int, n: nat, m: nat)
    requires 1 < m < 0x1_0000_0000
    requires AffineSumModPolicy(m).validAction(g) && AffineSumModPolicy(m).validAction(f)
    ensures 0 <= g.scale * f.scale < 0x1_0000_0000_0000_0000
    ensures 0 <= g.scale * f.shift < 0x1_0000_0000_0000_0000
    ensures 0 <= MultiplyReduced(g.scale, f.shift, m) + g.shift < 0x1_0000_0000_0000_0000
    ensures 0 <= f.scale * (x % m) < 0x1_0000_0000_0000_0000
    ensures 0 <= f.shift * (n % m) < 0x1_0000_0000_0000_0000
    ensures 0 <= x % m + y % m < 0x1_0000_0000_0000_0000
  {
    ProductBelow(g.scale, f.scale);
    ProductBelow(g.scale, f.shift);
    ProductBelow(f.scale, x % m);
    ProductBelow(f.shift, n % m);
  }

  lemma ProductBelow(a: int, b: int)
    requires 0 <= a < 0x1_0000_0000 && 0 <= b < 0x1_0000_0000
    ensures 0 <= a * b < 0x1_0000_0000_0000_0000
  {
    ProductMonotone(a, 0xFFFF_FFFF, b, 0xFFFF_FFFF);
  }

  lemma ProductMonotone(a: nat, c: nat, b: nat, d: nat)
    requires a <= c && b <= d
    ensures 0 <= a * b <= c * d
  {
    assert c * d == a * b + a * (d - b) + (c - a) * d;
    assert a * (d - b) >= 0 && (c - a) * d >= 0;
  }
}
