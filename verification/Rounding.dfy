/** Double precision: rounded results, and how far a chain of them is from the exact value. */
module Rounding {

  /** Products of reals by name, so that the laws below are used one at a time. */
  function Times(x: real, y: real): (z: real) { x * y }

  const HalfUlp: real := 1.0 / 9007199254740992.0

  /** Twice the relative error of one rounding. */
  const Ulp: real := 1.0 / 4503599627370496.0

  /** How much `n` roundings can change a value, as a factor. */
  function Factor(n: nat): (f: real)
    ensures f >= 1.0
  {
    if n == 0 then 1.0 else GrowsBy(Factor(n - 1), Ulp); Times(Factor(n - 1), 1.0 + Ulp)
  }

  lemma GrowsBy(f: real, u: real)
    requires f >= 1.0 && u >= 0.0
    ensures Times(f, 1.0 + u) >= f
  {
    assert f * (1.0 + u) == f + f * u;
  }

  /** Two values at most `n` roundings apart. */
  predicate Near(x: real, y: real, n: nat) {
    x >= 0.0 && y >= 0.0 && x <= Times(y, Factor(n)) && y <= Times(x, Factor(n))
  }

  /**
   * What a double operation may give for the exact result `x`: within half a unit in the last place,
   * unless `x` is too small to be a normal number. The exact result itself is allowed, so that fused
   * operations are covered.
   */
  predicate Rounds(smallest: real, x: real, y: real) {
    y >= 0.0 && (x == 0.0 || x >= smallest ==> x - Times(x, HalfUlp) <= y <= x + Times(x, HalfUlp))
  }

  // ---- laws ----

  lemma Monotone(a: real, b: real, c: real)
    requires a <= b && c >= 0.0
    ensures Times(a, c) <= Times(b, c)
  {
  }

  lemma Commutes(a: real, b: real)
    ensures Times(a, b) == Times(b, a)
  {
  }

  lemma Associates(a: real, b: real, c: real)
    ensures Times(Times(a, b), c) == Times(a, Times(b, c))
  {
    assert (a * b) * c == a * (b * c);
  }

  lemma Distributes(a: real, b: real, c: real)
    ensures Times(a + b, c) == Times(a, c) + Times(b, c)
  {
  }

  lemma {:induction false} FactorAdds(m: nat, n: nat)
    ensures Times(Factor(m), Factor(n)) == Factor(m + n)
  {
    hide Times;
    if n == 0 {
      One(Factor(m));
    } else {
      FactorAdds(m, n - 1);
      Associates(Factor(m), Factor(n - 1), 1.0 + Ulp);
    }
  }

  lemma One(x: real)
    ensures Times(x, 1.0) == x
  {
  }

  lemma Same(x: real)
    requires x >= 0.0
    ensures Near(x, x, 0)
  {
    hide Times;
    One(x);
  }

  lemma NearSymmetric(x: real, y: real, n: nat)
    requires Near(x, y, n)
    ensures Near(y, x, n)
  {
  }

  lemma ReachAdds(x: real, y: real, z: real, m: nat, n: nat)
    requires y >= 0.0 && x <= Times(y, Factor(m)) && y <= Times(z, Factor(n))
    ensures x <= Times(z, Factor(m + n))
  {
    hide Times, Factor;
    Monotone(y, Times(z, Factor(n)), Factor(m));
    Associates(z, Factor(n), Factor(m));
    Commutes(Factor(n), Factor(m));
    FactorAdds(m, n);
  }

  lemma NearTransitive(x: real, y: real, z: real, m: nat, n: nat)
    requires Near(x, y, m) && Near(y, z, n)
    ensures Near(x, z, m + n)
  {
    hide Times, Factor;
    ReachAdds(x, y, z, m, n);
    ReachAdds(z, y, x, n, m);
  }

  lemma NearWider(x: real, y: real, m: nat, n: nat)
    requires Near(x, y, m) && m <= n
    ensures Near(x, y, n)
  {
    hide Times, Factor;
    Same(y);
    Widened(y, n - m);
    NearTransitive(x, y, y, m, n - m);
  }

  lemma Widened(x: real, n: nat)
    requires x >= 0.0
    ensures Near(x, x, n)
  {
    hide Times, Factor;
    Monotone(1.0, Factor(n), x);
    Commutes(x, Factor(n));
    Commutes(x, 1.0);
    One(x);
  }

  lemma NearSum(x: real, y: real, u: real, v: real, m: nat, n: nat)
    requires Near(x, y, m) && Near(u, v, m) && m <= n
    ensures Near(x + u, y + v, n)
  {
    hide Times, Factor;
    Distributes(y, v, Factor(m));
    Distributes(x, u, Factor(m));
    NearWider(x + u, y + v, m, n);
  }

  lemma NearScaled(x: real, y: real, n: nat, c: real)
    requires Near(x, y, n) && c >= 0.0
    ensures Near(Times(x, c), Times(y, c), n)
  {
    hide Times, Factor;
    Monotone(x, Times(y, Factor(n)), c);
    Monotone(y, Times(x, Factor(n)), c);
    Swaps(y, Factor(n), c);
    Swaps(x, Factor(n), c);
    NotNegative(x, c);
    NotNegative(y, c);
  }

  lemma Swaps(a: real, b: real, c: real)
    ensures Times(Times(a, b), c) == Times(Times(a, c), b)
  {
    hide Times;
    Associates(a, b, c);
    Commutes(b, c);
    Associates(a, c, b);
  }

  lemma NotNegative(x: real, c: real)
    requires x >= 0.0 && c >= 0.0
    ensures Times(x, c) >= 0.0
  {
  }

  lemma NearProduct(x: real, y: real, u: real, v: real, m: nat, n: nat)
    requires Near(x, y, m) && Near(u, v, n)
    ensures Near(Times(x, u), Times(y, v), m + n)
  {
    hide Times, Factor;
    NearScaled(x, y, m, u);
    NearScaled(u, v, n, y);
    Commutes(u, y);
    Commutes(v, y);
    NearTransitive(Times(x, u), Times(y, u), Times(y, v), m, n);
  }

  /** One rounding of a normal number or zero. */
  lemma RoundsNear(smallest: real, x: real, y: real)
    requires Rounds(smallest, x, y) && x >= 0.0 && (x == 0.0 || x >= smallest)
    ensures Near(x, y, 1)
  {
    var u := x * HalfUlp;
    assert Factor(1) == 1.0 + Ulp by { assert Factor(0) == 1.0; One(1.0 + Ulp); Commutes(1.0, 1.0 + Ulp); }
    assert x * (1.0 + Ulp) == x + 2.0 * u by { assert x * Ulp == 2.0 * (x * HalfUlp); }
    Below(x, y);
  }

  lemma Below(x: real, y: real)
    requires x >= 0.0 && y >= x - x * HalfUlp
    ensures x <= y * (1.0 + Ulp)
  {
    var h := HalfUlp;
    var k := 1.0 - h;
    assert y >= x * k;
    assert k * (1.0 + 2.0 * h) >= 1.0;
    var f := 1.0 + 2.0 * h;
    assert y * f >= (x * k) * f;
    assert (x * k) * f == x * (k * f);
    assert x * (k * f) >= x * 1.0;
  }

  /** A value rounded once more. */
  lemma NearRounded(smallest: real, x: real, exact: real, y: real, n: nat)
    requires Near(x, exact, n) && Rounds(smallest, x, y) && (x == 0.0 || x >= smallest)
    ensures Near(y, exact, n + 1)
  {
    hide Rounds, Near;
    NearIsPositive(x, exact, n);
    RoundsNear(smallest, x, y);
    NearSymmetric(x, y, 1);
    NearTransitive(y, x, exact, 1, n);
  }

  lemma NearIsPositive(x: real, y: real, n: nat)
    requires Near(x, y, n)
    ensures x >= 0.0 && y >= 0.0
  {
  }

  /** A little more than one unit in the last place for each of `n` roundings. */
  function Drift(n: nat): (e: real) { n as real * 1.25 * Ulp }

  /** Few roundings change little. */
  lemma {:induction false} FactorIsSmall(n: nat)
    requires n <= 1000000
    ensures Factor(n) <= 1.0 + n as real * 1.25 * Ulp
  {
    hide Times;
    if n > 0 {
      FactorIsSmall(n - 1);
      var a := 1.0 + (n - 1) as real * 1.25 * Ulp;
      Monotone(Factor(n - 1), a, 1.0 + Ulp);
      SmallStep(n);
    }
  }

  lemma SmallStep(n: nat)
    requires 0 < n <= 1000000
    ensures Times(1.0 + (n - 1) as real * 1.25 * Ulp, 1.0 + Ulp) <= 1.0 + n as real * 1.25 * Ulp
  {
    var k := (n - 1) as real * 1.25;
    assert k <= 1250000.0;
    assert (1.0 + k * Ulp) * (1.0 + Ulp) == 1.0 + k * Ulp + Ulp + (k * Ulp) * Ulp;
    assert k * Ulp <= 0.25;
    assert (k * Ulp) * Ulp <= 0.25 * Ulp;
    assert n as real * 1.25 * Ulp == k * Ulp + 1.25 * Ulp by { assert n as real * 1.25 == k + 1.25; }
  }

  lemma NearIsClose(x: real, y: real, n: nat)
    requires Near(x, y, n) && n <= 1000000
    ensures y - Times(y, Drift(n)) <= x <= y + Times(y, Drift(n))
  {
    hide Factor;
    FactorIsSmall(n);
    var e := Drift(n);
    Monotone(Factor(n), 1.0 + e, y);
    Monotone(Factor(n), 1.0 + e, x);
    assert y <= x * (1.0 + e) && x <= y * (1.0 + e);
    if x < y {
      assert x * e <= y * e;
    }
  }
}
