/**
 * Integer-exponent powers and geometric sums over the reals: the part of
 * `Math.pow` that the projection engine can be stated with.
 */
module RealPow {

  /** `x` raised to the natural power `n`. */
  function Pow(x: real, n: nat): real
  {
    if n == 0 then 1.0 else x * Pow(x, n - 1)
  }

  /** The geometric sum `x^0 + x^1 + ... + x^(n-1)`. */
  function GeometricSum(x: real, n: nat): real
  {
    if n == 0 then 0.0 else GeometricSum(x, n - 1) + Pow(x, n - 1)
  }

  lemma MulLeftCommute(x: real, a: real, b: real)
    ensures x * (a * b) == a * (x * b)
  {
  }

  lemma NegatedFactor(a: real, b: real)
    ensures a * (-b) == -(a * b)
  {
  }

  lemma {:induction false} PowAdd(x: real, m: nat, n: nat)
    ensures Pow(x, m + n) == Pow(x, m) * Pow(x, n)
  {
    if n > 0 {
      PowAdd(x, m, n - 1);
      MulLeftCommute(x, Pow(x, m), Pow(x, n - 1));
    }
  }

  lemma {:induction false} PowOfOne(n: nat)
    ensures Pow(1.0, n) == 1.0
  {
    if n > 0 {
      PowOfOne(n - 1);
    }
  }

  lemma {:induction false} PowPositive(x: real, n: nat)
    requires x > 0.0
    ensures Pow(x, n) > 0.0
  {
    if n > 0 {
      PowPositive(x, n - 1);
      assert x * Pow(x, n - 1) > 0.0;
    }
  }

  /** A base of at least one never gives a power below one. */
  lemma {:induction false} PowAtLeastOne(x: real, n: nat)
    requires x >= 1.0
    ensures Pow(x, n) >= 1.0
  {
    if n > 0 {
      PowAtLeastOne(x, n - 1);
      var p := Pow(x, n - 1);
      assert x * p - p == (x - 1.0) * p;
      assert (x - 1.0) * p >= 0.0;
    }
  }

  /** A base above one gives a power above one for every positive exponent. */
  lemma {:induction false} PowAboveOne(x: real, n: nat)
    requires x > 1.0 && n >= 1
    ensures Pow(x, n) > 1.0
  {
    PowAtLeastOne(x, n - 1);
    var p := Pow(x, n - 1);
    assert x * p - p == (x - 1.0) * p;
    assert (x - 1.0) * p > 0.0;
  }

  /** A base strictly between zero and one gives a power below one for every positive exponent. */
  lemma {:induction false} PowBelowOne(x: real, n: nat)
    requires 0.0 < x < 1.0 && n >= 1
    ensures 0.0 < Pow(x, n) < 1.0
  {
    PowPositive(x, n);
    if n > 1 {
      PowBelowOne(x, n - 1);
      var p := Pow(x, n - 1);
      assert x * p < p by {
        assert p - x * p == (1.0 - x) * p;
        assert (1.0 - x) * p > 0.0;
      }
    }
  }

  /** Multiplying by a positive factor keeps the order. */
  lemma MulMonotone(a: real, b: real, c: real)
    requires a <= b && c > 0.0
    ensures a * c <= b * c
  {
  }

  /** Powers of a positive base are monotone in the base. */
  lemma {:induction false} PowMonotoneBase(x: real, y: real, n: nat)
    requires 0.0 < x <= y
    ensures Pow(x, n) <= Pow(y, n)
  {
    if n > 0 {
      PowMonotoneBase(x, y, n - 1);
      PowPositive(x, n - 1);
      var p, q := Pow(x, n - 1), Pow(y, n - 1);
      assert x * p <= y * p;
      assert y * p <= y * q;
    }
  }

  /** Horner's rule for the geometric sum: `x^0 + ... + x^(n-1) == x * (x^0 + ... + x^(n-2)) + 1`. */
  lemma {:induction false} GeometricSumHorner(x: real, n: nat)
    requires n > 0
    ensures GeometricSum(x, n) == x * GeometricSum(x, n - 1) + 1.0
  {
    if n > 1 {
      GeometricSumHorner(x, n - 1);
      var g, p := GeometricSum(x, n - 2), Pow(x, n - 2);
      assert x * (g + p) == x * g + x * p;
    }
  }

  /** The closed form of a geometric sum: `(x - 1) * (x^0 + ... + x^(n-1)) == x^n - 1`. */
  lemma {:induction false} GeometricSumClosedForm(x: real, n: nat)
    ensures GeometricSum(x, n) * (x - 1.0) == Pow(x, n) - 1.0
  {
    if n > 0 {
      GeometricSumClosedForm(x, n - 1);
      var p := Pow(x, n - 1);
      calc {
        GeometricSum(x, n) * (x - 1.0);
        (GeometricSum(x, n - 1) + p) * (x - 1.0);
        GeometricSum(x, n - 1) * (x - 1.0) + p * (x - 1.0);
        p - 1.0 + p * (x - 1.0);
        x * p - 1.0;
      }
    }
  }
}
