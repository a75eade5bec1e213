/** Packing-fraction geometry of calculate_fill_factors.py: circle area, sphere
    volume and the area fill fraction of a square lattice of circles. */
module FillFactors {
  import opened Outcome
  import RealArithmetic

  /** The values pi may take: nothing about pi is used but these bounds. */
  type PiRange = x: real | 3.14159 < x < 3.1416 witness 3.14159265

  /** pi as a symbolic constant: a fixed real of which only its range is known. */
  const Pi: PiRange

  /** Python's `r ** 2` and `r ** 3`. */
  function Squared(r: real): real { r * r }
  function Cube(r: real): real { r * r * r }

  /** `area_circle`: pi r^2, for a radius of either sign. It is never negative,
      and zero exactly at radius zero. */
  function AreaCircle(r: real): (area: real)
    ensures area >= 0.0
    ensures area == 0.0 <==> r == 0.0
  {
    SquaredSign(r);
    RealArithmetic.PositiveScaleKeepsSign(Pi, Squared(r));
    Pi * Squared(r)
  }

  /** `volume_sphere`: (4/3) pi r^3. It has the sign of the radius: zero at zero,
      positive for a positive radius, negative for a negative one. */
  function VolumeSphere(r: real): (volume: real)
    ensures r == 0.0 ==> volume == 0.0
    ensures r > 0.0 ==> volume > 0.0
    ensures r < 0.0 ==> volume < 0.0
  {
    CubeSign(r);
    RealArithmetic.PositiveScaleKeepsSign((4.0 / 3.0) * Pi, Cube(r));
    (4.0 / 3.0) * Pi * Cube(r)
  }

  /** What `square_circs` returns: the fraction, and whether it printed that the
      packing is beyond close packed (the radius exceeds half the lattice constant). */
  datatype Packing = Packing(fraction: real, exceedsClosePacking: bool)

  /** `square_circs`: circle area over the square unit-cell area a^2. The
      over-packed case only prints a warning; the same ratio is returned in both
      branches. A zero cell area divides by zero. */
  function SquareCircs(r: real, a: real): (res: Result<Packing>)
    ensures res.Err? ==> res.fault == DivisionByZero
    ensures res.Ok? ==> res.value.exceedsClosePacking == (r > a / 2.0)
    ensures res.Ok? ==> res.value.fraction * Squared(a) == AreaCircle(r)
  {
    var exceeds := r > a / 2.0;
    var squareArea := Squared(a);
    var circleArea := AreaCircle(r);
    if squareArea == 0.0 then Err(DivisionByZero)
    else
      RealArithmetic.QuotientTimesDivisor(circleArea, squareArea);
      Ok(Packing(circleArea / squareArea, exceeds))
  }

  lemma SquaredPositive(r: real)
    requires r != 0.0
    ensures Squared(r) > 0.0
  {
    if r > 0.0 {
      RealArithmetic.ProductPositive(r, r, Squared(r));
    } else {
      RealArithmetic.ProductPositive(-r, -r, Squared(r));
    }
  }

  /** A square is never negative, and zero exactly at zero. */
  lemma SquaredSign(r: real)
    ensures Squared(r) >= 0.0
    ensures Squared(r) == 0.0 <==> r == 0.0
  {
    if r != 0.0 {
      SquaredPositive(r);
    }
  }

  lemma SquaredMonotone(r1: real, r2: real)
    requires 0.0 <= r1 <= r2
    ensures Squared(r1) <= Squared(r2)
  {
    RealArithmetic.ProductMonotone(r1, r1, r2, r2, Squared(r1), Squared(r2));
  }

  /** The circle area grows with the radius. */
  lemma AreaCircleMonotone(r1: real, r2: real)
    requires 0.0 <= r1 <= r2
    ensures AreaCircle(r1) <= AreaCircle(r2)
  {
    SquaredMonotone(r1, r2);
    RealArithmetic.ProductMonotone(Pi, Squared(r1), Pi, Squared(r2), AreaCircle(r1), AreaCircle(r2));
  }

  lemma SquaredOfProduct(k: real, r: real)
    ensures Squared(k * r) == Squared(k) * Squared(r)
  {
  }

  lemma SquaredOfHalf(a: real)
    ensures Squared(a / 2.0) == Squared(a) / 4.0
  {
  }

  /** The cube has the sign of its base. */
  lemma CubeSign(r: real)
    ensures r == 0.0 ==> Cube(r) == 0.0
    ensures r > 0.0 ==> Cube(r) > 0.0
    ensures r < 0.0 ==> Cube(r) < 0.0
  {
    if r != 0.0 {
      SquaredPositive(r);
      if r > 0.0 {
        RealArithmetic.ProductPositive(Squared(r), r, Cube(r));
      } else {
        RealArithmetic.ProductNegative(Squared(r), r, Cube(r));
      }
    }
  }

  /** The sphere volume strictly grows with a non-negative radius. */
  lemma VolumeSphereIncreasing(r1: real, r2: real)
    requires 0.0 <= r1 < r2
    ensures VolumeSphere(r1) < VolumeSphere(r2)
  {
    SquaredMonotone(r1, r2);
    SquaredPositive(r2);
    if r1 > 0.0 {
      SquaredPositive(r1);
    }
    RealArithmetic.ProductStrictlyMonotone(r1, Squared(r1), r2, Squared(r2), Cube(r1), Cube(r2));
    CubeSign(r1);
    var k := (4.0 / 3.0) * Pi;
    RealArithmetic.ProductStrictlyMonotone(Cube(r1), k, Cube(r2), k, VolumeSphere(r1), VolumeSphere(r2));
  }

  /** The ratio is returned for every non-zero lattice constant; only a zero
      lattice constant divides by zero. */
  lemma SquareCircsFailsOnlyWithoutCell(r: real, a: real)
    ensures SquareCircs(r, a).Err? <==> a == 0.0
  {
    if a != 0.0 {
      SquaredPositive(a);
    }
  }

  /** At the close-packing radius a/2 the fraction is exactly pi/4, with no warning. */
  lemma QuarterPiAtClosePacking(a: real)
    requires a != 0.0
    ensures SquareCircs(a / 2.0, a) == Ok(Packing(Pi / 4.0, false))
  {
    SquareCircsFailsOnlyWithoutCell(a / 2.0, a);
    SquaredPositive(a);
    SquaredOfHalf(a);
    assert AreaCircle(a / 2.0) == (Pi / 4.0) * Squared(a);
    var f := SquareCircs(a / 2.0, a).value.fraction;
    RealArithmetic.CancelFactor(Squared(a), f, Pi / 4.0);
  }

  /** The script's own check `square_circs(0.5, 1)` yields pi/4. */
  lemma MainCheck()
    ensures SquareCircs(0.5, 1.0) == Ok(Packing(Pi / 4.0, false))
  {
    QuarterPiAtClosePacking(1.0);
  }

  /** A radius past close packing is flagged, and its ratio is still returned:
      0.6 in a unit cell gives 0.36 pi, more than the close-packed pi/4. */
  lemma OverPackedIsFlaggedNotRefused()
    ensures SquareCircs(0.6, 1.0) == Ok(Packing(0.36 * Pi, true))
    ensures 0.36 * Pi > Pi / 4.0
  {
  }

  /** With no inclusion the fraction is 0 and nothing is flagged. */
  lemma EmptyCellFraction(a: real)
    requires a > 0.0
    ensures SquareCircs(0.0, a) == Ok(Packing(0.0, false))
  {
    SquaredPositive(a);
  }

  /** Up to close packing the fraction lies in [0, pi/4], below a complete fill of 1. */
  lemma FractionWithinClosePacking(r: real, a: real)
    requires a > 0.0 && 0.0 <= r <= a / 2.0
    ensures SquareCircs(r, a).Ok?
    ensures 0.0 <= SquareCircs(r, a).value.fraction <= Pi / 4.0 < 1.0
    ensures !SquareCircs(r, a).value.exceedsClosePacking
  {
    SquareCircsFailsOnlyWithoutCell(r, a);
    SquaredPositive(a);
    AreaCircleMonotone(r, a / 2.0);
    QuarterPiAtClosePacking(a);
    var f := SquareCircs(r, a).value.fraction;
    assert f * Squared(a) <= (Pi / 4.0) * Squared(a);
    RealArithmetic.CancelPositiveFactor(Squared(a), f, Pi / 4.0);
    assert 0.0 * Squared(a) <= f * Squared(a);
    RealArithmetic.CancelPositiveFactor(Squared(a), 0.0, f);
  }

  /** For a fixed lattice constant the fraction does not decrease as the radius grows. */
  lemma FractionMonotone(r1: real, r2: real, a: real)
    requires a != 0.0 && 0.0 <= r1 <= r2
    ensures SquareCircs(r1, a).Ok? && SquareCircs(r2, a).Ok?
    ensures SquareCircs(r1, a).value.fraction <= SquareCircs(r2, a).value.fraction
  {
    SquareCircsFailsOnlyWithoutCell(r1, a);
    SquareCircsFailsOnlyWithoutCell(r2, a);
    SquaredPositive(a);
    AreaCircleMonotone(r1, r2);
    var f1, f2 := SquareCircs(r1, a).value.fraction, SquareCircs(r2, a).value.fraction;
    RealArithmetic.CancelPositiveFactor(Squared(a), f1, f2);
  }

  /** Scaling radius and lattice constant together leaves the fraction unchanged. */
  lemma FractionScaleInvariant(r: real, a: real, k: real)
    requires a != 0.0 && k != 0.0
    ensures SquareCircs(k * r, k * a).Ok? && SquareCircs(r, a).Ok?
    ensures SquareCircs(k * r, k * a).value.fraction == SquareCircs(r, a).value.fraction
  {
    SquareCircsFailsOnlyWithoutCell(r, a);
    SquareCircsFailsOnlyWithoutCell(k * r, k * a);
    SquaredPositive(k);
    SquaredOfProduct(k, a);
    SquaredOfProduct(k, r);
    var kk, aa := Squared(k), Squared(a);
    assert AreaCircle(k * r) == kk * AreaCircle(r);
    var f1, f2 := SquareCircs(k * r, k * a).value.fraction, SquareCircs(r, a).value.fraction;
    assert f1 * (kk * aa) == kk * (f2 * aa);
    assert kk * (f2 * aa) == f2 * (kk * aa);
    RealArithmetic.CancelFactor(kk * aa, f1, f2);
  }
}
