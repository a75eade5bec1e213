/** The square grid of cylinder centres built at the top level of
    finite_dimension_cylinders.py:25-35, as a routine of the block width, the
    cylinder radius and the lattice constant (module-level constants there). */
module FiniteCylinders {
  import opened Outcome
  import opened Plane
  import Indexing

  /** The script's constants (finite_dimension_cylinders.py:16, 23-24). */
  const BlockWidth: real := 15.0
  const CylinderRadius: real := 0.5
  const LatticeConstant: real := 1.0

  /** Python's `int()` on a float: truncation toward zero. */
  function Truncate(x: real): (n: int)
    ensures 0.0 <= x ==> 0 <= n && n as real <= x < n as real + 1.0
    ensures x < 0.0 ==> n <= 0 && n as real - 1.0 < x <= n as real
  {
    if x >= 0.0 then x.Floor else -((-x).Floor)
  }

  /** The starting corner: one cylinder radius in from the lower-left corner of
      the block centred at the origin. */
  function StartingCorner(blockWidth: real, cylinderRadius: real): (corner: Point2)
    ensures corner.x == corner.y
    ensures corner.x - cylinderRadius == -(blockWidth / 2.0)
  {
    Point2(-(blockWidth / 2.0) + cylinderRadius, -(blockWidth / 2.0) + cylinderRadius)
  }

  /** Position in the list of grid point (row i, column j): after the starting
      corner, rows of n points each. */
  function GridIndex(n: nat, i: nat, j: nat): nat { 1 + i * n + j }

  /** The starting corner followed by the first m rows of an n-wide grid in
      row-major order, x varying fastest, one lattice constant apart. */
  predicate IsCornerRows(corner: Point2, n: nat, m: nat, a: real, points: seq<Point2>) {
    && |points| == 1 + m * n
    && points[0] == corner
    && forall i, j :: 0 <= i < m && 0 <= j < n ==>
         GridIndex(n, i, j) < |points| &&
         points[GridIndex(n, i, j)] == Point2(corner.x + (j as real) * a, corner.y + (i as real) * a)
  }

  /** The starting corner followed by the complete n x n grid. */
  predicate IsCornerGrid(corner: Point2, n: nat, a: real, points: seq<Point2>) {
    IsCornerRows(corner, n, n, a, points)
  }

  /** The grid construction: `number_of_points = int(block_width / lattice_constant)`,
      then nested loops with running x and y counters. */
  method CylinderCentres(blockWidth: real, cylinderRadius: real, latticeConstant: real)
    returns (res: Result<seq<Point2>>)
    ensures res == Err(DivisionByZero) <==> latticeConstant == 0.0
    ensures latticeConstant != 0.0 ==>
      res.Ok? &&
      IsCornerGrid(StartingCorner(blockWidth, cylinderRadius),
                   RangeLength(Truncate(blockWidth / latticeConstant)), latticeConstant, res.value)
  {
    var corner := StartingCorner(blockWidth, cylinderRadius);
    var points := [corner];
    if latticeConstant == 0.0 {
      return Err(DivisionByZero);
    }
    var n := RangeLength(Truncate(blockWidth / latticeConstant));
    var newY := corner.y;
    var i := 0;
    while i < n
      invariant i <= n
      invariant newY == corner.y + (i as real) * latticeConstant
      invariant IsCornerRows(corner, n, i, latticeConstant, points)
    {
      points := GridRow(corner, n, latticeConstant, i, newY, points);
      newY := newY + latticeConstant;
      i := i + 1;
    }
    res := Ok(points);
  }

  /** One pass of the outer loop: row i of n points at height `newY`, x running
      from the corner in steps of the lattice constant. */
  method GridRow(corner: Point2, n: nat, a: real, i: nat, newY: real, before: seq<Point2>)
    returns (points: seq<Point2>)
    requires IsCornerRows(corner, n, i, a, before)
    requires newY == corner.y + (i as real) * a
    ensures IsCornerRows(corner, n, i + 1, a, points)
  {
    points := before;
    var newX := corner.x;
    var j := 0;
    while j < n
      invariant j <= n
      invariant |points| == |before| + j
      invariant points[..|before|] == before
      invariant newX == corner.x + (j as real) * a
      invariant forall j' :: 0 <= j' < j ==>
          GridIndex(n, i, j') < |points| &&
          points[GridIndex(n, i, j')] == Point2(corner.x + (j' as real) * a, newY)
    {
      points := points + [Point2(newX, newY)];
      newX := newX + a;
      j := j + 1;
    }
    assert |points| == 1 + (i + 1) * n;
    forall k | 0 <= k < |before|
      ensures points[k] == before[k]
    {
      assert points[..|before|][k] == points[k];
    }
  }

  /** With the script's constants there are 15 points per row and the corner is (-7, -7). */
  lemma ScriptGridSize()
    ensures RangeLength(Truncate(BlockWidth / LatticeConstant)) == 15
    ensures StartingCorner(BlockWidth, CylinderRadius) == Point2(-7.0, -7.0)
  {
  }

  /** The starting corner is emitted twice: as the initial entry and again as
      grid point (0, 0). */
  lemma CornerRepeated(corner: Point2, n: nat, a: real, points: seq<Point2>)
    requires IsCornerGrid(corner, n, a, points) && n >= 1
    ensures points[1] == points[0]
  {
    assert points[GridIndex(n, 0, 0)] == Point2(corner.x + 0.0 * a, corner.y + 0.0 * a);
  }

  /** For a non-negative lattice constant every point lies in the square spanned
      by the corner and n - 1 lattice constants. */
  lemma GridWithinSquare(corner: Point2, n: nat, a: real, points: seq<Point2>)
    requires IsCornerGrid(corner, n, a, points) && n >= 1 && a >= 0.0
    ensures forall k :: 0 <= k < |points| ==>
      corner.x <= points[k].x <= corner.x + ((n - 1) as real) * a &&
      corner.y <= points[k].y <= corner.y + ((n - 1) as real) * a
  {
    assert 0.0 <= ((n - 1) as real) * a;
    forall k | 0 <= k < |points|
      ensures corner.x <= points[k].x <= corner.x + ((n - 1) as real) * a
      ensures corner.y <= points[k].y <= corner.y + ((n - 1) as real) * a
    {
      if k > 0 {
        var i, j := Indexing.DivideIndex(n, k - 1, n);
        assert k == GridIndex(n, i, j);
        ScaleWithin(i, n - 1, a);
        ScaleWithin(j, n - 1, a);
      }
    }
  }

  lemma ScaleWithin(i: nat, m: nat, a: real)
    requires i <= m && a >= 0.0
    ensures 0.0 <= (i as real) * a <= (m as real) * a
  {
    assert (m as real) * a - (i as real) * a == ((m - i) as real) * a;
  }

  /** With the script's constants every cylinder of radius 0.5 lies inside the
      15-wide dielectric block centred at the origin. */
  lemma ScriptCylindersInsideBlock(points: seq<Point2>)
    requires IsCornerGrid(StartingCorner(BlockWidth, CylinderRadius), 15, LatticeConstant, points)
    ensures forall k :: 0 <= k < |points| ==>
      -BlockWidth / 2.0 <= points[k].x - CylinderRadius && points[k].x + CylinderRadius <= BlockWidth / 2.0 &&
      -BlockWidth / 2.0 <= points[k].y - CylinderRadius && points[k].y + CylinderRadius <= BlockWidth / 2.0
  {
    GridWithinSquare(StartingCorner(BlockWidth, CylinderRadius), 15, LatticeConstant, points);
  }
}
