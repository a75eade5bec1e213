/** Where the lattice sites of lattices.py lie in the plane. The lattice vectors
    of lattices.py:16-18 and lattices.py:39-40 are written out with the lattice
    constant `a`; the square root of 3 is a parameter `sqrt3` of which only
    sqrt3 * sqrt3 == 3 is known, so it is never approximated. */
module LatticeGeometry {
  import opened Plane
  import opened Lattices

  predicate IsSqrt3(sqrt3: real) {
    sqrt3 > 0.0 && sqrt3 * sqrt3 == 3.0
  }

  /** The triangular lattice vectors v0 = (a, 0), v1 = (a/2, sqrt3 a/2) and
      v2 = (-a/2, sqrt3 a/2) applied to the lattice coordinates of `u`, from `origin`. */
  function TriangularPoint(origin: Point2, a: real, sqrt3: real, u: Vec): Point2 {
    Point2(origin.x + (u.p as real) * a + (u.q as real) * (a / 2.0),
           origin.y + (u.q as real) * (sqrt3 * a / 2.0))
  }

  /** The square lattice vectors v0 = (a, 0) and v1 = (0, a). */
  function SquarePoint(origin: Point2, a: real, u: Vec): Point2 {
    Point2(origin.x + (u.p as real) * a, origin.y + (u.q as real) * a)
  }

  lemma TranslateTriangular(origin: Point2, a: real, sqrt3: real, u: Vec, d: Vec)
    ensures TriangularPoint(origin, a, sqrt3, Add(u, d)).x - TriangularPoint(origin, a, sqrt3, u).x
            == (d.p as real) * a + (d.q as real) * (a / 2.0)
    ensures TriangularPoint(origin, a, sqrt3, Add(u, d)).y - TriangularPoint(origin, a, sqrt3, u).y
            == (d.q as real) * (sqrt3 * a / 2.0)
  {
    assert ((u.p + d.p) as real) * a == (u.p as real) * a + (d.p as real) * a;
    assert ((u.q + d.q) as real) * (a / 2.0) == (u.q as real) * (a / 2.0) + (d.q as real) * (a / 2.0);
    assert ((u.q + d.q) as real) * (sqrt3 * a / 2.0)
        == (u.q as real) * (sqrt3 * a / 2.0) + (d.q as real) * (sqrt3 * a / 2.0);
  }

  /** Each of the three triangular lattice vectors is one lattice constant long,
      so v2 = v1 - v0 is the third side of an equilateral triangle. */
  lemma TriangularStepLength(origin: Point2, a: real, sqrt3: real, u: Vec, d: Vec)
    requires IsSqrt3(sqrt3)
    requires d == V0 || d == V1 || d == V2
    ensures SquaredDistance(TriangularPoint(origin, a, sqrt3, u),
                            TriangularPoint(origin, a, sqrt3, Add(u, d))) == a * a
  {
    TranslateTriangular(origin, a, sqrt3, u, d);
    var dx := (d.p as real) * a + (d.q as real) * (a / 2.0);
    var dy := (d.q as real) * (sqrt3 * a / 2.0);
    if d == V0 {
      assert dx == a && dy == 0.0;
    } else {
      assert dx * dx == a * a / 4.0;
      assert dy * dy == (sqrt3 * sqrt3) * (a * a) / 4.0;
    }
  }

  /** In the plane, grid site (c, r) of `triangular` lies c lattice constants
      right of the starting point, shifted left by a/2 on odd rows, and r row
      heights sqrt3 a/2 above it. */
  lemma TriangularRowOffset(origin: Point2, a: real, sqrt3: real, start: Vec, c: int, r: nat)
    ensures TriangularPoint(origin, a, sqrt3, TriangularSite(start, c, r)).x
         == TriangularPoint(origin, a, sqrt3, start).x + (c as real) * a - (if r % 2 == 1 then a / 2.0 else 0.0)
    ensures TriangularPoint(origin, a, sqrt3, TriangularSite(start, c, r)).y
         == TriangularPoint(origin, a, sqrt3, start).y + (r as real) * (sqrt3 * a / 2.0)
  {
    var d := Vec(c - (r + 1) / 2, r);
    assert TriangularSite(start, c, r) == Add(start, d);
    TranslateTriangular(origin, a, sqrt3, start, d);
    var half := (r + 1) / 2;
    assert (d.p as real) * a + (r as real) * (a / 2.0)
        == (c as real) * a + ((r as real) / 2.0 - (half as real)) * a;
    if r % 2 == 1 {
      assert (r as real) / 2.0 - (half as real) == -0.5;
    } else {
      assert (r as real) / 2.0 - (half as real) == 0.0;
    }
  }

  /** Grid sites of `triangular` that are neighbours in the list's column-major
      grid, one column or one row apart, are exactly one lattice constant apart. */
  lemma TriangularNeighbourDistance(origin: Point2, a: real, sqrt3: real,
                                    start: Vec, rows: nat, cols: nat, sites: seq<Vec>, c: nat, r: nat)
    requires IsSqrt3(sqrt3)
    requires IsTriangularLayout(start, rows, cols, sites)
    requires c < cols && r < rows
    ensures c + 1 < cols ==>
      SquaredDistance(TriangularPoint(origin, a, sqrt3, sites[TriangularIndex(rows, c, r)]),
                      TriangularPoint(origin, a, sqrt3, sites[TriangularIndex(rows, c + 1, r)])) == a * a
    ensures r + 1 < rows ==>
      SquaredDistance(TriangularPoint(origin, a, sqrt3, sites[TriangularIndex(rows, c, r)]),
                      TriangularPoint(origin, a, sqrt3, sites[TriangularIndex(rows, c, r + 1)])) == a * a
  {
    TriangularNeighbours(start, rows, cols, sites, c, r);
    var here := sites[TriangularIndex(rows, c, r)];
    if c + 1 < cols {
      TriangularStepLength(origin, a, sqrt3, here, V0);
    }
    if r + 1 < rows {
      if (r + 1) % 2 == 0 {
        TriangularStepLength(origin, a, sqrt3, here, V1);
      } else {
        TriangularStepLength(origin, a, sqrt3, here, V2);
      }
    }
  }

  /** Neighbouring grid sites of `square` are one lattice constant apart. */
  lemma SquareNeighbourDistance(origin: Point2, a: real,
                                start: Vec, rows: nat, cols: nat, sites: seq<Vec>, c: nat, r: nat)
    requires IsSquareLayout(start, rows, cols, sites)
    requires c < cols && r < rows
    ensures c + 1 < cols ==>
      SquaredDistance(SquarePoint(origin, a, sites[SquareIndex(rows, c, r)]),
                      SquarePoint(origin, a, sites[SquareIndex(rows, c + 1, r)])) == a * a
    ensures r + 1 < rows ==>
      SquaredDistance(SquarePoint(origin, a, sites[SquareIndex(rows, c, r)]),
                      SquarePoint(origin, a, sites[SquareIndex(rows, c, r + 1)])) == a * a
  {
    var grid := sites[..|sites| - 1];
    var here := grid[SquareIndex(rows, c, r)];
    assert here == SquareSite(start, c, r);
    if c + 1 < cols {
      assert grid[SquareIndex(rows, c + 1, r)] == SquareSite(start, c + 1, r);
      assert ((start.p + c + 1) as real) * a - ((start.p + c) as real) * a == a;
    }
    if r + 1 < rows {
      assert grid[SquareIndex(rows, c, r + 1)] == SquareSite(start, c, r + 1);
      assert ((start.q + r + 1) as real) * a - ((start.q + r) as real) * a == a;
    }
  }
}
