/** The finite lattice-site generators `triangular` and `square` of lattices.py.

    A site is written in lattice coordinates: `Vec(p, q)` stands for
    `p * v0 + q * v1`, where v0 and v1 are the first two lattice vectors of the
    routine. The solver's vector type is used only through `+`, `-` and scalar
    `*`, so the lists built here are the source's lists read in that basis. */
module Lattices {
  import opened Outcome
  import Indexing

  datatype Vec = Vec(p: int, q: int)

  function Add(u: Vec, w: Vec): Vec { Vec(u.p + w.p, u.q + w.q) }

  function Sub(u: Vec, w: Vec): Vec { Vec(u.p - w.p, u.q - w.q) }

  function Scale(k: int, u: Vec): Vec { Vec(k * u.p, k * u.q) }

  /** The lattice vectors. v0 is (a, 0) in both routines; v1 is (a/2, sqrt(3) a/2)
      for the triangular lattice and (0, a) for the square one. The triangular
      third vector (-a/2, sqrt(3) a/2) is exactly v1 - v0. */
  const V0 := Vec(1, 0)
  const V1 := Vec(0, 1)
  const V2 := Vec(-1, 1)

  // ---------------------------------------------------------------------------
  // Triangular lattice
  // ---------------------------------------------------------------------------

  /** Position in the triangular list of grid site (column c, row r): the starting
      point, then per column its `rows` grid sites followed by one closing site. */
  function TriangularIndex(rows: nat, c: nat, r: nat): nat { 1 + c * (rows + 1) + r }

  /** Position in the triangular list of the closing site of column c. */
  function TriangularClosingIndex(rows: nat, c: nat): nat { (c + 1) * (rows + 1) }

  /** Closed form of grid site (c, r): c steps along v0 and r steps along v1,
      moved back by ceil(r/2) steps along v0, so that even rows sit above row 0
      and odd rows half a lattice constant to the left. */
  function TriangularSite(start: Vec, c: int, r: nat): Vec {
    Vec(start.p + c - (r + 1) / 2, start.q + r)
  }

  /** What `triangular` returns for `rows` rows and `cols` columns: the starting
      point, every grid site at its closed-form position in column-major order,
      and after each column c a closing site equal to entry c plus c(v0 - v1). */
  predicate IsTriangularLayout(start: Vec, rows: nat, cols: nat, sites: seq<Vec>) {
    && |sites| == 1 + cols * (rows + 1)
    && sites[0] == start
    && (forall c, r :: 0 <= c < cols && 0 <= r < rows ==>
          TriangularIndex(rows, c, r) < |sites| &&
          sites[TriangularIndex(rows, c, r)] == TriangularSite(start, c, r))
    && (forall c :: 0 <= c < cols ==>
          c < TriangularClosingIndex(rows, c) < |sites| &&
          sites[TriangularClosingIndex(rows, c)] == Add(sites[c], Vec(c, -c)))
  }

  /** `triangular`: each new grid site is read back from the list being built
      (entry `row`, which is row - 1 of column 0) and moved by v1 or v2. */
  method Triangular(numberOfRows: int, numberOfCols: int, start: Vec) returns (sites: seq<Vec>)
    ensures IsTriangularLayout(start, RangeLength(numberOfRows), RangeLength(numberOfCols), sites)
  {
    var rows, cols := RangeLength(numberOfRows), RangeLength(numberOfCols);
    sites := [start];
    var col := 0;
    while col < cols
      invariant col <= cols
      invariant IsTriangularLayout(start, rows, col, sites)
    {
      sites := TriangularColumn(start, rows, col, sites);
      col := col + 1;
    }
  }

  /** One pass of the column loop of `triangular`: the `rows` grid sites of
      column `col`, then its closing site. */
  method TriangularColumn(start: Vec, rows: nat, col: nat, before: seq<Vec>) returns (sites: seq<Vec>)
    requires IsTriangularLayout(start, rows, col, before)
    ensures IsTriangularLayout(start, rows, col + 1, sites)
  {
    sites := before;
    var row := 0;
    while row < rows
      invariant row <= rows
      invariant |sites| == |before| + row
      invariant sites[..|before|] == before
      invariant forall r :: 0 <= r < row ==>
          TriangularIndex(rows, col, r) < |sites| &&
          sites[TriangularIndex(rows, col, r)] == TriangularSite(start, col, r)
    {
      var newPoint;
      if row == 0 {
        newPoint := Add(sites[row], Scale(col, V0));
      } else {
        // entry `row` is grid site (0, row - 1), of this column or an earlier one
        assert sites[TriangularIndex(rows, 0, row - 1)] == TriangularSite(start, 0, row - 1) by {
          if col > 0 {
            assert sites[row] == before[TriangularIndex(rows, 0, row - 1)];
          }
        }
        if row % 2 == 0 {
          newPoint := Add(Add(sites[row], V1), Scale(col, V0));
        } else {
          newPoint := Add(Add(sites[row], V2), Scale(col, V0));
        }
      }
      sites := sites + [newPoint];
      row := row + 1;
    }
    sites := sites + [Sub(Add(sites[col], Scale(col, V0)), Scale(col, V1))];
    TriangularColumnExtends(start, rows, col, before, sites);
  }

  /** The facts of a layout of `col` columns carry over to any list that extends
      it with a complete column `col`. */
  lemma TriangularColumnExtends(start: Vec, rows: nat, col: nat, before: seq<Vec>, sites: seq<Vec>)
    requires IsTriangularLayout(start, rows, col, before)
    requires |sites| == |before| + rows + 1 && sites[..|before|] == before
    requires forall r :: 0 <= r < rows ==>
        TriangularIndex(rows, col, r) < |sites| &&
        sites[TriangularIndex(rows, col, r)] == TriangularSite(start, col, r)
    requires col < |before| && sites[|sites| - 1] == Add(sites[col], Vec(col, -(col as int)))
    ensures IsTriangularLayout(start, rows, col + 1, sites)
  {
    assert |sites| == 1 + (col + 1) * (rows + 1);
    forall k | 0 <= k < |before|
      ensures sites[k] == before[k]
    {
      assert sites[..|before|][k] == sites[k];
    }
    assert TriangularClosingIndex(rows, col) == |sites| - 1;
  }

  /** With no columns the list holds only the starting point. */
  lemma TriangularWithoutColumns(start: Vec, rows: nat, sites: seq<Vec>)
    requires IsTriangularLayout(start, rows, 0, sites)
    ensures sites == [start]
  {
  }

  /** The closing site of column 0 repeats the starting point. */
  lemma TriangularFirstClosingRepeatsStart(start: Vec, rows: nat, cols: nat, sites: seq<Vec>)
    requires IsTriangularLayout(start, rows, cols, sites) && cols >= 1
    ensures sites[rows + 1] == start
  {
    assert TriangularClosingIndex(rows, 0) == rows + 1;
  }

  /** For 1 <= c <= rows the closing site of column c reads back grid site
      (0, c - 1) and lands one row below row 0, at c - floor(c/2) steps along v0. */
  lemma TriangularClosingBelowFirstRow(start: Vec, rows: nat, cols: nat, sites: seq<Vec>, c: nat)
    requires IsTriangularLayout(start, rows, cols, sites)
    requires 1 <= c <= rows && c < cols
    ensures sites[TriangularClosingIndex(rows, c)] == Vec(start.p + c - c / 2, start.q - 1)
  {
    assert TriangularIndex(rows, 0, c - 1) == c;
  }

  /** Neighbouring grid sites differ by exactly one lattice vector: v0 to the next
      column, v1 up to an even row, v2 up to an odd row. */
  lemma TriangularNeighbours(start: Vec, rows: nat, cols: nat, sites: seq<Vec>, c: nat, r: nat)
    requires IsTriangularLayout(start, rows, cols, sites)
    requires c < cols && r < rows
    ensures c + 1 < cols ==>
      sites[TriangularIndex(rows, c + 1, r)] == Add(sites[TriangularIndex(rows, c, r)], V0)
    ensures r + 1 < rows && (r + 1) % 2 == 0 ==>
      sites[TriangularIndex(rows, c, r + 1)] == Add(sites[TriangularIndex(rows, c, r)], V1)
    ensures r + 1 < rows && (r + 1) % 2 == 1 ==>
      sites[TriangularIndex(rows, c, r + 1)] == Add(sites[TriangularIndex(rows, c, r)], V2)
  {
    if c + 1 < cols {
      assert sites[TriangularIndex(rows, c + 1, r)] == TriangularSite(start, c + 1, r);
    }
    if r + 1 < rows {
      assert sites[TriangularIndex(rows, c, r + 1)] == TriangularSite(start, c, r + 1);
    }
  }

  /** Every entry of a triangular layout is forced by the closed form and the
      read-back rule, so equal inputs give equal lists. */
  lemma {:induction false} TriangularEntryDetermined(start: Vec, rows: nat, cols: nat, s1: seq<Vec>, s2: seq<Vec>, k: nat)
    requires IsTriangularLayout(start, rows, cols, s1) && IsTriangularLayout(start, rows, cols, s2)
    requires k < |s1|
    ensures s1[k] == s2[k]
    decreases k
  {
    if k > 0 {
      var c, r := Indexing.DivideIndex(rows + 1, k - 1, cols);
      if r < rows {
        assert k == TriangularIndex(rows, c, r);
      } else {
        assert k == TriangularClosingIndex(rows, c);
        TriangularEntryDetermined(start, rows, cols, s1, s2, c);
      }
    }
  }

  lemma TriangularLayoutUnique(start: Vec, rows: nat, cols: nat, s1: seq<Vec>, s2: seq<Vec>)
    requires IsTriangularLayout(start, rows, cols, s1) && IsTriangularLayout(start, rows, cols, s2)
    ensures s1 == s2
  {
    forall k | 0 <= k < |s1|
      ensures s1[k] == s2[k]
    {
      TriangularEntryDetermined(start, rows, cols, s1, s2, k);
    }
  }

  // ---------------------------------------------------------------------------
  // Square lattice
  // ---------------------------------------------------------------------------

  /** Position in the square list of grid site (column c, row r). */
  function SquareIndex(rows: nat, c: nat, r: nat): nat { 1 + c * rows + r }

  function SquareSite(start: Vec, c: int, r: int): Vec { Vec(start.p + c, start.q + r) }

  /** The starting point followed by the rows x cols grid, column by column. */
  predicate IsSquareGrid(start: Vec, rows: nat, cols: nat, sites: seq<Vec>) {
    && |sites| == 1 + cols * rows
    && sites[0] == start
    && (forall c, r :: 0 <= c < cols && 0 <= r < rows ==>
          SquareIndex(rows, c, r) < |sites| &&
          sites[SquareIndex(rows, c, r)] == SquareSite(start, c, r))
  }

  /** What `square` returns when it returns: the grid, then one closing site equal
      to entry cols - 1 plus (cols - 1)(v0 - v1). */
  predicate IsSquareLayout(start: Vec, rows: nat, cols: nat, sites: seq<Vec>) {
    && cols >= 1
    && |sites| == cols * rows + 2
    && IsSquareGrid(start, rows, cols, sites[..|sites| - 1])
    && cols - 1 < |sites| - 1
    && sites[|sites| - 1] == Add(sites[cols - 1], Vec(cols - 1, -(cols - 1)))
  }

  /** `square`: the closing site after the loops reads the loop variable `col`,
      which is unbound when the column loop never ran, and indexes entry `col`,
      which lies past the end when there are no rows but several columns. */
  method Square(numberOfRows: int, numberOfCols: int, start: Vec) returns (res: Result<seq<Vec>>)
    ensures res == Err(UnboundLocal) <==> RangeLength(numberOfCols) == 0
    ensures res == Err(IndexOutOfRange) <==> RangeLength(numberOfCols) >= 2 && RangeLength(numberOfRows) == 0
    ensures res.Ok? <==> RangeLength(numberOfCols) >= 1 && (RangeLength(numberOfRows) >= 1 || RangeLength(numberOfCols) == 1)
    ensures res.Ok? ==> IsSquareLayout(start, RangeLength(numberOfRows), RangeLength(numberOfCols), res.value)
  {
    var rows, cols := RangeLength(numberOfRows), RangeLength(numberOfCols);
    var sites := [start];
    var col := 0;
    while col < cols
      invariant col <= cols
      invariant IsSquareGrid(start, rows, col, sites)
      invariant rows > 0 ==> |sites| >= 1 + col
    {
      sites := SquareColumn(start, rows, col, sites);
      col := col + 1;
    }
    if cols == 0 {
      return Err(UnboundLocal);
    }
    // after the loop Python's `col` keeps its last value
    var last := cols - 1;
    if last >= |sites| {
      return Err(IndexOutOfRange);
    }
    var closed := sites + [Sub(Add(sites[last], Scale(last, V0)), Scale(last, V1))];
    assert closed[..|closed| - 1] == sites;
    res := Ok(closed);
  }

  /** One pass of the column loop of `square`: the `rows` grid sites of column `col`. */
  method SquareColumn(start: Vec, rows: nat, col: nat, before: seq<Vec>) returns (sites: seq<Vec>)
    requires IsSquareGrid(start, rows, col, before)
    ensures IsSquareGrid(start, rows, col + 1, sites)
    ensures |sites| == |before| + rows
  {
    sites := before;
    var row := 0;
    while row < rows
      invariant row <= rows
      invariant |sites| == |before| + row
      invariant sites[..|before|] == before
      invariant forall r :: 0 <= r < row ==>
          SquareIndex(rows, col, r) < |sites| &&
          sites[SquareIndex(rows, col, r)] == SquareSite(start, col, r)
    {
      var newPoint;
      if row == 0 {
        newPoint := Add(sites[row], Scale(col, V0));
      } else {
        // entry `row` is grid site (0, row - 1), of this column or an earlier one
        assert sites[SquareIndex(rows, 0, row - 1)] == SquareSite(start, 0, row - 1) by {
          if col > 0 {
            assert sites[row] == before[SquareIndex(rows, 0, row - 1)];
          }
        }
        newPoint := Add(Add(sites[row], V1), Scale(col, V0));
      }
      sites := sites + [newPoint];
      row := row + 1;
    }
    assert |sites| == 1 + (col + 1) * rows;
    forall k | 0 <= k < |before|
      ensures sites[k] == before[k]
    {
      assert sites[..|before|][k] == sites[k];
    }
  }

  /** Entry 1 (row 0 of column 0, or the closing site when there are no rows)
      repeats the starting point. */
  lemma SquareSecondEntryRepeatsStart(start: Vec, rows: nat, cols: nat, sites: seq<Vec>)
    requires IsSquareLayout(start, rows, cols, sites)
    ensures sites[1] == start
  {
    var grid := sites[..|sites| - 1];
    if rows > 0 {
      assert grid[SquareIndex(rows, 0, 0)] == SquareSite(start, 0, 0);
    }
  }

  /** Each grid site (c, r) is at its own position: no two grid entries coincide. */
  lemma SquareGridSitesDistinct(start: Vec, rows: nat, cols: nat, sites: seq<Vec>,
                                c1: nat, r1: nat, c2: nat, r2: nat)
    requires IsSquareLayout(start, rows, cols, sites)
    requires c1 < cols && r1 < rows && c2 < cols && r2 < rows
    requires (c1, r1) != (c2, r2)
    ensures SquareIndex(rows, c1, r1) != SquareIndex(rows, c2, r2)
    ensures sites[SquareIndex(rows, c1, r1)] != sites[SquareIndex(rows, c2, r2)]
  {
    var grid := sites[..|sites| - 1];
    assert grid[SquareIndex(rows, c1, r1)] == SquareSite(start, c1, r1);
    assert grid[SquareIndex(rows, c2, r2)] == SquareSite(start, c2, r2);
  }

  /** When 2 <= cols <= rows + 1 the closing site reads back grid site
      (0, cols - 2) and lands one row below row 0 in the last column. */
  lemma SquareClosingBelowLastColumn(start: Vec, rows: nat, cols: nat, sites: seq<Vec>)
    requires IsSquareLayout(start, rows, cols, sites)
    requires 2 <= cols <= rows + 1
    ensures sites[|sites| - 1] == Vec(start.p + cols - 1, start.q - 1)
  {
    var grid := sites[..|sites| - 1];
    assert grid[SquareIndex(rows, 0, cols - 2)] == SquareSite(start, 0, cols - 2);
  }

  lemma {:induction false} SquareEntryDetermined(start: Vec, rows: nat, cols: nat, s1: seq<Vec>, s2: seq<Vec>, k: nat)
    requires IsSquareLayout(start, rows, cols, s1) && IsSquareLayout(start, rows, cols, s2)
    requires k < |s1| - 1
    ensures s1[k] == s2[k]
  {
    var g1, g2 := s1[..|s1| - 1], s2[..|s2| - 1];
    if k > 0 {
      var c, r := Indexing.DivideIndex(rows, k - 1, cols);
      assert k == SquareIndex(rows, c, r);
      assert g1[k] == g2[k];
    }
  }

  /** A square layout is determined by its inputs: grid entries by the closed
      form, the closing site by the entry it reads back. */
  lemma SquareLayoutUnique(start: Vec, rows: nat, cols: nat, s1: seq<Vec>, s2: seq<Vec>)
    requires IsSquareLayout(start, rows, cols, s1) && IsSquareLayout(start, rows, cols, s2)
    ensures s1 == s2
  {
    forall k | 0 <= k < |s1| - 1
      ensures s1[k] == s2[k]
    {
      SquareEntryDetermined(start, rows, cols, s1, s2, k);
    }
    SquareEntryDetermined(start, rows, cols, s1, s2, cols - 1);
  }

  /** Three rows and three columns from the origin: eleven entries, the
      starting point twice, and a closing site (2, -1) outside the grid. */
  lemma SquareThreeByThree(sites: seq<Vec>)
    requires IsSquareLayout(Vec(0, 0), 3, 3, sites)
    ensures |sites| == 11
    ensures sites[0] == sites[1] == Vec(0, 0)
    ensures sites[10] == Vec(2, -1)
  {
    SquareSecondEntryRepeatsStart(Vec(0, 0), 3, 3, sites);
    SquareClosingBelowLastColumn(Vec(0, 0), 3, 3, sites);
  }
}
