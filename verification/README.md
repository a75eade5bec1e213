# Photonic-crystal lattice geometry, modelled in Dafny

The repository builds photonic-crystal geometries for an external
electromagnetic solver. This project models its four self-contained
computations and proves properties of them:

- **Lattice-site generators** (`lattices.py`: `triangular`, `square`).
  - Each builds a list of lattice sites from a starting point.
  - New sites are computed by reading back entries of the list under
    construction (`lattice_sites[row]`, `lattice_sites[col]`).
  - Sites are written as exact integer coefficients over the lattice vectors:
    `Vec(p, q)` means `p*v0 + q*v1`. The triangular third vector is exactly
    `v1 - v0`.
  - Each method keeps the Python loops and the read-back. Its postcondition
    is a closed-form layout predicate: list length, the position of every grid
    site, and the "closing" sites appended after each column (`triangular`) or
    once after all columns (`square`).
  - `square` raises an error in two cases, and both are modelled as error
    results: with no columns the loop variable `col` is unbound, and with no
    rows but several columns `lattice_sites[col]` is past the end.
  - `LatticeGeometry` maps coefficients to the plane. It uses a symbolic
    `sqrt3` with `sqrt3 * sqrt3 == 3` and shows that neighbouring sites are
    one lattice constant apart.
- **Cylinder-centre grid** (`finite_dimension_cylinders.py:25-35`).
  - The script-level loop is written as a method of the block width, the
    cylinder radius and the lattice constant.
  - It yields the starting corner, then an `n x n` row-major grid, where
    `n = int(block_width / lattice_constant)`.
- **Packing fractions** (`calculate_fill_factors.py`).
  - Circle area, sphere volume and the square-lattice fill fraction are
    modelled over `real`.
  - π is a symbolic constant known only to lie in (3.14159, 3.1416).
  - The "greater than close packed" console message is a boolean flag in the
    result.
- **Energy conversion** (`convert_to_energy.py:13-22`): a frequency in units
  of c/a becomes hertz, a wavelength, joules and electronvolts, in exact real
  arithmetic.

Python exceptions become `Result` values (`Outcome.Fault`).
`range(n)` with a negative `n` is empty, as in Python (`Outcome.RangeLength`).

Behaviour of the code worth knowing, which the model keeps as written:

- No input is rejected up front. Negative row or column counts give empty
  loops, and negative radii and lattice constants are computed with. The only
  failures are the Python errors named above and division by zero.
- `square` with 3 rows and 3 columns from the origin returns 11 entries. It
  repeats the starting point and ends with the closing site `(2, -1)` outside
  the grid (`Lattices.SquareThreeByThree`).
- The lists have `1 + cols * (rows + 1)` entries for `triangular` and
  `rows * cols + 2` for `square`.

## Model

| member | source | states |
|---|---|---|
| Lattices.Triangular | lattices.py:15-34 | For any row and column counts (negative ones count as 0), the list has 1 + cols·(rows+1) entries and starts with the starting point. Grid site (c, r) is at index 1 + c·(rows+1) + r, in closed form start + (c − ⌈r/2⌉)·v0 + r·v1. The closing site of column c is at index (c+1)·(rows+1) and equals entry c + c·v0 − c·v1. |
| Lattices.TriangularColumn | lattices.py:21-32 | One pass of the column loop turns a layout of c columns into a layout of c+1 columns. The read-back of entry `row` (row − 1 of column 0) plus v1 or v2 plus c·v0 lands on the closed form. |
| Lattices.TriangularWithoutColumns | lattices.py:15-20 | With no columns, the result is exactly [starting point]. |
| Lattices.TriangularFirstClosingRepeatsStart | lattices.py:31-32 | The closing site of column 0 duplicates the starting point. |
| Lattices.TriangularClosingBelowFirstRow | lattices.py:31-32 | For 1 ≤ c ≤ rows, the closing site of column c lies one row below row 0, at c − ⌊c/2⌋ steps along v0. |
| Lattices.TriangularNeighbours | lattices.py:16-28 | Grid neighbours differ by exactly one lattice vector: v0 to the next column, v1 up to an even row, v2 up to an odd row. |
| Lattices.TriangularEntryDetermined | lattices.py:20-32 | Every entry, grid or closing, is forced by the inputs. Proved by induction through the read-back of closing sites. |
| Lattices.TriangularLayoutUnique | lattices.py:15-34 | Two lists of the triangular layout for the same inputs are equal, so the result is deterministic. |
| Lattices.Square | lattices.py:37-53 | Fails with an unbound `col` exactly when there are no columns. Fails with an index past the end exactly when there are ≥ 2 columns and no rows. Succeeds exactly when cols ≥ 1 and (rows ≥ 1 or cols = 1), and then the list has rows·cols + 2 entries: the starting point, grid site (c, r) = start + c·v0 + r·v1 at index 1 + c·rows + r, then one closing site = entry cols−1 + (cols−1)·(v0 − v1). |
| Lattices.SquareColumn | lattices.py:43-48 | One pass of the column loop appends column c at its closed-form positions. The read-back entry `row` is row − 1 of column 0. |
| Lattices.SquareSecondEntryRepeatsStart | lattices.py:44-45 | Index 1 duplicates the starting point. |
| Lattices.SquareGridSitesDistinct | lattices.py:42-48 | Distinct grid cells (c, r) occupy distinct indices and hold distinct sites. |
| Lattices.SquareClosingBelowLastColumn | lattices.py:50-51 | When 2 ≤ cols ≤ rows + 1, the single closing site lies one row below row 0, in the last column. |
| Lattices.SquareEntryDetermined | lattices.py:42-48 | Every grid entry is forced by the inputs. |
| Lattices.SquareLayoutUnique | lattices.py:37-53 | Two lists of the square layout for the same inputs are equal. |
| Lattices.SquareThreeByThree | lattices.py:37-53 | 3 rows and 3 columns from the origin give 11 entries, the origin twice, and the closing site (2, −1) outside the grid. |
| LatticeGeometry.TranslateTriangular | lattices.py:16-18 | In the plane, adding coefficients d moves a triangular point by d.p·(a, 0) + d.q·(a/2, √3·a/2). |
| LatticeGeometry.TriangularStepLength | lattices.py:16-18 | Each of v0, v1, v2 has squared length a², so v2 = v1 − v0 closes an equilateral triangle. |
| LatticeGeometry.TriangularRowOffset | lattices.py:20-29 | Grid site (c, r) lies c·a right of the starting point, shifted by −a/2 on odd rows, and r·√3·a/2 above it. |
| LatticeGeometry.TriangularNeighbourDistance | lattices.py:16-28 | Triangular grid neighbours are exactly one lattice constant apart. |
| LatticeGeometry.SquareNeighbourDistance | lattices.py:39-47 | Square grid neighbours are exactly one lattice constant apart. |
| FiniteCylinders.Truncate | finite_dimension_cylinders.py:28 | `int()` of a float truncates toward zero: the result is the integer between 0 and x that is less than one away from x. |
| FiniteCylinders.StartingCorner | finite_dimension_cylinders.py:25 | The starting corner lies on the diagonal, one cylinder radius in from the lower-left corner (−w/2, −w/2) of the block centred at the origin. With the script's constants it is (−7, −7) (`FiniteCylinders.ScriptGridSize`). |
| FiniteCylinders.CylinderCentres | finite_dimension_cylinders.py:25-35 | A zero lattice constant divides by zero, and nothing else fails. Otherwise, with n = int(width / a) (0 if negative), the list has 1 + n² entries: the starting corner (−w/2 + radius, −w/2 + radius), then entry 1 + i·n + j = (corner.x + j·a, corner.y + i·a), row-major with x fastest. |
| FiniteCylinders.GridRow | finite_dimension_cylinders.py:30-35 | One pass of the outer loop appends row i at height corner.y + i·a, with x running from the corner in steps of a. |
| FiniteCylinders.ScriptGridSize | finite_dimension_cylinders.py:16-28 | With the script's constants, n = 15 and the starting corner is (−7, −7). |
| FiniteCylinders.CornerRepeated | finite_dimension_cylinders.py:26-33 | When n ≥ 1, the starting corner appears at index 0 and again at index 1. |
| FiniteCylinders.GridWithinSquare | finite_dimension_cylinders.py:29-35 | For n ≥ 1 and a ≥ 0, every point lies in [corner.x, corner.x + (n−1)·a] × [corner.y, corner.y + (n−1)·a]. |
| FiniteCylinders.ScriptCylindersInsideBlock | finite_dimension_cylinders.py:16-35 | With the script's constants, every radius-0.5 cylinder lies inside the 15-wide block centred at the origin. |
| FillFactors.AreaCircle | calculate_fill_factors.py:9-15 | `area_circle` is π·r². It is never negative, and it is zero exactly when r = 0. Growth is stated by `FillFactors.AreaCircleMonotone`. |
| FillFactors.AreaCircleMonotone | calculate_fill_factors.py:15 | The circle area does not decrease as a non-negative radius grows. |
| FillFactors.VolumeSphere | calculate_fill_factors.py:18-24 | `volume_sphere` is (4/3)·π·r³, with the sign of r: zero at 0, positive for r > 0, negative for r < 0. Growth is stated by `FillFactors.VolumeSphereIncreasing`. |
| FillFactors.VolumeSphereIncreasing | calculate_fill_factors.py:24 | The sphere volume strictly increases with a non-negative radius. |
| FillFactors.SquareCircs | calculate_fill_factors.py:28-45 | The fraction times a² is the circle area, so it is area over a². The flag is exactly r > a/2, and the value is returned in both branches. The only failure is division by zero. |
| FillFactors.SquareCircsFailsOnlyWithoutCell | calculate_fill_factors.py:41-44 | It fails exactly when a = 0. |
| FillFactors.QuarterPiAtClosePacking | calculate_fill_factors.py:37-45 | At r = a/2 (a ≠ 0) the fraction is exactly π/4, with no warning. |
| FillFactors.MainCheck | calculate_fill_factors.py:48-49 | The script's own `square_circs(0.5, 1)` is π/4. |
| FillFactors.OverPackedIsFlaggedNotRefused | calculate_fill_factors.py:37-45 | r = 0.6, a = 1 is flagged and still returns 0.36·π, which exceeds π/4. |
| FillFactors.EmptyCellFraction | calculate_fill_factors.py:41-45 | A zero radius in a non-empty cell gives fraction 0 and no warning. |
| FillFactors.FractionWithinClosePacking | calculate_fill_factors.py:34-45 | For a > 0 and 0 ≤ r ≤ a/2, the fraction lies in [0, π/4], below a complete fill of 1, and is not flagged. |
| FillFactors.FractionMonotone | calculate_fill_factors.py:41-45 | For a fixed a ≠ 0, the fraction does not decrease as r ≥ 0 grows. |
| FillFactors.FractionScaleInvariant | calculate_fill_factors.py:41-45 | Scaling r and a by the same non-zero factor leaves the fraction unchanged. |
| EnergyConversion.Convert | convert_to_energy.py:13-22 | Division by zero happens exactly when a = 0 or f = 0. Otherwise: hertz·(a·10⁻⁶) = f·c; wavelength·hertz = c; wavelength·f = a·10⁻⁶, so c cancels; joules / hertz = h; eV·e = joules. |
| EnergyConversion.ConversionPositive | convert_to_energy.py:6-22 | For a > 0 and f > 0, the frequency, wavelength and both energies are strictly positive. |
| EnergyConversion.ConversionLinear | convert_to_energy.py:13-22 | Scaling f by k ≠ 0 scales hertz, joules and eV by k and divides the wavelength by k. |
| EnergyConversion.OneMicronExample | convert_to_energy.py:6-22 | 1 c/a at a = 1 µm is 3·10¹⁴ Hz, 1 µm, 1.9878·10⁻¹⁹ J and 1.242375 eV. |

## Left out

- Input and output are not modelled: `input()`, `print` and the scientific-notation formatting in `convert_to_energy.py`. The lattice constant and the frequency are parameters.
- The `print` in `square_circs` is modelled only as the `exceedsClosePacking` flag.
- Calls into the external solver, the geometry objects built from the points (`finite_dimension_cylinders.py:37-78`), `do_calculations` and all plotting are outside the modelled core.
- `fcc_lattice.py` is configuration only and is not part of this model.
- Floating-point rounding and accumulated drift are not modelled. Lattice sites use exact integer coefficients; other quantities use exact `real`. `mp.Vector3` is taken as ordinary vector arithmetic.
- π and √3 are symbolic. Only π's bounds and `sqrt3 * sqrt3 == 3` are used.
- The `lattice_constant` argument of `triangular` and `square` only scales the basis. It appears in `LatticeGeometry` as `a`, not in the generators.
- Python's dynamic typing is not modelled: counts are integers, and lengths and radii are reals.
