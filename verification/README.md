# Sub-cube RMS aggregation of `SimonteSigmaRhoSigmaV`

`SimonteSigmaRhoSigmaV.__computeRmsInCubes` takes a cubic 3-D field and a
number `N` of cubes per side. It proceeds in five steps:

1. It crops the field to the largest centred region that `N x N x N` equal
   cubes tile. The cube edge is `cubeDim = n // N`, the region's edge is
   `n' = cubeDim * N`, and the window `start_idx : end_idx` is the same on
   every axis.
2. It walks the cubes `(i, j, k)` with `i` outermost and `k` innermost.
3. For each cube it appends either `sqrt(mean(value**2))` or, for a cube with
   no elements, the NaN sentinel.
4. Every value carries the field's unit.
5. It gathers the list into one quantity array.

The model has five modules:

- `Arithmetic` (`arithmetic.dfy`): integer facts the index arithmetic needs.
- `Grid` (`grid.dfy`): 3-D arrays as nested sequences. It has Python slices
  (`Span`), basic slicing `g[s0, s1, s2]` (`Slice3`), C-order ravel
  (`Flatten`), and the sum and mean of squares.
- `Quantities` (`quantities.dfy`): a unit tag, scalar and array quantities,
  and the per-cube entry `Rms = NaN | SqrtOf(meanSquare)`. The square root is
  kept symbolic. `Denotes(v, x)` says that `x` is the non-negative number
  whose square is `v.meanSquare`.
- `CubeOrder` (`cube_order.dfy`): the row-major walk. It is a bijection
  between cube triples and positions `i*N*N + j*N + k`.
- `SimonteSigmaRhoSigmaV` (`rms_in_cubes.dfy`): the crop arithmetic, the
  per-cube value, and the specification `RmsInCubes`. It also holds the
  method `ComputeRmsInCubes`, whose triple loop builds `rms_values` step by
  step and is proved equal to `RmsInCubes`. The properties of the result are
  proved as lemmas: count, order, tiling, the NaN case, the non-empty case
  and constant fields.

## Model

All source paths are relative to the repository root.

| member | source | states |
|---|---|---|
| SimonteSigmaRhoSigmaV.ComputeRmsInCubes | features/calculate_data/calculate_data1d/methods/simonte_sigma_rho_sigma_v/simonte_sigma_rho_sigma_v.py:79-111 | The crop, the triple loop over `i`, `j`, `k` and the final gathering return exactly `RmsInCubes(q, N)`; the loop keeps the appended list a prefix of the specified entries, of length `i*N*N + j*N + k` |
| SimonteSigmaRhoSigmaV.CropToCubes | features/calculate_data/calculate_data1d/methods/simonte_sigma_rho_sigma_v/simonte_sigma_rho_sigma_v.py:80-89 | Computing `cubeDim`, `n_prime`, `start_idx`, `end_idx` and slicing the field gives the centred crop `Crop(q, N)` |
| SimonteSigmaRhoSigmaV.RmsInCubes | features/calculate_data/calculate_data1d/methods/simonte_sigma_rho_sigma_v/simonte_sigma_rho_sigma_v.py:79-111 | The result has exactly `N³` values and carries the input field's unit |
| SimonteSigmaRhoSigmaV.RmsEntries | features/calculate_data/calculate_data1d/methods/simonte_sigma_rho_sigma_v/simonte_sigma_rho_sigma_v.py:92-107 | The list of per-cube values has `N³` entries, all in the input's unit |
| SimonteSigmaRhoSigmaV.CubeDim | features/calculate_data/calculate_data1d/methods/simonte_sigma_rho_sigma_v/simonte_sigma_rho_sigma_v.py:81 | `cubeDim * N <= n < (cubeDim + 1) * N`: the largest edge with `N` cubes fitting in `n` |
| SimonteSigmaRhoSigmaV.CroppedEdge | features/calculate_data/calculate_data1d/methods/simonte_sigma_rho_sigma_v/simonte_sigma_rho_sigma_v.py:82 | `n' <= n` and `n - n' < N` |
| SimonteSigmaRhoSigmaV.CroppedEdgeIsLargestMultiple | features/calculate_data/calculate_data1d/methods/simonte_sigma_rho_sigma_v/simonte_sigma_rho_sigma_v.py:81-82 | Every multiple of `N` that fits in `n` is at most `n'` |
| SimonteSigmaRhoSigmaV.CropStart | features/calculate_data/calculate_data1d/methods/simonte_sigma_rho_sigma_v/simonte_sigma_rho_sigma_v.py:85 | `start + n' <= n` and the leading trim is half of `n - n'`, rounded down |
| SimonteSigmaRhoSigmaV.CropEnd | features/calculate_data/calculate_data1d/methods/simonte_sigma_rho_sigma_v/simonte_sigma_rho_sigma_v.py:86 | `start <= end <= n`, `end - start == n'`, and the trailing trim equals the leading trim or exceeds it by one |
| SimonteSigmaRhoSigmaV.CropSpan | features/calculate_data/calculate_data1d/methods/simonte_sigma_rho_sigma_v/simonte_sigma_rho_sigma_v.py:85-89 | The crop window is a valid slice inside `0..n` of length `n'` |
| SimonteSigmaRhoSigmaV.CropFits | features/calculate_data/calculate_data1d/methods/simonte_sigma_rho_sigma_v/simonte_sigma_rho_sigma_v.py:89 | The crop window lies inside the field on all three axes, so numpy clips nothing |
| SimonteSigmaRhoSigmaV.Crop | features/calculate_data/calculate_data1d/methods/simonte_sigma_rho_sigma_v/simonte_sigma_rho_sigma_v.py:89 | The cropped array is a cube of edge `n'` in the input's unit |
| SimonteSigmaRhoSigmaV.CubeSpan | features/calculate_data/calculate_data1d/methods/simonte_sigma_rho_sigma_v/simonte_sigma_rho_sigma_v.py:98-100 | Span `i*cubeDim : (i+1)*cubeDim` has length `cubeDim` and ends inside the crop |
| SimonteSigmaRhoSigmaV.CubeFits | features/calculate_data/calculate_data1d/methods/simonte_sigma_rho_sigma_v/simonte_sigma_rho_sigma_v.py:98-100 | Every cube's slices lie inside the cropped array |
| SimonteSigmaRhoSigmaV.SubCube | features/calculate_data/calculate_data1d/methods/simonte_sigma_rho_sigma_v/simonte_sigma_rho_sigma_v.py:98-100 | Every cube has shape `(cubeDim, cubeDim, cubeDim)` and the input's unit |
| SimonteSigmaRhoSigmaV.CubeRms | features/calculate_data/calculate_data1d/methods/simonte_sigma_rho_sigma_v/simonte_sigma_rho_sigma_v.py:101-106 | The value is NaN exactly when the cube has no elements; otherwise its mean square is the mean of the squared elements; the unit is the cube's |
| SimonteSigmaRhoSigmaV.EntryOfCube | features/calculate_data/calculate_data1d/methods/simonte_sigma_rho_sigma_v/simonte_sigma_rho_sigma_v.py:95-107 | Entry `i*N*N + j*N + k` of the list is cube `(i, j, k)`'s value |
| SimonteSigmaRhoSigmaV.AppendNextEntry | features/calculate_data/calculate_data1d/methods/simonte_sigma_rho_sigma_v/simonte_sigma_rho_sigma_v.py:107 | Appending the next cube's value to the values so far keeps the list a prefix of the result |
| SimonteSigmaRhoSigmaV.RmsInCubesOrder | features/calculate_data/calculate_data1d/methods/simonte_sigma_rho_sigma_v/simonte_sigma_rho_sigma_v.py:95-110 | Ordering: the value at position `i*N*N + j*N + k` of the returned array is cube `(i, j, k)`'s RMS |
| SimonteSigmaRhoSigmaV.FieldSpan | features/calculate_data/calculate_data1d/methods/simonte_sigma_rho_sigma_v/simonte_sigma_rho_sigma_v.py:85-100 | Cube `i`'s slice of the original axis starts at `start_idx + i*cubeDim`, has length `cubeDim`, and stays inside the crop window |
| SimonteSigmaRhoSigmaV.SubCubeInField | features/calculate_data/calculate_data1d/methods/simonte_sigma_rho_sigma_v/simonte_sigma_rho_sigma_v.py:89-100 | Slicing the cropped array equals one slice of the original field at the shifted offsets |
| SimonteSigmaRhoSigmaV.SubCubeSize | features/calculate_data/calculate_data1d/methods/simonte_sigma_rho_sigma_v/simonte_sigma_rho_sigma_v.py:98-102 | Every cube has `cube.size == cubeDim³` |
| SimonteSigmaRhoSigmaV.CubeSpansTileAxis | features/calculate_data/calculate_data1d/methods/simonte_sigma_rho_sigma_v/simonte_sigma_rho_sigma_v.py:98-100 | On one axis of the crop, offset `x` lies in span `x / cubeDim`, at `x % cubeDim`, and in no other span |
| SimonteSigmaRhoSigmaV.CubeOfOffset | features/calculate_data/calculate_data1d/methods/simonte_sigma_rho_sigma_v/simonte_sigma_rho_sigma_v.py:98-100 | The index of the span holding offset `x` is below `N` and that span contains `x` |
| SimonteSigmaRhoSigmaV.OffsetInCube | features/calculate_data/calculate_data1d/methods/simonte_sigma_rho_sigma_v/simonte_sigma_rho_sigma_v.py:98-100 | The offset of `x` inside its span is below `cubeDim` and lands back on `x` |
| SimonteSigmaRhoSigmaV.SubCubesDisjoint | features/calculate_data/calculate_data1d/methods/simonte_sigma_rho_sigma_v/simonte_sigma_rho_sigma_v.py:95-100 | Cubes are disjoint: a cell of the crop lies only in cube `(x / d, y / d, z / d)` |
| SimonteSigmaRhoSigmaV.SubCubesCoverCrop | features/calculate_data/calculate_data1d/methods/simonte_sigma_rho_sigma_v/simonte_sigma_rho_sigma_v.py:89-100 | Cubes cover the crop: every cell of the crop is a cell of the cube that holds it, at offsets `(x % d, y % d, z % d)` |
| SimonteSigmaRhoSigmaV.CubeDimZeroExactlyWhenTooMany | features/calculate_data/calculate_data1d/methods/simonte_sigma_rho_sigma_v/simonte_sigma_rho_sigma_v.py:81 | `cubeDim == 0` if and only if `N > n` |
| SimonteSigmaRhoSigmaV.EmptyCubesExactlyWhenTooMany | features/calculate_data/calculate_data1d/methods/simonte_sigma_rho_sigma_v/simonte_sigma_rho_sigma_v.py:81-103 | A returned value is NaN if and only if `N > n` |
| SimonteSigmaRhoSigmaV.TooManyCubesAllNaN | features/calculate_data/calculate_data1d/methods/simonte_sigma_rho_sigma_v/simonte_sigma_rho_sigma_v.py:102-110 | When `N > n`, every value is NaN and the array carries the input's unit |
| SimonteSigmaRhoSigmaV.SubCubeNonEmpty | features/calculate_data/calculate_data1d/methods/simonte_sigma_rho_sigma_v/simonte_sigma_rho_sigma_v.py:81-102 | When `N <= n`, no cube is empty |
| SimonteSigmaRhoSigmaV.NonEmptyCubeRms | features/calculate_data/calculate_data1d/methods/simonte_sigma_rho_sigma_v/simonte_sigma_rho_sigma_v.py:104-106 | When `N <= n`, cube `(i, j, k)`'s value is the square root of the mean of its squared elements. That mean is non-negative and equals their sum divided by their count (by `Grid.MeanOfSquares`) |
| SimonteSigmaRhoSigmaV.MeanSquareOfNonEmptyCube | features/calculate_data/calculate_data1d/methods/simonte_sigma_rho_sigma_v/simonte_sigma_rho_sigma_v.py:104-106 | A cube with elements gets `sqrt(mean(value**2))` |
| SimonteSigmaRhoSigmaV.CubeRmsOfConstant | features/calculate_data/calculate_data1d/methods/simonte_sigma_rho_sigma_v/simonte_sigma_rho_sigma_v.py:106 | A non-empty cube of `c`s has mean square `c * c` |
| SimonteSigmaRhoSigmaV.ConstantCube | features/calculate_data/calculate_data1d/methods/simonte_sigma_rho_sigma_v/simonte_sigma_rho_sigma_v.py:98-106 | In a field of `c`s, every cube's value is `sqrt(c * c)` when `N <= n` |
| SimonteSigmaRhoSigmaV.ConstantFieldRms | features/calculate_data/calculate_data1d/methods/simonte_sigma_rho_sigma_v/simonte_sigma_rho_sigma_v.py:95-110 | For a field of `c`s in unit U and `N <= n`, every returned value stands for `abs(c)` and the array is in U |
| SimonteSigmaRhoSigmaV.CropOfTenIntoThree | features/calculate_data/calculate_data1d/methods/simonte_sigma_rho_sigma_v/simonte_sigma_rho_sigma_v.py:80-86 | `n = 10`, `N = 3` gives `cubeDim = 3`, `n' = 9`, `start_idx = 0`, `end_idx = 9` |
| CubeOrder.Position | features/calculate_data/calculate_data1d/methods/simonte_sigma_rho_sigma_v/simonte_sigma_rho_sigma_v.py:95-97 | Cube `(i, j, k)` is appended at position `i*N*N + j*N + k`, which is below `N³` |
| CubeOrder.Cube | features/calculate_data/calculate_data1d/methods/simonte_sigma_rho_sigma_v/simonte_sigma_rho_sigma_v.py:95-97 | Each position below `N³` names a cube with indices below `N` whose position it is |
| CubeOrder.CubeOfPosition | features/calculate_data/calculate_data1d/methods/simonte_sigma_rho_sigma_v/simonte_sigma_rho_sigma_v.py:95-97 | Round trip: the cube at cube `(i, j, k)`'s position is `(i, j, k)` |
| CubeOrder.PositionOfCube | features/calculate_data/calculate_data1d/methods/simonte_sigma_rho_sigma_v/simonte_sigma_rho_sigma_v.py:95-97 | Round trip: the position of the cube at position `p` is `p` |
| CubeOrder.PositionIsLexicographic | features/calculate_data/calculate_data1d/methods/simonte_sigma_rho_sigma_v/simonte_sigma_rho_sigma_v.py:95-97 | One cube comes before another exactly when its `(i, j, k)` is lexicographically smaller: `i` varies slowest, `k` fastest |
| Grid.Span.Within | features/calculate_data/calculate_data1d/methods/simonte_sigma_rho_sigma_v/simonte_sigma_rho_sigma_v.py:89-100 | Slicing a slice selects a shifted span of the same length, inside the outer one |
| Grid.Slice3 | features/calculate_data/calculate_data1d/methods/simonte_sigma_rho_sigma_v/simonte_sigma_rho_sigma_v.py:89 | `g[s0, s1, s2]` has the spans' lengths as its shape, and element `(x, y, z)` is `g[s0.start+x][s1.start+y][s2.start+z]` |
| Grid.SliceOfSlice | features/calculate_data/calculate_data1d/methods/simonte_sigma_rho_sigma_v/simonte_sigma_rho_sigma_v.py:89-100 | Slicing a slice is one slice of the original, with shifted spans |
| Grid.BlockSize | features/calculate_data/calculate_data1d/methods/simonte_sigma_rho_sigma_v/simonte_sigma_rho_sigma_v.py:102 | An array of shape `(a, b, c)` has `size == a * b * c` |
| Grid.SumSquares | features/calculate_data/calculate_data1d/methods/simonte_sigma_rho_sigma_v/simonte_sigma_rho_sigma_v.py:106 | The sum of squares is non-negative |
| Grid.MeanOfSquares | features/calculate_data/calculate_data1d/methods/simonte_sigma_rho_sigma_v/simonte_sigma_rho_sigma_v.py:106 | `mean(v**2)` is non-negative and, times the count, gives the sum of squares |
| Grid.SumSquaresConstant | features/calculate_data/calculate_data1d/methods/simonte_sigma_rho_sigma_v/simonte_sigma_rho_sigma_v.py:106 | The squares of `m` copies of `c` sum to `m * c * c` |
| Grid.MeanOfSquaresConstant | features/calculate_data/calculate_data1d/methods/simonte_sigma_rho_sigma_v/simonte_sigma_rho_sigma_v.py:106 | `mean(v**2)` of a non-empty run of `c`s is `c * c` |
| Grid.FlattenConstant | features/calculate_data/calculate_data1d/methods/simonte_sigma_rho_sigma_v/simonte_sigma_rho_sigma_v.py:106 | A block whose every element is `c` ravels to a run of `c`s |
| Quantities.SqrtOfSquare | features/calculate_data/calculate_data1d/methods/simonte_sigma_rho_sigma_v/simonte_sigma_rho_sigma_v.py:106 | `sqrt(c * c)` stands for `abs(c)` |
| Quantities.DenotesUnique | features/calculate_data/calculate_data1d/methods/simonte_sigma_rho_sigma_v/simonte_sigma_rho_sigma_v.py:106 | A square-root entry stands for exactly one non-negative real |
| Quantities.ToQuantityArray | features/calculate_data/calculate_data1d/methods/simonte_sigma_rho_sigma_v/simonte_sigma_rho_sigma_v.py:110 | `u.Quantity(list)` of same-unit scalars keeps the count and each element's value, in the shared unit |

## Left out

- `setInputs`, `getResult`, `__getDeltaRho`, `__getDeltaV` and `__loadDataCube` (lines 19-76) are left out. They load data, call the velocity filter and divide fields (lines 36-37). None of that is part of the aggregation.
- The velocity filtering engine (`comp_sole_filter3d.py`) and the time-series driver (`turbulence_heating_time_series_data.py`) are not part of this model. They are numerical and I/O code around an external solver.
- Floating point is modelled by exact reals. NaN is a separate constructor, not an IEEE value. The square root is kept symbolic as `SqrtOf(meanSquare)`, because Dafny has no real square root. `Denotes` says which number such an entry stands for.
- Units are opaque tags that are only compared. Unit algebra, and unit conversion inside `u.Quantity` for lists with mixed units, are not modelled.
- Quantities.ToQuantityArray: requires that all entries share one unit. Every list the aggregator builds does.
- SimonteSigmaRhoSigmaV.ComputeRmsInCubes: requires `numberOfCubePerSide >= 1`. For `0`, Python raises `ZeroDivisionError` at line 81. Negative values are not a meaningful input.
- SimonteSigmaRhoSigmaV.ComputeRmsInCubes: requires a cubic field. The source reads only `shape[0]` and applies that window to all three axes.
- Grid.Slice3: requires spans inside the array. Numpy clips out-of-range slices, but `CropFits` and `CubeFits` prove that clipping never happens here.
- Idempotence and determinism follow from the result being a function of the inputs. They are not stated separately.
