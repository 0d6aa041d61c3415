/** The sub-cube RMS aggregator of `SimonteSigmaRhoSigmaV`: crop a cubic
    field to the largest centred region that N x N x N equal cubes tile,
    then list one RMS value per cube in row-major order. */
module SimonteSigmaRhoSigmaV {
  import opened Grid
  import opened Quantities
  import opened CubeOrder
  import opened Arithmetic

  // ---------------------------------------------------------------------------
  // Crop arithmetic
  // ---------------------------------------------------------------------------

  /** `cubeDim = n // N`: the largest edge such that N cubes fit in `n`. */
  function CubeDim(n: nat, N: nat): (d: nat)
    requires N >= 1
    ensures d * N <= n < (d + 1) * N
  {
    MulSucc(n / N, N);
    n / N
  }

  /** `n_prime = cubeDim * N`: within `N - 1` of the field's edge. */
  function CroppedEdge(n: nat, N: nat): (e: nat)
    requires N >= 1
    ensures e <= n && n - e < N
  {
    var d := CubeDim(n, N);
    MulSucc(d, N);
    d * N
  }

  /** No multiple of N that fits in `n` exceeds the cropped edge. */
  lemma CroppedEdgeIsLargestMultiple(n: nat, N: nat, m: nat)
    requires N >= 1 && m * N <= n
    ensures m * N <= CroppedEdge(n, N)
  {
    var d := CubeDim(n, N);
    if d < m {
      MulMonotone(d + 1, m, N);
    } else {
      MulMonotone(m, d, N);
    }
  }

  /** `start_idx = (n - n_prime) // 2`: the cells trimmed before the window. */
  function CropStart(n: nat, N: nat): (s: nat)
    requires N >= 1
    ensures s + CroppedEdge(n, N) <= n
    ensures 2 * s <= n - CroppedEdge(n, N) <= 2 * s + 1
  {
    (n - CroppedEdge(n, N)) / 2
  }

  /** `end_idx = start_idx + n_prime`: the window ends inside the field, and
      the cells trimmed after it are as many as before it, or one more. */
  function CropEnd(n: nat, N: nat): (t: nat)
    requires N >= 1
    ensures CropStart(n, N) <= t <= n
    ensures t - CropStart(n, N) == CroppedEdge(n, N)
    ensures CropStart(n, N) <= n - t <= CropStart(n, N) + 1
  {
    CropStart(n, N) + CroppedEdge(n, N)
  }

  /** The crop window `start_idx:end_idx`, applied to every axis. */
  function CropSpan(n: nat, N: nat): (w: Span)
    requires N >= 1
    ensures w.Valid() && w.stop <= n && w.Len() == CroppedEdge(n, N)
  {
    Span(CropStart(n, N), CropEnd(n, N))
  }

  /** Cube `i`'s slice of the cropped axis, `i*cubeDim : (i+1)*cubeDim`. */
  function CubeSpan(n: nat, N: nat, i: nat): (w: Span)
    requires N >= 1 && i < N
    ensures w.Valid() && w.Len() == CubeDim(n, N) && w.stop <= CroppedEdge(n, N)
  {
    var d := CubeDim(n, N);
    MulMonotone(i + 1, N, d);
    MulSucc(i, d);
    Span(i * d, (i + 1) * d)
  }

  /** `quantity3d[start_idx:end_idx, start_idx:end_idx, start_idx:end_idx]`. */
  function Crop(q: Quantity3d, N: nat): (c: Quantity3d)
    requires IsCube(q.value) && N >= 1
    ensures IsCube(c.value) && |c.value| == CroppedEdge(|q.value|, N) && c.unit == q.unit
  {
    var w := CropSpan(|q.value|, N);
    Quantity3d(Slice3(q.value, w, w, w), q.unit)
  }

  /** The crop window lies inside the field on every axis. */
  lemma CropFits(q: Quantity3d, N: nat)
    requires IsCube(q.value) && N >= 1
    ensures var w := CropSpan(|q.value|, N); Fits(q.value, w, w, w)
  {
  }

  /** Each cube's slices lie inside the cropped field. */
  lemma CubeFits(q: Quantity3d, N: nat, i: nat, j: nat, k: nat)
    requires IsCube(q.value) && N >= 1 && i < N && j < N && k < N
    ensures var n := |q.value|; Fits(Crop(q, N).value, CubeSpan(n, N, i), CubeSpan(n, N, j), CubeSpan(n, N, k))
  {
  }

  /** Sub-cube `(i, j, k)` of the cropped field. */
  function SubCube(q: Quantity3d, N: nat, i: nat, j: nat, k: nat): (c: Quantity3d)
    requires IsCube(q.value) && N >= 1 && i < N && j < N && k < N
    ensures var d := CubeDim(|q.value|, N); IsBlock(c.value, d, d, d)
    ensures c.unit == q.unit
  {
    var n := |q.value|;
    var cropped := Crop(q, N);
    Quantity3d(Slice3(cropped.value, CubeSpan(n, N, i), CubeSpan(n, N, j), CubeSpan(n, N, k)), cropped.unit)
  }

  // ---------------------------------------------------------------------------
  // Per-cube value and the whole result
  // ---------------------------------------------------------------------------

  /** The value kept for one cube: the NaN sentinel when it has no elements,
      otherwise the square root of the mean of its squared elements; either
      way in the cube's unit. */
  function CubeRms(cube: Quantity3d): (r: Quantity)
    ensures r.unit == cube.unit
    ensures r.value.NaN? <==> |Flatten(cube.value)| == 0
    ensures r.value.SqrtOf? ==> r.value.meanSquare == MeanOfSquares(Flatten(cube.value))
  {
    var elements := Flatten(cube.value);
    if |elements| == 0 then Quantity(NaN, cube.unit)
    else Quantity(SqrtOf(MeanOfSquares(elements)), cube.unit)
  }

  /** The list of per-cube values, cube `(i, j, k)` at position
      `i*N*N + j*N + k`. */
  function RmsEntries(q: Quantity3d, N: nat): (r: seq<Quantity>)
    requires IsCube(q.value) && N >= 1
    ensures |r| == N * N * N && AllIn(r, q.unit)
  {
    seq(N * N * N, p requires 0 <= p < N * N * N =>
      var c := Cube(p, N);
      CubeRms(SubCube(q, N, c.0, c.1, c.2)))
  }

  /** What the aggregator returns: one value per cube, all in the field's unit. */
  function RmsInCubes(q: Quantity3d, N: nat): (r: QuantityArray)
    requires IsCube(q.value) && N >= 1
    ensures |r.values| == N * N * N && r.unit == q.unit
  {
    MulMonotone(1, N, 1);
    MulMonotone(1, N * N, N);
    ToQuantityArray(RmsEntries(q, N))
  }

  /** The first half of `__computeRmsInCubes`: `cubeDim = n // N`,
      `n' = cubeDim * N`, and the centred window `start_idx:end_idx` of
      length `n'` cut out of every axis. */
  method CropToCubes(quantity3d: Quantity3d, numberOfCubePerSide: nat) returns (croppedArray: Quantity3d)
    requires IsCube(quantity3d.value) && numberOfCubePerSide >= 1
    ensures croppedArray == Crop(quantity3d, numberOfCubePerSide)
  {
    var N := numberOfCubePerSide;
    var n := |quantity3d.value|;
    var cubeDim := n / N;
    var nPrime := cubeDim * N;
    assert nPrime == CroppedEdge(n, N);

    var startIdx := (n - nPrime) / 2;
    var endIdx := startIdx + nPrime;
    var window := Span(startIdx, endIdx);
    assert window == CropSpan(n, N);
    CropFits(quantity3d, N);

    croppedArray := Quantity3d(Slice3(quantity3d.value, window, window, window), quantity3d.unit);
  }

  /** `__computeRmsInCubes`: crop, walk the cubes with `i` outermost and `k`
      innermost, append one value per cube, and gather the list into one
      quantity array. */
  method ComputeRmsInCubes(quantity3d: Quantity3d, numberOfCubePerSide: nat) returns (rmsArray: QuantityArray)
    requires IsCube(quantity3d.value) && numberOfCubePerSide >= 1
    ensures rmsArray == RmsInCubes(quantity3d, numberOfCubePerSide)
  {
    var N := numberOfCubePerSide;
    var n := |quantity3d.value|;
    var croppedArray := CropToCubes(quantity3d, N);

    var rmsValues: seq<Quantity> := [];
    ghost var entries := RmsEntries(quantity3d, N);
    for i := 0 to N
      invariant |rmsValues| == i * N * N && rmsValues <= entries
    {
      for j := 0 to N
        invariant |rmsValues| == i * N * N + j * N && rmsValues <= entries
      {
        for k := 0 to N
          invariant |rmsValues| == i * N * N + j * N + k && rmsValues <= entries
        {
          CubeFits(quantity3d, N, i, j, k);
          // croppedArray[i*cubeDim:(i+1)*cubeDim, j*cubeDim:(j+1)*cubeDim, k*cubeDim:(k+1)*cubeDim]
          var cube := Quantity3d(Slice3(croppedArray.value, CubeSpan(n, N, i), CubeSpan(n, N, j), CubeSpan(n, N, k)), croppedArray.unit);
          assert cube == SubCube(quantity3d, N, i, j, k);
          var rmsValue;
          if |Flatten(cube.value)| == 0 {
            rmsValue := Quantity(NaN, quantity3d.unit);
          } else {
            rmsValue := Quantity(SqrtOf(MeanOfSquares(Flatten(cube.value))), cube.unit);
          }
          AppendNextEntry(quantity3d, N, i, j, k, rmsValues, rmsValue);
          rmsValues := rmsValues + [rmsValue];
        }
        MulSucc(j, N);
      }
      NextLayer(i, N);
    }
    rmsArray := ToQuantityArray(rmsValues);
  }

  /** Position `i*N*N + j*N + k` of the list holds cube `(i, j, k)`'s value. */
  lemma EntryOfCube(q: Quantity3d, N: nat, i: nat, j: nat, k: nat)
    requires IsCube(q.value) && N >= 1 && i < N && j < N && k < N
    ensures RmsEntries(q, N)[Position(i, j, k, N)] == CubeRms(SubCube(q, N, i, j, k))
  {
    CubeOfPosition(i, j, k, N);
  }

  /** One step of the walk: appending cube `(i, j, k)`'s value to the values
      of the cubes before it keeps the list a prefix of the result. */
  lemma AppendNextEntry(q: Quantity3d, N: nat, i: nat, j: nat, k: nat, done: seq<Quantity>, v: Quantity)
    requires IsCube(q.value) && N >= 1 && i < N && j < N && k < N
    requires |done| == i * N * N + j * N + k && done <= RmsEntries(q, N)
    requires v == CubeRms(SubCube(q, N, i, j, k))
    ensures done + [v] <= RmsEntries(q, N)
  {
    var p := Position(i, j, k, N);
    EntryOfCube(q, N, i, j, k);
    PrefixExtend(done, RmsEntries(q, N), v);
  }

  /** A prefix extended by the next element is still a prefix. */
  lemma PrefixExtend<T>(done: seq<T>, all: seq<T>, v: T)
    requires done <= all && |done| < |all| && all[|done|] == v
    ensures done + [v] <= all
  {
    assert forall t :: 0 <= t < |done| ==> (done + [v])[t] == all[t];
  }

  // ---------------------------------------------------------------------------
  // Properties of the result
  // ---------------------------------------------------------------------------

  /** Cube `i`'s slice of the original axis: the crop start shifted by `i*cubeDim`. */
  function FieldSpan(n: nat, N: nat, i: nat): (w: Span)
    requires N >= 1 && i < N
    ensures w == CropSpan(n, N).Within(CubeSpan(n, N, i))
    ensures w.Valid() && w.start == CropStart(n, N) + i * CubeDim(n, N)
    ensures w.Len() == CubeDim(n, N) && CropStart(n, N) <= w.start && w.stop <= CropEnd(n, N)
  {
    CropSpan(n, N).Within(CubeSpan(n, N, i))
  }

  /** Sub-cube `(i, j, k)` is the block of the original field at offsets
      `start_idx + i*cubeDim` etc. with extent `cubeDim` on each axis. */
  lemma SubCubeInField(q: Quantity3d, N: nat, i: nat, j: nat, k: nat)
    requires IsCube(q.value) && N >= 1 && i < N && j < N && k < N
    ensures var n := |q.value|;
      Fits(q.value, FieldSpan(n, N, i), FieldSpan(n, N, j), FieldSpan(n, N, k)) &&
      SubCube(q, N, i, j, k).value == Slice3(q.value, FieldSpan(n, N, i), FieldSpan(n, N, j), FieldSpan(n, N, k))
  {
    var n := |q.value|;
    var w := CropSpan(n, N);
    SliceOfSlice(q.value, w, w, w, CubeSpan(n, N, i), CubeSpan(n, N, j), CubeSpan(n, N, k));
  }

  /** Ordering: the entry at position `i*N*N + j*N + k` is the value of cube
      `(i, j, k)`. */
  lemma RmsInCubesOrder(q: Quantity3d, N: nat, i: nat, j: nat, k: nat)
    requires IsCube(q.value) && N >= 1 && i < N && j < N && k < N
    ensures RmsInCubes(q, N).values[Position(i, j, k, N)] == CubeRms(SubCube(q, N, i, j, k)).value
  {
    EntryOfCube(q, N, i, j, k);
  }

  /** Every sub-cube holds `cubeDim³` elements. */
  lemma SubCubeSize(q: Quantity3d, N: nat, i: nat, j: nat, k: nat)
    requires IsCube(q.value) && N >= 1 && i < N && j < N && k < N
    ensures var d := CubeDim(|q.value|, N); |Flatten(SubCube(q, N, i, j, k).value)| == d * d * d
  {
    var d := CubeDim(|q.value|, N);
    BlockSize(SubCube(q, N, i, j, k).value, d, d, d);
  }

  /** Along one axis of the cropped region, the cube spans are disjoint and
      cover it: offset `x` lies in span `x / cubeDim` and in no other. */
  lemma {:induction false} CubeSpansTileAxis(n: nat, N: nat, x: nat)
    requires N >= 1 && x < CroppedEdge(n, N)
    ensures CubeDim(n, N) > 0 && x / CubeDim(n, N) < N
    ensures CubeSpan(n, N, x / CubeDim(n, N)).Contains(x)
    ensures CubeSpan(n, N, x / CubeDim(n, N)).start + x % CubeDim(n, N) == x
    ensures forall i :: 0 <= i < N && CubeSpan(n, N, i).Contains(x) ==> i == x / CubeDim(n, N)
  {
    var d := CubeDim(n, N);
    var c := x / d;
    DivModUnique(x, d, c, x % d);
    MulSucc(c, d);
    if c >= N {
      MulMonotone(N, c, d);
    }
    forall i | 0 <= i < N && CubeSpan(n, N, i).Contains(x)
      ensures i == c
    {
      DivModUnique(x, d, i, x - i * d);
    }
  }

  /** The cube span holding offset `x` of the cropped axis: `x / cubeDim`. */
  function CubeOfOffset(n: nat, N: nat, x: nat): (i: nat)
    requires N >= 1 && x < CroppedEdge(n, N)
    ensures i < N && CubeSpan(n, N, i).Contains(x)
  {
    CubeSpansTileAxis(n, N, x);
    x / CubeDim(n, N)
  }

  /** Where offset `x` of the cropped axis falls inside its cube span: `x % cubeDim`. */
  function OffsetInCube(n: nat, N: nat, x: nat): (a: nat)
    requires N >= 1 && x < CroppedEdge(n, N)
    ensures a < CubeDim(n, N) && CubeSpan(n, N, CubeOfOffset(n, N, x)).start + a == x
  {
    CubeSpansTileAxis(n, N, x);
    x % CubeDim(n, N)
  }

  /** In three dimensions the cubes are disjoint: a cell `(x, y, z)` of the
      cropped region lies in cube `(x / d, y / d, z / d)` and in no other. */
  lemma SubCubesDisjoint(n: nat, N: nat, x: nat, y: nat, z: nat, i: nat, j: nat, k: nat)
    requires N >= 1 && x < CroppedEdge(n, N) && y < CroppedEdge(n, N) && z < CroppedEdge(n, N)
    requires i < N && j < N && k < N
    requires CubeSpan(n, N, i).Contains(x) && CubeSpan(n, N, j).Contains(y) && CubeSpan(n, N, k).Contains(z)
    ensures i == CubeOfOffset(n, N, x) && j == CubeOfOffset(n, N, y) && k == CubeOfOffset(n, N, z)
  {
    CubeSpansTileAxis(n, N, x);
    CubeSpansTileAxis(n, N, y);
    CubeSpansTileAxis(n, N, z);
  }

  /** In three dimensions the cubes cover the cropped region: cell
      `(x, y, z)` of it is cell `(x % d, y % d, z % d)` of cube
      `(x / d, y / d, z / d)`. */
  lemma SubCubesCoverCrop(q: Quantity3d, N: nat, x: nat, y: nat, z: nat)
    requires IsCube(q.value) && N >= 1
    requires x < CroppedEdge(|q.value|, N) && y < CroppedEdge(|q.value|, N) && z < CroppedEdge(|q.value|, N)
    ensures var n := |q.value|;
      var cube := SubCube(q, N, CubeOfOffset(n, N, x), CubeOfOffset(n, N, y), CubeOfOffset(n, N, z));
      Crop(q, N).value[x][y][z] == cube.value[OffsetInCube(n, N, x)][OffsetInCube(n, N, y)][OffsetInCube(n, N, z)]
  {
    var n := |q.value|;
    var i, j, k := CubeOfOffset(n, N, x), CubeOfOffset(n, N, y), CubeOfOffset(n, N, z);
    var a, b, c := OffsetInCube(n, N, x), OffsetInCube(n, N, y), OffsetInCube(n, N, z);
    CubeFits(q, N, i, j, k);
    assert SubCube(q, N, i, j, k).value[a][b][c] == Crop(q, N).value[x][y][z];
  }

  /** An entry is the NaN sentinel exactly when there are more cubes per side
      than cells per side (then `cubeDim = 0` and every cube is empty). */
  lemma EmptyCubesExactlyWhenTooMany(q: Quantity3d, N: nat, p: nat)
    requires IsCube(q.value) && N >= 1 && p < N * N * N
    ensures RmsInCubes(q, N).values[p].NaN? <==> N > |q.value|
  {
    var c := Cube(p, N);
    var d := CubeDim(|q.value|, N);
    var cube := SubCube(q, N, c.0, c.1, c.2);
    assert RmsInCubes(q, N).values[p] == CubeRms(cube).value;
    SubCubeSize(q, N, c.0, c.1, c.2);
    CubeDimZeroExactlyWhenTooMany(|q.value|, N);
    if d > 0 {
      MulMonotone(1, d, d);
      MulMonotone(1, d * d, d);
    }
  }

  /** `cubeDim` is zero exactly when `N > n`. */
  lemma CubeDimZeroExactlyWhenTooMany(n: nat, N: nat)
    requires N >= 1
    ensures CubeDim(n, N) == 0 <==> N > n
  {
    var d := CubeDim(n, N);
    if d > 0 {
      MulMonotone(1, d, N);
    }
  }

  /** When `N > n`, every entry is NaN and carries the input's unit. */
  lemma TooManyCubesAllNaN(q: Quantity3d, N: nat)
    requires IsCube(q.value) && N > |q.value| && N >= 1
    ensures RmsInCubes(q, N).unit == q.unit
    ensures forall p :: 0 <= p < |RmsInCubes(q, N).values| ==> RmsInCubes(q, N).values[p] == NaN
  {
    forall p | 0 <= p < |RmsInCubes(q, N).values|
      ensures RmsInCubes(q, N).values[p] == NaN
    {
      EmptyCubesExactlyWhenTooMany(q, N, p);
    }
  }

  /** When `N <= n`, no sub-cube is empty. */
  lemma SubCubeNonEmpty(q: Quantity3d, N: nat, i: nat, j: nat, k: nat)
    requires IsCube(q.value) && 1 <= N <= |q.value| && i < N && j < N && k < N
    ensures |Flatten(SubCube(q, N, i, j, k).value)| > 0
  {
    var d := CubeDim(|q.value|, N);
    SubCubeSize(q, N, i, j, k);
    CubeDimZeroExactlyWhenTooMany(|q.value|, N);
    MulPositive(d, d);
    MulPositive(d * d, d);
  }

  /** When `N <= n`, each entry is the square root of the mean of the
      cube's squared elements (`cubeDim³` of them, by SubCubeSize), never
      the sentinel. */
  lemma NonEmptyCubeRms(q: Quantity3d, N: nat, i: nat, j: nat, k: nat)
    requires IsCube(q.value) && 1 <= N <= |q.value| && i < N && j < N && k < N
    ensures var elements := Flatten(SubCube(q, N, i, j, k).value);
      |elements| > 0 &&
      RmsInCubes(q, N).values[Position(i, j, k, N)] == SqrtOf(MeanOfSquares(elements))
  {
    var cube := SubCube(q, N, i, j, k);
    RmsInCubesOrder(q, N, i, j, k);
    SubCubeNonEmpty(q, N, i, j, k);
    MeanSquareOfNonEmptyCube(cube);
  }

  /** A cube with elements gets the square root of their mean square. */
  lemma MeanSquareOfNonEmptyCube(cube: Quantity3d)
    requires |Flatten(cube.value)| > 0
    ensures CubeRms(cube).value == SqrtOf(MeanOfSquares(Flatten(cube.value)))
  {
  }

  /** A non-empty cube whose every element is `c` has mean square `c * c`. */
  lemma CubeRmsOfConstant(cube: Quantity3d, c: real)
    requires |Flatten(cube.value)| > 0 && AllEqual(Flatten(cube.value), c)
    ensures CubeRms(cube).value == SqrtOf(c * c)
  {
    MeanOfSquaresConstant(Flatten(cube.value), c);
  }

  /** For a field whose every cell is `c`, every entry stands for `|c|`. */
  lemma ConstantFieldRms(q: Quantity3d, N: nat, c: real)
    requires IsCube(q.value) && 1 <= N <= |q.value|
    requires forall x, y, z :: 0 <= x < |q.value| && 0 <= y < |q.value| && 0 <= z < |q.value| ==> q.value[x][y][z] == c
    ensures RmsInCubes(q, N).unit == q.unit
    ensures forall p :: 0 <= p < |RmsInCubes(q, N).values| ==>
      RmsInCubes(q, N).values[p] == SqrtOf(c * c) && Denotes(RmsInCubes(q, N).values[p], Abs(c))
  {
    var r := RmsInCubes(q, N);
    forall p | 0 <= p < |r.values|
      ensures r.values[p] == SqrtOf(c * c)
    {
      var t := Cube(p, N);
      ConstantCube(q, N, c, t.0, t.1, t.2);
      RmsInCubesOrder(q, N, t.0, t.1, t.2);
    }
    SqrtOfSquare(c);
  }

  /** In a field whose every cell is `c`, cube `(i, j, k)`'s value is `sqrt(c * c)`. */
  lemma ConstantCube(q: Quantity3d, N: nat, c: real, i: nat, j: nat, k: nat)
    requires IsCube(q.value) && 1 <= N <= |q.value| && i < N && j < N && k < N
    requires forall x, y, z :: 0 <= x < |q.value| && 0 <= y < |q.value| && 0 <= z < |q.value| ==> q.value[x][y][z] == c
    ensures CubeRms(SubCube(q, N, i, j, k)).value == SqrtOf(c * c)
  {
    var d := CubeDim(|q.value|, N);
    var cube := SubCube(q, N, i, j, k);
    SubCubeInField(q, N, i, j, k);
    FlattenConstant(cube.value, d, d, d, c);
    SubCubeNonEmpty(q, N, i, j, k);
    CubeRmsOfConstant(cube, c);
  }

  /** The cropping of a 10-cell edge into 3 cubes per side. */
  lemma CropOfTenIntoThree()
    ensures CubeDim(10, 3) == 3 && CroppedEdge(10, 3) == 9
    ensures CropStart(10, 3) == 0 && CropEnd(10, 3) == 9
  {
  }
}
