/** Three-dimensional arrays of samples, sliced and reduced the way the
    aggregator slices and reduces its numpy arrays. */
module Grid {
  import opened Arithmetic

  /** A 3-D array indexed `g[x][y][z]`. */
  type Grid3 = seq<seq<seq<real>>>

  /** A Python slice `start:stop` with step 1. */
  datatype Span = Span(start: nat, stop: nat) {
    predicate Valid() { start <= stop }

    function Len(): nat
      requires Valid()
    {
      stop - start
    }

    predicate Contains(x: int) { start <= x < stop }

    /** The span that slicing `a[this][inner]` selects from `a`. */
    function Within(inner: Span): (r: Span)
      requires Valid() && inner.Valid() && inner.stop <= Len()
      ensures r.Valid() && r.Len() == inner.Len() && r.stop <= stop
      ensures forall x :: inner.Contains(x) <==> r.Contains(start + x)
    {
      Span(start + inner.start, start + inner.stop)
    }
  }

  /** `g` has shape `(a, b, c)`. */
  predicate IsBlock(g: Grid3, a: nat, b: nat, c: nat) {
    |g| == a &&
    forall x :: 0 <= x < a ==>
      |g[x]| == b && forall y :: 0 <= y < b ==> |g[x][y]| == c
  }

  /** The same extent on all three axes. */
  predicate IsCube(g: Grid3) {
    IsBlock(g, |g|, |g|, |g|)
  }

  /** Each span lies within the extent of its axis, so slicing clips nothing. */
  predicate Fits(g: Grid3, s0: Span, s1: Span, s2: Span) {
    s0.Valid() && s1.Valid() && s2.Valid() && s0.stop <= |g| &&
    forall x :: s0.start <= x < s0.stop ==>
      s1.stop <= |g[x]| && forall y :: s1.start <= y < s1.stop ==> s2.stop <= |g[x][y]|
  }

  /** Basic slicing `g[s0, s1, s2]`: element `(x, y, z)` of the result is
      element `(s0.start + x, s1.start + y, s2.start + z)` of `g`. */
  function Slice3(g: Grid3, s0: Span, s1: Span, s2: Span): (r: Grid3)
    requires Fits(g, s0, s1, s2)
    ensures IsBlock(r, s0.Len(), s1.Len(), s2.Len())
    ensures forall x, y, z :: 0 <= x < s0.Len() && 0 <= y < s1.Len() && 0 <= z < s2.Len() ==>
      r[x][y][z] == g[s0.start + x][s1.start + y][s2.start + z]
  {
    seq(s0.Len(), x requires 0 <= x < s0.Len() =>
      seq(s1.Len(), y requires 0 <= y < s1.Len() =>
        g[s0.start + x][s1.start + y][s2.start .. s2.stop]))
  }

  /** Two blocks of one shape with the same elements are the same block. */
  lemma BlockExtensionality(g: Grid3, h: Grid3, a: nat, b: nat, c: nat)
    requires IsBlock(g, a, b, c) && IsBlock(h, a, b, c)
    requires forall x, y, z :: 0 <= x < a && 0 <= y < b && 0 <= z < c ==> g[x][y][z] == h[x][y][z]
    ensures g == h
  {
    forall x | 0 <= x < a
      ensures g[x] == h[x]
    {
      forall y | 0 <= y < b
        ensures g[x][y] == h[x][y]
      {
        assert |g[x][y]| == |h[x][y]| == c;
        assert forall z :: 0 <= z < c ==> g[x][y][z] == h[x][y][z];
      }
      assert |g[x]| == |h[x]| == b;
    }
  }

  /** Slicing a slice is one slice of the original, with the inner spans
      shifted by the outer starts. */
  lemma {:induction false} SliceOfSlice(g: Grid3, s0: Span, s1: Span, s2: Span, t0: Span, t1: Span, t2: Span)
    requires Fits(g, s0, s1, s2)
    requires t0.Valid() && t1.Valid() && t2.Valid()
    requires t0.stop <= s0.Len() && t1.stop <= s1.Len() && t2.stop <= s2.Len()
    ensures Fits(Slice3(g, s0, s1, s2), t0, t1, t2)
    ensures Fits(g, s0.Within(t0), s1.Within(t1), s2.Within(t2))
    ensures Slice3(Slice3(g, s0, s1, s2), t0, t1, t2) == Slice3(g, s0.Within(t0), s1.Within(t1), s2.Within(t2))
  {
    var inner := Slice3(g, s0, s1, s2);
    var twice := Slice3(inner, t0, t1, t2);
    var once := Slice3(g, s0.Within(t0), s1.Within(t1), s2.Within(t2));
    BlockExtensionality(twice, once, t0.Len(), t1.Len(), t2.Len());
  }

  /** The elements of `s` in order, as `ndarray.ravel()` lists a 2-D array. */
  function Flatten2(s: seq<seq<real>>): seq<real> {
    if |s| == 0 then [] else s[0] + Flatten2(s[1..])
  }

  /** The elements of `g` in C order, as `ndarray.ravel()` lists them; its
      length is the array's `size`. */
  function Flatten(g: Grid3): seq<real> {
    if |g| == 0 then [] else Flatten2(g[0]) + Flatten(g[1..])
  }

  /** A block of shape `(a, b, c)` holds `a * b * c` elements. */
  lemma BlockSize(g: Grid3, a: nat, b: nat, c: nat)
    requires IsBlock(g, a, b, c)
    ensures |Flatten(g)| == a * b * c
  {
    FlattenLength(g, a, b, c);
    MulAssoc(a, b, c);
  }

  lemma {:induction false} FlattenLength(g: Grid3, a: nat, b: nat, c: nat)
    requires IsBlock(g, a, b, c)
    ensures |Flatten(g)| == a * (b * c)
  {
    if a > 0 {
      RowsSize(g[0], b, c);
      assert IsBlock(g[1..], a - 1, b, c);
      FlattenLength(g[1..], a - 1, b, c);
      MulSucc(a - 1, b * c);
    }
  }

  lemma {:induction false} RowsSize(s: seq<seq<real>>, b: nat, c: nat)
    requires |s| == b && forall y :: 0 <= y < b ==> |s[y]| == c
    ensures |Flatten2(s)| == b * c
  {
    if b > 0 {
      RowsSize(s[1..], b - 1, c);
      MulSucc(b - 1, c);
    }
  }

  /** Every element of `s` equals `c`. */
  predicate AllEqual(s: seq<real>, c: real) {
    forall t :: 0 <= t < |s| ==> s[t] == c
  }

  /** A block whose every element is `c` flattens to a sequence of `c`s. */
  lemma {:induction false} FlattenConstant(g: Grid3, a: nat, b: nat, d: nat, c: real)
    requires IsBlock(g, a, b, d)
    requires forall x, y, z :: 0 <= x < a && 0 <= y < b && 0 <= z < d ==> g[x][y][z] == c
    ensures AllEqual(Flatten(g), c)
  {
    if a > 0 {
      RowsConstant(g[0], b, d, c);
      assert IsBlock(g[1..], a - 1, b, d);
      FlattenConstant(g[1..], a - 1, b, d, c);
    }
  }

  lemma {:induction false} RowsConstant(s: seq<seq<real>>, b: nat, d: nat, c: real)
    requires |s| == b && forall y :: 0 <= y < b ==> |s[y]| == d
    requires forall y, z :: 0 <= y < b && 0 <= z < d ==> s[y][z] == c
    ensures AllEqual(Flatten2(s), c)
  {
    if b > 0 {
      RowsConstant(s[1..], b - 1, d, c);
    }
  }

  /** The sum of the squared elements, `(v**2).sum()`. */
  function SumSquares(s: seq<real>): (r: real)
    ensures r >= 0.0
  {
    if |s| == 0 then 0.0 else SumSquares(s[..|s| - 1]) + s[|s| - 1] * s[|s| - 1]
  }

  /** `np.mean(v**2)` for a non-empty `v`. */
  function MeanOfSquares(s: seq<real>): (r: real)
    requires |s| > 0
    ensures r >= 0.0
    ensures r * (|s| as real) == SumSquares(s)
  {
    SumSquares(s) / (|s| as real)
  }

  /** The squares of a sequence of `c`s sum to `|s| * c * c`. */
  lemma {:induction false} SumSquaresConstant(s: seq<real>, c: real)
    requires AllEqual(s, c)
    ensures SumSquares(s) == (|s| as real) * (c * c)
  {
    if |s| > 0 {
      SumSquaresConstant(s[..|s| - 1], c);
    }
  }

  /** The mean of the squares of a non-empty sequence of `c`s is `c * c`. */
  lemma MeanOfSquaresConstant(s: seq<real>, c: real)
    requires |s| > 0 && AllEqual(s, c)
    ensures MeanOfSquares(s) == c * c
  {
    var size, cc := |s| as real, c * c;
    var total := SumSquares(s);
    assert total == size * cc by {
      SumSquaresConstant(s, c);
    }
    RealCancel(MeanOfSquares(s), size, cc);
  }
}
