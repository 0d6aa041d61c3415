/** Unit-carrying values, as far as the aggregator uses them: a unit tag
    that travels with the numbers, and the result entries (the NaN sentinel
    or a square root). */
module Quantities {
  import opened Grid

  /** A physical unit, compared only for identity. */
  datatype Unit = Unit(symbol: string)

  /** A 3-D array of samples in one unit (`quantity3d.value`, `quantity3d.unit`). */
  datatype Quantity3d = Quantity3d(value: Grid3, unit: Unit)

  /** One RMS entry: the not-a-number sentinel, or `sqrt(meanSquare)` kept
      symbolic (the square root itself is taken by numpy). */
  datatype Rms = NaN | SqrtOf(meanSquare: real)

  /** A scalar quantity, one element of the list the aggregator appends to. */
  datatype Quantity = Quantity(value: Rms, unit: Unit)

  /** A 1-D quantity array: the values and their one shared unit. */
  datatype QuantityArray = QuantityArray(values: seq<Rms>, unit: Unit)

  /** `x` is the value `v` stands for: the non-negative square root of its mean square. */
  ghost predicate Denotes(v: Rms, x: real) {
    v.SqrtOf? && x >= 0.0 && x * x == v.meanSquare
  }

  /** An entry stands for at most one real number. */
  lemma DenotesUnique(v: Rms, x: real, y: real)
    requires Denotes(v, x) && Denotes(v, y)
    ensures x == y
  {
    if x < y {
      SquareGrows(x, y);
    } else if y < x {
      SquareGrows(y, x);
    }
  }

  lemma SquareGrows(x: real, y: real)
    requires 0.0 <= x < y
    ensures x * x < y * y
  {
    var xx, xy, yy := x * x, x * y, y * y;
    assert xx <= xy;
    assert xy < yy;
  }

  function Abs(c: real): (r: real)
    ensures r >= 0.0 && (r == c || r == -c)
  {
    if c < 0.0 then -c else c
  }

  /** `sqrt(c * c)` stands for `|c|`. */
  lemma SqrtOfSquare(c: real)
    ensures Denotes(SqrtOf(c * c), Abs(c))
  {
    if c < 0.0 {
      assert Abs(c) * Abs(c) == (-c) * (-c) == c * c;
    }
  }

  /** Every element of `qs` carries `u`. */
  predicate AllIn(qs: seq<Quantity>, u: Unit) {
    forall t :: 0 <= t < |qs| ==> qs[t].unit == u
  }

  /** `u.Quantity(qs)` for a non-empty list whose elements share one unit:
      nothing is lost, each element is its value in the array's unit. */
  function ToQuantityArray(qs: seq<Quantity>): (r: QuantityArray)
    requires |qs| > 0 && AllIn(qs, qs[0].unit)
    ensures |r.values| == |qs|
    ensures forall t :: 0 <= t < |qs| ==> Quantity(r.values[t], r.unit) == qs[t]
  {
    QuantityArray(seq(|qs|, t requires 0 <= t < |qs| => qs[t].value), qs[0].unit)
  }
}
