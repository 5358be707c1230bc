/** The typed length: a float64 number of metres, its scale constants from
    yotta to yocto, its materialisation as a unit, and `From`, which adopts
    the magnitude of any unit-like value whose dimensions match those of the
    length constant `Meter`, and otherwise stores NaN and reports an error. */
module Lengths {
  import opened Outcomes
  import opened DimensionVectors
  import Quantities
  import DimensionTable

  /** A float64 length in metres; NaN is the value `From` stores on failure.
      IEEE rounding and infinities are not modelled. */
  datatype Length = Finite(meters: real) | NaN {
    /** `Length()`: a length is its own length. */
    function AsLength(): (r: Length)
      ensures r == this
    {
      this
    }
  }

  const Yottameter: Length := Finite(1000000000000000000000000.0)
  const Zettameter: Length := Finite(1000000000000000000000.0)
  const Exameter: Length := Finite(1000000000000000000.0)
  const Petameter: Length := Finite(1000000000000000.0)
  const Terameter: Length := Finite(1000000000000.0)
  const Gigameter: Length := Finite(1000000000.0)
  const Megameter: Length := Finite(1000000.0)
  const Kilometer: Length := Finite(1000.0)
  const Hectometer: Length := Finite(100.0)
  const Decameter: Length := Finite(10.0)
  /** The length constant `Meter`; `DimensionTable.Meter` is the dimension
      vector of the same Go name. */
  const Meter: Length := Finite(1.0)
  const Decimeter: Length := Finite(0.1)
  const Centimeter: Length := Finite(0.01)
  const Millimeter: Length := Finite(0.001)
  const Micrometer: Length := Finite(0.000001)
  const Nanometer: Length := Finite(0.000000001)
  const Picometer: Length := Finite(0.000000000001)
  const Femtometer: Length := Finite(0.000000000000001)
  const Attometer: Length := Finite(0.000000000000000001)
  const Zeptometer: Length := Finite(0.000000000000000000001)
  const Yoctometer: Length := Finite(0.000000000000000000000001)

  /** Ten to the power `e`, for any integer `e`. */
  function Pow10(e: int): (r: real)
    ensures r > 0.0
    decreases if e < 0 then -e else e
  {
    if e == 0 then 1.0
    else if e > 0 then 10.0 * Pow10(e - 1)
    else Pow10(e + 1) / 10.0
  }

  /** The scale constants from largest to smallest, each with the power of
      ten its SI prefix denotes. */
  const Scales: seq<(Length, int)> := [
    (Yottameter, 24), (Zettameter, 21), (Exameter, 18), (Petameter, 15),
    (Terameter, 12), (Gigameter, 9), (Megameter, 6), (Kilometer, 3),
    (Hectometer, 2), (Decameter, 1), (Meter, 0), (Decimeter, -1),
    (Centimeter, -2), (Millimeter, -3), (Micrometer, -6), (Nanometer, -9),
    (Picometer, -12), (Femtometer, -15), (Attometer, -18), (Zeptometer, -21),
    (Yoctometer, -24)]

  /** Each scale constant is its power of ten times `Meter`, which is 1. */
  lemma ScalesArePowersOfTen()
    ensures Meter == Finite(1.0)
    ensures forall i :: 0 <= i < |Scales| ==>
      Scales[i].0 == Finite(Pow10(Scales[i].1) * Meter.meters)
  {
    assert Pow10(3) == 1000.0;
    assert Pow10(6) == 1000.0 * Pow10(3);
    assert Pow10(9) == 1000.0 * Pow10(6);
    assert Pow10(12) == 1000.0 * Pow10(9);
    assert Pow10(15) == 1000.0 * Pow10(12);
    assert Pow10(18) == 1000.0 * Pow10(15);
    assert Pow10(21) == 1000.0 * Pow10(18);
    assert Pow10(24) == 1000.0 * Pow10(21);
    assert Pow10(-3) == 0.001;
    assert Pow10(-6) == Pow10(-3) / 1000.0;
    assert Pow10(-9) == Pow10(-6) / 1000.0;
    assert Pow10(-12) == Pow10(-9) / 1000.0;
    assert Pow10(-15) == Pow10(-12) / 1000.0;
    assert Pow10(-18) == Pow10(-15) / 1000.0;
    assert Pow10(-21) == Pow10(-18) / 1000.0;
    assert Pow10(-24) == Pow10(-21) / 1000.0;
  }

  /** The scale constants strictly decrease from Yotta to Yocto. */
  lemma ScalesStrictlyDecrease()
    ensures forall i :: 0 < i < |Scales| ==> Scales[i].0.meters < Scales[i - 1].0.meters
  {
  }

  /** A value that can materialise itself as a unit (Go's `Uniter`): a unit,
      or a length. */
  datatype Uniter = OfUnit(q: Quantities.Quantity) | OfLength(l: Length)

  /** The dimensions `Length.Unit()` attaches to every length, as written:
      mass to the first power. */
  const LengthUnitDims: Dimensions := map[MassDim := 1]

  /** The dimensions of `u.Unit()`. */
  function UnitDims(u: Uniter): Dimensions {
    match u
    case OfUnit(q) => q.dims
    case OfLength(_) => LengthUnitDims
  }

  /** The magnitude `u.Unit().Value()`, as a float64. */
  function UnitValue(u: Uniter): Length {
    match u
    case OfUnit(q) => Finite(q.value)
    case OfLength(l) => l
  }

  /** `DimensionsMatch` on two unit-like values. */
  predicate UnitersMatch(a: Uniter, b: Uniter) {
    Match(UnitDims(a), UnitDims(b))
  }

  /** `Length.Unit()` as written: the length's own value, with dimensions
      mass^1 rather than length^1, so it does not match a metre vector. */
  lemma LengthUnitIsMass(l: Length)
    ensures UnitValue(OfLength(l)) == l
    ensures UnitDims(OfLength(l)) == map[MassDim := 1] == DimensionTable.Kilogram
    ensures !Match(UnitDims(OfLength(l)), DimensionTable.Meter)
  {
    MismatchAt(UnitDims(OfLength(l)), DimensionTable.Meter, MassDim);
  }

  const MismatchMessage: string := "Dimension mismatch"

  /** What `From` leaves behind: the stored length and the returned error. */
  datatype Converted = Converted(stored: Length, err: Option<string>)

  /** The effect of `l.From(u)`, as written: checks `u` against the length
      constant `Meter`, whose unit has dimensions mass^1. It fails exactly on
      a dimension mismatch, storing NaN and the message "Dimension
      mismatch"; on success it stores exactly the magnitude of `u`. */
  function Convert(u: Uniter): (r: Converted)
    ensures r.err.None? <==> Match(UnitDims(u), LengthUnitDims)
    ensures r.err.Some? ==> r == Converted(NaN, Some("Dimension mismatch"))
    ensures r.err.None? ==> r.stored == UnitValue(u)
  {
    if !UnitersMatch(u, OfLength(Meter)) then Converted(NaN, Some(MismatchMessage))
    else Converted(UnitValue(u), None)
  }

  /** A length variable, the target `*l` that `From` writes through. */
  class LengthRef {
    var l: Length

    constructor (l0: Length)
      ensures l == l0
    {
      l := l0;
    }

    /** `From`: on a dimension mismatch stores NaN and returns the error
        "Dimension mismatch"; otherwise stores `u`'s magnitude and returns
        nil. The old value plays no part. */
    method From(u: Uniter) returns (err: Option<string>)
      modifies this
      ensures Converted(l, err) == Convert(u)
    {
      if !UnitersMatch(u, OfLength(Meter)) {
        l := NaN;
        return Some(MismatchMessage);
      }
      l := UnitValue(u);
      return None;
    }
  }

  /** Whether `From` succeeds depends on the dimensions of `u` only, never
      on its magnitude. */
  lemma ConvertIgnoresMagnitude(p: Quantities.Quantity, q: Quantities.Quantity)
    requires Match(p.dims, q.dims)
    ensures Convert(OfUnit(p)).err == Convert(OfUnit(q)).err
  {
  }

  /** As written, `From` accepts a mass and rejects a length. */
  lemma ConvertAsWritten(v: real)
    ensures Convert(OfUnit(Quantities.New(v, DimensionTable.Kilogram))) == Converted(Finite(v), None)
    ensures Convert(OfUnit(Quantities.New(v, DimensionTable.Meter))) == Converted(NaN, Some("Dimension mismatch"))
  {
    Quantities.NewKeepsNormalized(v, DimensionTable.Kilogram);
    Quantities.NewKeepsNormalized(v, DimensionTable.Meter);
    MismatchAt(DimensionTable.Meter, LengthUnitDims, MassDim);
  }

  /** Round trip: converting a length into a length always succeeds and
      stores that same length, NaN included. */
  lemma ConvertRoundTrip(l: Length)
    ensures Convert(OfLength(l)) == Converted(l, None)
  {
  }

  /** The dimensions a length in metres evidently should carry. */
  const IntendedUnitDims: Dimensions := DimensionTable.Meter

  function IntendedUnitDimsOf(u: Uniter): Dimensions {
    match u
    case OfUnit(q) => q.dims
    case OfLength(_) => IntendedUnitDims
  }

  /** `From` with `Length.Unit()` carrying length^1. */
  function ConvertIntended(u: Uniter): Converted {
    if !Match(IntendedUnitDimsOf(u), IntendedUnitDims) then Converted(NaN, Some(MismatchMessage))
    else Converted(UnitValue(u), None)
  }

  /** With length^1 dimensions, `From` accepts exactly the units whose
      dimensions match a metre, still round-trips every length, and rejects
      a mass. */
  lemma ConvertIntendedAcceptsMeters(q: Quantities.Quantity, l: Length, v: real)
    ensures ConvertIntended(OfUnit(q)).err.None? <==> Match(q.dims, DimensionTable.Meter)
    ensures ConvertIntended(OfUnit(q)).err.None? ==> ConvertIntended(OfUnit(q)).stored == Finite(q.value)
    ensures ConvertIntended(OfLength(l)) == Converted(l, None)
    ensures ConvertIntended(OfUnit(Quantities.New(v, DimensionTable.Meter))) == Converted(Finite(v), None)
    ensures ConvertIntended(OfUnit(Quantities.New(v, DimensionTable.Kilogram))).err.Some?
  {
    Quantities.NewKeepsNormalized(v, DimensionTable.Kilogram);
    Quantities.NewKeepsNormalized(v, DimensionTable.Meter);
    MismatchAt(DimensionTable.Kilogram, DimensionTable.Meter, MassDim);
  }
}
