/** The fixed-record representation of a unit: one integer field per base
    dimension beside the magnitude. Dimension matching compares all seven
    fields; `Add` and `Mul` update the receiver in place and return it. */
module UnitStructs {
  import opened Outcomes
  import opened DimensionVectors

  class UnitStruct {
    var current: int
    var length: int
    var luminosity: int
    var mass: int
    var temperature: int
    var time: int
    var chemamt: int
    var value: real

    /** A struct literal; fields left out of a Go literal are zero. */
    constructor (current: int, length: int, luminosity: int, mass: int,
                 temperature: int, time: int, chemamt: int, value: real)
      ensures this.current == current && this.length == length
      ensures this.luminosity == luminosity && this.mass == mass
      ensures this.temperature == temperature && this.time == time
      ensures this.chemamt == chemamt && this.value == value
    {
      this.current, this.length, this.luminosity, this.mass := current, length, luminosity, mass;
      this.temperature, this.time, this.chemamt, this.value := temperature, time, chemamt, value;
    }

    /** The field holding the exponent of base dimension `k`. */
    function Exponent(k: Dim): int
      reads this
    {
      match k
      case MassDim => mass
      case LengthDim => length
      case TimeDim => time
      case CurrentDim => current
      case TemperatureDim => temperature
      case LuminosityDim => luminosity
      case ChemAmtDim => chemamt
    }

    /** The record's exponents as a dimension vector. */
    function Dims(): (d: Dimensions)
      reads this
      ensures Normalized(d)
      ensures forall k :: Exp(d, k) == Exponent(k)
    {
      Normalize(map[MassDim := mass, LengthDim := length, TimeDim := time, CurrentDim := current,
                    TemperatureDim := temperature, LuminosityDim := luminosity, ChemAmtDim := chemamt])
    }

    /** In-place `Add`: panics unless the dimensions match; otherwise adds
        `a`'s magnitude to the receiver's and returns the receiver, with every
        exponent as it was. */
    method Add(a: UnitStruct) returns (r: Result<UnitStruct>)
      modifies this
      ensures r.Ok? <==> old(DimensionsMatchStruct(a, this))
      ensures r.Ok? ==> r.value == this && value == old(value) + old(a.value)
      ensures r.Err? ==> r.error == Panic("dimension mismatch") && value == old(value)
      ensures forall k :: Exponent(k) == old(Exponent(k))
      ensures a != this ==> unchanged(a)
    {
      if !DimensionsMatchStruct(a, this) {
        return Err(Panic("dimension mismatch"));
      }
      value := value + a.value;
      return Ok(this);
    }

    /** In-place `Mul`: every exponent becomes the sum of both operands'
        exponents and the magnitude their product; returns the receiver. */
    method Mul(a: UnitStruct) returns (r: UnitStruct)
      modifies this
      ensures r == this
      ensures forall k :: Exponent(k) == old(Exponent(k)) + old(a.Exponent(k))
      ensures value == old(value) * old(a.value)
      ensures Dims() == Product(old(Dims()), old(a.Dims()))
      ensures a != this ==> unchanged(a)
    {
      ghost var before, other := Dims(), a.Dims();
      length := length + a.length;
      time := time + a.time;
      mass := mass + a.mass;
      current := current + a.current;
      temperature := temperature + a.temperature;
      luminosity := luminosity + a.luminosity;
      chemamt := chemamt + a.chemamt;
      value := value * a.value;
      forall k ensures Exp(Dims(), k) == Exp(Product(before, other), k) {
        assert Exp(Dims(), k) == Exponent(k);
      }
      Extensionality(Dims(), Product(before, other));
      return this;
    }
  }

  /** `DimensionsMatchStruct`: true exactly when all seven exponent fields
      agree; the magnitudes play no part. */
  function DimensionsMatchStruct(a: UnitStruct, b: UnitStruct): (r: bool)
    reads a, b
    ensures r <==> forall k :: a.Exponent(k) == b.Exponent(k)
  {
    if a.length != b.length then assert a.Exponent(LengthDim) != b.Exponent(LengthDim); false
    else if a.time != b.time then assert a.Exponent(TimeDim) != b.Exponent(TimeDim); false
    else if a.mass != b.mass then assert a.Exponent(MassDim) != b.Exponent(MassDim); false
    else if a.current != b.current then assert a.Exponent(CurrentDim) != b.Exponent(CurrentDim); false
    else if a.temperature != b.temperature then assert a.Exponent(TemperatureDim) != b.Exponent(TemperatureDim); false
    else if a.luminosity != b.luminosity then assert a.Exponent(LuminosityDim) != b.Exponent(LuminosityDim); false
    else if a.chemamt != b.chemamt then assert a.Exponent(ChemAmtDim) != b.Exponent(ChemAmtDim); false
    else true
  }

  /** The record comparison agrees with matching of the vectors it encodes. */
  lemma MatchStructIsMatch(a: UnitStruct, b: UnitStruct)
    ensures DimensionsMatchStruct(a, b) <==> Match(a.Dims(), b.Dims())
  {
  }

  /** The record comparison is reflexive and symmetric. */
  lemma MatchStructReflexiveSymmetric(a: UnitStruct, b: UnitStruct)
    ensures DimensionsMatchStruct(a, a)
    ensures DimensionsMatchStruct(a, b) == DimensionsMatchStruct(b, a)
  {
  }
}
