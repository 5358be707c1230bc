/** The named dimension vectors of the package, and the relations between
    them that the algebra predicts (Pascal times cubic metre is Joule, Joule
    per second is Watt, and so on). */
module DimensionTable {
  import opened DimensionVectors

  const Unitless: Dimensions := map[]
  const Joule: Dimensions := map[MassDim := 1, LengthDim := 2, TimeDim := -2]
  /** The dimension vector of a metre; `Lengths.Meter` is the length constant
      of the same Go name. */
  const Meter: Dimensions := map[LengthDim := 1]
  const Meter2: Dimensions := map[LengthDim := 2]
  const Meter3: Dimensions := map[LengthDim := 3]
  const KilogramPerMeter3: Dimensions := map[MassDim := 1, LengthDim := -3]
  const Pascal: Dimensions := map[MassDim := 1, LengthDim := -1, TimeDim := -2]
  const Kilogram: Dimensions := map[MassDim := 1]
  const Watt: Dimensions := map[MassDim := 1, LengthDim := 2, TimeDim := -3]
  const Herz: Dimensions := map[TimeDim := -1]
  const Second: Dimensions := map[TimeDim := 1]

  /** Every constant of the table is stored without zero entries. */
  lemma TableIsNormalized()
    ensures Normalized(Unitless) && Normalized(Joule) && Normalized(Meter)
    ensures Normalized(Meter2) && Normalized(Meter3) && Normalized(KilogramPerMeter3)
    ensures Normalized(Pascal) && Normalized(Kilogram) && Normalized(Watt)
    ensures Normalized(Herz) && Normalized(Second)
  {
  }

  /** `Unitless` has no non-zero exponent, so it is the identity of
      multiplication and division. */
  lemma UnitlessIsIdentity(d: Dimensions)
    ensures Dimensionless(Unitless)
    ensures Product(d, Unitless) == Normalize(d) && Product(Unitless, d) == Normalize(d)
    ensures Quotient(d, Unitless) == Normalize(d)
  {
    EmptyIsIdentity(d);
  }

  /** Square and cubic metres are the powers of the metre. */
  lemma MeterPowers()
    ensures Meter2 == Product(Meter, Meter)
    ensures Meter3 == Product(Meter2, Meter)
  {
    TableIsNormalized();
    Extensionality(Meter2, Product(Meter, Meter));
    Extensionality(Meter3, Product(Meter2, Meter));
  }

  /** Pascal is kg m^-1 s^-2, as its documentation says. */
  lemma PascalExponents()
    ensures Exp(Pascal, MassDim) == 1 && Exp(Pascal, LengthDim) == -1 && Exp(Pascal, TimeDim) == -2
    ensures forall k :: k != MassDim && k != LengthDim && k != TimeDim ==> Exp(Pascal, k) == 0
  {
  }

  /** Herz is the reciprocal of Second: their product is dimensionless. */
  lemma HerzIsReciprocalSecond()
    ensures Herz == Negate(Second)
    ensures Product(Herz, Second) == Unitless
  {
    TableIsNormalized();
    Extensionality(Herz, Negate(Second));
    Extensionality(Product(Herz, Second), Unitless);
  }

  /** Watt is Joule per second. */
  lemma WattIsJoulePerSecond()
    ensures Watt == Quotient(Joule, Second)
  {
    TableIsNormalized();
    Extensionality(Watt, Quotient(Joule, Second));
  }

  /** Density is mass per cubic metre. */
  lemma DensityIsKilogramPerMeter3()
    ensures KilogramPerMeter3 == Quotient(Kilogram, Meter3)
  {
    TableIsNormalized();
    Extensionality(KilogramPerMeter3, Quotient(Kilogram, Meter3));
  }

  /** Pressure times volume is energy. */
  lemma PascalTimesMeter3IsJoule()
    ensures Product(Pascal, Meter3) == Joule
  {
    TableIsNormalized();
    Extensionality(Product(Pascal, Meter3), Joule);
  }
}
