/** The unit test tables, stated as facts about the model: construction
    drops zero entries, dimension matching on the tabled pairs, the free
    functions on two accelerations, and the in-place operators on clones. */
module UnitTestTables {
  import opened Outcomes
  import opened DimensionVectors
  import opened Quantities
  import Rendering
  import Units

  /** The dimensions of an acceleration, `m s^-2`. */
  const Accel: Dimensions := map[LengthDim := 1, TimeDim := -2]

  /** `New` keeps the magnitude and only the non-zero exponents. */
  lemma InitializationTable()
    ensures New(9.81, map[MassDim := 1, TimeDim := -2]) == Quantity(9.81, map[MassDim := 1, TimeDim := -2])
    ensures New(9.81, map[MassDim := 1, TimeDim := -2, LengthDim := 0, CurrentDim := 0])
         == Quantity(9.81, map[MassDim := 1, TimeDim := -2])
    ensures |New(9.81, map[MassDim := 1, TimeDim := -2, LengthDim := 0, CurrentDim := 0]).dims| == 2
  {
    var want := map[MassDim := 1, TimeDim := -2];
    NewKeepsNormalized(9.81, want);
    Extensionality(New(9.81, map[MassDim := 1, TimeDim := -2, LengthDim := 0, CurrentDim := 0]).dims, want);
    assert want.Keys == {MassDim, TimeDim};
  }

  /** Dimension matching on the tabled pairs of units. */
  lemma DimensionEqualityTable()
    ensures DimensionsMatch(New(1.0, map[]), New(1.0, map[]))
    ensures DimensionsMatch(New(1.0, map[TimeDim := 1]), New(1.0, map[TimeDim := 1]))
    ensures DimensionsMatch(New(1.0, map[TimeDim := 1, LengthDim := -2]), New(1.0, map[TimeDim := 1, LengthDim := -2]))
    ensures !DimensionsMatch(New(1.0, map[]), New(1.0, map[TimeDim := 1, LengthDim := -2]))
    ensures !DimensionsMatch(New(1.0, map[TimeDim := 1]), New(1.0, map[TimeDim := 2]))
    ensures !DimensionsMatch(New(1.0, map[LengthDim := 1]), New(1.0, map[TimeDim := 1]))
    ensures !DimensionsMatch(New(1.0, map[TimeDim := 1, LengthDim := 2]), New(1.0, map[TimeDim := 2]))
    ensures !DimensionsMatch(New(1.0, map[LengthDim := 1, TimeDim := 1]), New(1.0, map[LengthDim := 1, TimeDim := 2]))
  {
    MismatchAt(New(1.0, map[]).dims, New(1.0, map[TimeDim := 1, LengthDim := -2]).dims, TimeDim);
    MismatchAt(New(1.0, map[TimeDim := 1]).dims, New(1.0, map[TimeDim := 2]).dims, TimeDim);
    MismatchAt(New(1.0, map[LengthDim := 1]).dims, New(1.0, map[TimeDim := 1]).dims, TimeDim);
    MismatchAt(New(1.0, map[TimeDim := 1, LengthDim := 2]).dims, New(1.0, map[TimeDim := 2]).dims, TimeDim);
    MismatchAt(New(1.0, map[LengthDim := 1, TimeDim := 1]).dims, New(1.0, map[LengthDim := 1, TimeDim := 2]).dims, TimeDim);
  }

  /** An acceleration squared is `m^2 s^-4`; one divided by another is
      dimensionless. */
  lemma AccelProductAndQuotient()
    ensures Normalized(Accel)
    ensures Product(Accel, Accel) == map[LengthDim := 2, TimeDim := -4]
    ensures Quotient(Accel, Accel) == map[]
  {
    Extensionality(Product(Accel, Accel), map[LengthDim := 2, TimeDim := -4]);
    Extensionality(Quotient(Accel, Accel), map[]);
  }

  /** Add, Sub, Max and Min of 10 and 2 `m s^-2` give 12, 8, 10 and 2 with
      the same dimensions, also after a leading nil. */
  lemma SameDimensionOpTable()
    ensures var v1, v2 := New(10.0, Accel), New(2.0, Accel);
      && Add([Some(v1), Some(v2)]) == Ok(Quantity(12.0, Accel))
      && Add([None, Some(v1), Some(v2)]) == Ok(Quantity(12.0, Accel))
      && Sub([Some(v1), Some(v2)]) == Ok(Quantity(8.0, Accel))
      && Max([Some(v1), Some(v2)]) == Ok(Quantity(10.0, Accel))
      && Max([None, Some(v1), Some(v2)]) == Ok(Quantity(10.0, Accel))
      && Min([Some(v1), Some(v2)]) == Ok(Quantity(2.0, Accel))
      && Min([None, Some(v1), Some(v2)]) == Ok(Quantity(2.0, Accel))
    ensures Rendering.Render(Accel) == "m s^-2"
  {
    NewKeepsNormalized(10.0, Accel);
    NewKeepsNormalized(2.0, Accel);
    var v1, v2 := New(10.0, Accel), New(2.0, Accel);
    PairResults(v1, v2);
    LeadingNilIsSkipped([Some(v1), Some(v2)]);
    assert [None] + [Some(v1), Some(v2)] == [None, Some(v1), Some(v2)];
    Rendering.RenderMPerS2();
  }

  /** Mul of 10 and 2 `m s^-2` gives 20 `m^2 s^-4`. */
  lemma MulOpTable()
    ensures Mul([Some(New(10.0, Accel)), Some(New(2.0, Accel))])
         == Ok(Quantity(20.0, map[LengthDim := 2, TimeDim := -4]))
    ensures Rendering.Render(map[LengthDim := 2, TimeDim := -4]) == "m^2 s^-4"
  {
    NewKeepsNormalized(10.0, Accel);
    NewKeepsNormalized(2.0, Accel);
    PairResults(Quantity(10.0, Accel), Quantity(2.0, Accel));
    AccelProductAndQuotient();
    Rendering.RenderM2PerS4();
  }

  /** Div of 10 and 2 `m s^-2` gives 5 with every exponent cancelled, which
      renders as the empty string. */
  lemma DivOpTable()
    ensures Div([Some(New(10.0, Accel)), Some(New(2.0, Accel))]) == Ok(Quantity(5.0, map[]))
    ensures Rendering.Render(map[]) == ""
  {
    NewKeepsNormalized(10.0, Accel);
    NewKeepsNormalized(2.0, Accel);
    PairResults(Quantity(10.0, Accel), Quantity(2.0, Accel));
    AccelProductAndQuotient();
    assert 10.0 / 2.0 == 5.0;
    Rendering.AtomsInRenderOrder(map[]);
  }

  /** The in-place operators applied to clones of 10 `m s^-2`, with 2 `m s^-2`
      as argument: 12, 8, 20 `m^2 s^-4` and 5 dimensionless; the original
      unit is untouched by all of them. */
  method OpInPlaceTable() returns (add: Quantity, sub: Quantity, mul: Quantity, div: Quantity, original: Quantity)
    ensures add == Quantity(12.0, Accel) && sub == Quantity(8.0, Accel)
    ensures mul == Quantity(20.0, map[LengthDim := 2, TimeDim := -4]) && div == Quantity(5.0, map[])
    ensures original == Quantity(10.0, Accel)
  {
    NewKeepsNormalized(10.0, Accel);
    NewKeepsNormalized(2.0, Accel);
    var v1 := new Units.Unit(10.0, Accel);
    var v2 := new Units.Unit(2.0, Accel);
    PairResults(v1.Snapshot(), v2.Snapshot());
    AccelProductAndQuotient();

    var c := v1.Clone();
    var _ := c.Add(v2);
    add := c.Snapshot();

    c := v1.Clone();
    var _ := c.Sub(v2);
    sub := c.Snapshot();

    c := v1.Clone();
    var _ := c.Mul(v2);
    mul := c.Snapshot();

    c := v1.Clone();
    var _ := c.Div(v2);
    div := c.Snapshot();

    original := v1.Snapshot();
  }
}
