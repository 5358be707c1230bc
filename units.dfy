/** The mutable unit object: a magnitude and a dimension vector updated in
    place by `Add`, `Sub`, `Mul` and `Div`, each of which returns the
    receiver, and `Clone`, which copies it. */
module Units {
  import opened Outcomes
  import opened DimensionVectors
  import Quantities

  class Unit {
    var value: real
    var dimensions: Dimensions

    /** Units are built by `New`, so their vectors hold no zero entries. */
    ghost predicate Valid()
      reads this
    {
      Normalized(dimensions)
    }

    /** The unit's current state as a value. */
    function Snapshot(): Quantities.Quantity
      reads this
    {
      Quantities.Quantity(value, dimensions)
    }

    /** `New(value, dims)`. */
    constructor (v: real, d: Dimensions)
      ensures Valid()
      ensures Snapshot() == Quantities.New(v, d)
    {
      value := v;
      dimensions := Normalize(d);
    }

    /** A fresh unit with the same magnitude and dimensions; the dimension
        vector is a value, so later changes to either unit are invisible to
        the other. */
    method Clone() returns (c: Unit)
      requires Valid()
      ensures fresh(c) && c.Valid()
      ensures c.Snapshot() == Snapshot()
    {
      c := new Unit(value, dimensions);
      NormalizeNormalized(dimensions);
    }

    /** In-place `Add`: the receiver's magnitude grows by `o`'s; the
        dimensions must match and stay as they are. */
    method Add(o: Unit) returns (r: Result<Unit>)
      requires Valid() && o.Valid()
      modifies this
      ensures Valid()
      ensures var want := Quantities.Add([Some(old(Snapshot())), Some(old(o.Snapshot()))]);
        && (r.Ok? <==> want.Ok?)
        && (r.Ok? ==> r.value == this && Snapshot() == want.value)
        && (r.Err? ==> r.error == want.error && Snapshot() == old(Snapshot()))
      ensures o != this ==> o.Snapshot() == old(o.Snapshot())
    {
      ghost var a, b := Snapshot(), o.Snapshot();
      Quantities.PairResults(a, b);
      if !Match(dimensions, o.dimensions) {
        return Err(DimensionMismatch);
      }
      value := value + o.value;
      return Ok(this);
    }

    /** In-place `Sub`: the receiver's magnitude shrinks by `o`'s; the
        dimensions must match and stay as they are. */
    method Sub(o: Unit) returns (r: Result<Unit>)
      requires Valid() && o.Valid()
      modifies this
      ensures Valid()
      ensures var want := Quantities.Sub([Some(old(Snapshot())), Some(old(o.Snapshot()))]);
        && (r.Ok? <==> want.Ok?)
        && (r.Ok? ==> r.value == this && Snapshot() == want.value)
        && (r.Err? ==> r.error == want.error && Snapshot() == old(Snapshot()))
      ensures o != this ==> o.Snapshot() == old(o.Snapshot())
    {
      ghost var a, b := Snapshot(), o.Snapshot();
      Quantities.PairResults(a, b);
      if !Match(dimensions, o.dimensions) {
        return Err(DimensionMismatch);
      }
      value := value - o.value;
      return Ok(this);
    }

    /** In-place `Mul`: magnitudes multiply and exponents add. */
    method Mul(o: Unit) returns (r: Unit)
      requires Valid() && o.Valid()
      modifies this
      ensures Valid() && r == this
      ensures Quantities.Mul([Some(old(Snapshot())), Some(old(o.Snapshot()))]) == Ok(Snapshot())
      ensures o != this ==> o.Snapshot() == old(o.Snapshot())
    {
      ghost var a, b := Snapshot(), o.Snapshot();
      Quantities.PairResults(a, b);
      ghost var product := Quantities.Quantity(a.value * b.value, Product(a.dims, b.dims));
      assert Quantities.Mul([Some(a), Some(b)]) == Ok(product);
      value, dimensions := value * o.value, Product(dimensions, o.dimensions);
      assert Snapshot() == product;
      return this;
    }

    /** In-place `Div`: magnitudes divide and exponents subtract; a zero
        divisor leaves the receiver unchanged. */
    method Div(o: Unit) returns (r: Result<Unit>)
      requires Valid() && o.Valid()
      modifies this
      ensures Valid()
      ensures var want := Quantities.Div([Some(old(Snapshot())), Some(old(o.Snapshot()))]);
        && (r.Ok? <==> want.Ok?)
        && (r.Ok? ==> r.value == this && Snapshot() == want.value)
        && (r.Err? ==> r.error == want.error && Snapshot() == old(Snapshot()))
      ensures o != this ==> o.Snapshot() == old(o.Snapshot())
    {
      ghost var a, b := Snapshot(), o.Snapshot();
      Quantities.PairResults(a, b);
      if o.value == 0.0 {
        return Err(DivisionByZero);
      }
      value, dimensions := value / o.value, Quotient(dimensions, o.dimensions);
      return Ok(this);
    }
  }
}
