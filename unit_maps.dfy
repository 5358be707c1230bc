/** The sparse-map representation of a unit: a map from base dimension to
    exponent beside the magnitude. Its dimension match never answers false:
    it returns true or panics, and it compares stored entries, so an explicit
    zero entry counts as a difference. `Mul` adds the argument's entries into
    the receiver's map one key at a time and keeps zero results. */
module UnitMaps {
  import opened Outcomes
  import opened DimensionVectors

  class UnitMap {
    /** `None` is Go's nil map, the zero value of a `UnitMap` built without
        one: it reads as empty, but storing into it panics. */
    var dimension: Option<map<Dim, int>>
    var value: real

    constructor (dimension: Option<map<Dim, int>>, value: real)
      ensures this.dimension == dimension && this.value == value
    {
      this.dimension, this.value := dimension, value;
    }

    /** The stored entries as Go reads them; a nil map has none. */
    function Entries(): (m: map<Dim, int>)
      reads this
      ensures dimension.Some? ==> m == dimension.value
      ensures dimension.None? ==> m == map[]
    {
      if dimension.None? then map[] else dimension.value
    }

    /** In-place `Add`: the dimension check panics on any difference of the
        stored maps; otherwise the magnitude grows by `a`'s and the receiver
        is returned. */
    method Add(a: UnitMap) returns (r: Result<UnitMap>)
      modifies this
      ensures r.Ok? <==> old(a.Entries()) == old(Entries())
      ensures r.Ok? ==> r.value == this && value == old(value) + old(a.value)
      ensures r.Err? ==> r.error == Panic("Unequal dimension") && value == old(value)
      ensures dimension == old(dimension)
      ensures a != this ==> unchanged(a)
    {
      var m := DimensionsMatchMap(a, this);
      SameEntriesIsEquality(a.Entries(), Entries());
      if m.Err? {
        return Err(m.error);
      }
      value := value + a.value;
      return Ok(this);
    }

    /** In-place `Mul`: for each key of `a`, the receiver's entry becomes its
        old exponent (0 when absent) plus `a`'s; keys only in the receiver keep
        their entry; zero results stay stored; magnitudes multiply. Storing
        the first key into a nil map panics before anything changes. */
    method Mul(a: UnitMap) returns (r: Result<UnitMap>)
      modifies this
      ensures r.Err? <==> old(dimension).None? && old(a.Entries()) != map[]
      ensures r.Err? ==> r.error == Panic("assignment to entry in nil map")
      ensures r.Err? ==> dimension == old(dimension) && value == old(value)
      ensures r.Ok? ==> r.value == this && value == old(value) * old(a.value)
      ensures r.Ok? ==> Entries() == Accumulate(old(Entries()), old(a.Entries()))
      ensures r.Ok? ==> (dimension.None? <==> old(dimension).None?)
      ensures a != this ==> unchanged(a)
    {
      var src := a.Entries();
      if dimension.None? {
        if src != map[] {
          return Err(Panic("assignment to entry in nil map"));
        }
        assert Accumulate(map[], map[]) == map[];
        value := value * a.value;
        return Ok(this);
      }
      ghost var start := dimension.value;
      var keys := src.Keys;
      while keys != {}
        invariant keys <= src.Keys
        invariant value == old(value) && a.value == old(a.value) && src == old(a.Entries())
        invariant dimension.Some?
        invariant dimension.value.Keys == start.Keys + (src.Keys - keys)
        invariant forall k :: k in dimension.value ==>
          dimension.value[k] == if k in src && k !in keys then Exp(start, k) + src[k] else start[k]
        decreases keys
      {
        var key :| key in keys;
        var m := dimension.value;
        dimension := Some(m[key := Exp(m, key) + src[key]]);
        keys := keys - {key};
      }
      value := value * a.value;
      return Ok(this);
    }
  }

  /** What `DimensionsMatchMap` accepts: the same number of stored entries,
      and every entry of `a` stored in `b` with the same exponent. */
  predicate SameEntries(a: map<Dim, int>, b: map<Dim, int>) {
    |a| == |b| && forall k :: k in a ==> k in b && b[k] == a[k]
  }

  /** `DimensionsMatchMap`: returns true, or panics with "Unequal dimension";
      it never returns false. */
  method DimensionsMatchMap(a: UnitMap, b: UnitMap) returns (r: Result<bool>)
    ensures r.Ok? <==> SameEntries(a.Entries(), b.Entries())
    ensures r.Ok? ==> r.value
    ensures r.Err? ==> r.error == Panic("Unequal dimension")
  {
    var ma, mb := a.Entries(), b.Entries();
    if |ma| != |mb| {
      return Err(Panic("Unequal dimension"));
    }
    var keys := ma.Keys;
    while keys != {}
      invariant keys <= ma.Keys
      invariant forall k :: k in ma && k !in keys ==> k in mb && mb[k] == ma[k]
      decreases keys
    {
      var key :| key in keys;
      if key !in mb || ma[key] != mb[key] {
        return Err(Panic("Unequal dimension"));
      }
      keys := keys - {key};
    }
    return Ok(true);
  }

  /** The map check accepts exactly equal maps. */
  lemma SameEntriesIsEquality(a: map<Dim, int>, b: map<Dim, int>)
    ensures SameEntries(a, b) <==> a == b
  {
    if SameEntries(a, b) {
      assert a.Keys <= b.Keys;
      assert |b.Keys - a.Keys| == |b.Keys| - |a.Keys| == 0;
      assert b.Keys - a.Keys == {};
      assert a.Keys == b.Keys;
    }
  }

  /** The receiver's map after `Mul`: every key of either map, holding the
      sum of the two exponents, zeros included. */
  function Accumulate(u: map<Dim, int>, a: map<Dim, int>): (r: map<Dim, int>)
    ensures r.Keys == u.Keys + a.Keys
    ensures forall k :: Exp(r, k) == Exp(u, k) + Exp(a, k)
  {
    map k | k in u.Keys + a.Keys :: Exp(u, k) + Exp(a, k)
  }

  /** Up to its stored zeros, the map after `Mul` is the product vector. */
  lemma AccumulateMatchesProduct(u: map<Dim, int>, a: map<Dim, int>)
    ensures Match(Accumulate(u, a), Product(u, a))
  {
  }

  /** Unlike vector matching, the map check sees an explicit zero entry: a
      map with one more, zero, entry matches as a vector but the map check
      panics. */
  lemma ZeroEntryBreaksMapMatch(d: map<Dim, int>, k: Dim)
    requires k !in d
    ensures Match(d[k := 0], d)
    ensures !SameEntries(d[k := 0], d)
  {
    ZeroPadding(d, k);
    MatchIsEquivalence(d, d[k := 0], d);
    SameEntriesIsEquality(d[k := 0], d);
    assert k in d[k := 0];
  }

  /** Multiplying metres by inverse metres leaves a stored zero, so the result
      fails the map check against a dimensionless unit it matches as a
      vector. */
  lemma MulKeepsZeroEntry()
    ensures Accumulate(map[LengthDim := 1], map[LengthDim := -1]) == map[LengthDim := 0]
    ensures Match(Accumulate(map[LengthDim := 1], map[LengthDim := -1]), map[])
    ensures !SameEntries(Accumulate(map[LengthDim := 1], map[LengthDim := -1]), map[])
  {
    var r := Accumulate(map[LengthDim := 1], map[LengthDim := -1]);
    assert r.Keys == {LengthDim};
    assert r == map[LengthDim := 0];
    ZeroEntryBreaksMapMatch(map[], LengthDim);
  }
}
