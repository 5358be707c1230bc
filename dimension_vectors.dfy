/** Dimension vectors: a map from the seven SI base dimensions to integer
    exponents, where a dimension absent from the map has exponent zero.
    Multiplying quantities adds exponents pointwise, dividing subtracts them,
    and two vectors match when every exponent agrees. */
module DimensionVectors {

  /** The seven SI base dimensions. */
  datatype Dim =
    | MassDim | LengthDim | TimeDim | CurrentDim
    | TemperatureDim | LuminosityDim | ChemAmtDim

  /** Exponent per base dimension; an absent key stands for exponent 0. */
  type Dimensions = map<Dim, int>

  /** The exponent of `k` in `d`, reading an absent key as 0. */
  function Exp(d: Dimensions, k: Dim): int {
    if k in d then d[k] else 0
  }

  /** No explicit zero entries: every stored exponent is non-zero. */
  predicate Normalized(d: Dimensions) {
    forall k :: k in d ==> d[k] != 0
  }

  /** All exponents are zero: the vector of a dimensionless quantity. */
  predicate Dimensionless(d: Dimensions) {
    forall k :: Exp(d, k) == 0
  }

  /** Drops the explicit zero entries, keeping every exponent. */
  function Normalize(d: Dimensions): (r: Dimensions)
    ensures Normalized(r)
    ensures r.Keys <= d.Keys
    ensures forall k :: Exp(r, k) == Exp(d, k)
  {
    map k | k in d && d[k] != 0 :: d[k]
  }

  /** Two normalized vectors with the same exponents are the same map. */
  lemma {:induction false} Extensionality(a: Dimensions, b: Dimensions)
    requires Normalized(a) && Normalized(b)
    requires forall k :: Exp(a, k) == Exp(b, k)
    ensures a == b
  {
    forall k ensures k in a <==> k in b {
      assert Exp(a, k) == Exp(b, k);
    }
    assert a.Keys == b.Keys;
    forall k | k in a ensures a[k] == b[k] {
      assert Exp(a, k) == Exp(b, k);
    }
  }

  /** Normalizing a vector that has no zero entries changes nothing. */
  lemma NormalizeNormalized(d: Dimensions)
    requires Normalized(d)
    ensures Normalize(d) == d
  {
    Extensionality(Normalize(d), d);
  }

  /** Two vectors without zero entries are equal exactly when every
      exponent agrees. */
  lemma NormalizedEqualIff(a: Dimensions, b: Dimensions)
    requires Normalized(a) && Normalized(b)
    ensures a == b <==> forall k :: Exp(a, k) == Exp(b, k)
  {
    if forall k :: Exp(a, k) == Exp(b, k) {
      Extensionality(a, b);
    }
  }

  /** Dimension compatibility (`DimensionsMatch`): equal once zero entries
      are dropped, that is, every base dimension has the same exponent in
      both, absent and zero being the same. */
  predicate Match(a: Dimensions, b: Dimensions)
    ensures Match(a, b) <==> forall k :: Exp(a, k) == Exp(b, k)
  {
    NormalizedEqualIff(Normalize(a), Normalize(b));
    Normalize(a) == Normalize(b)
  }

  /** One differing exponent is enough to make two vectors mismatch. */
  lemma MismatchAt(a: Dimensions, b: Dimensions, k: Dim)
    requires Exp(a, k) != Exp(b, k)
    ensures !Match(a, b)
  {
  }

  /** Match is an equivalence relation. */
  lemma MatchIsEquivalence(a: Dimensions, b: Dimensions, c: Dimensions)
    ensures Match(a, a)
    ensures Match(a, b) ==> Match(b, a)
    ensures Match(a, b) && Match(b, c) ==> Match(a, c)
  {
  }

  /** Adding an explicit zero entry does not change what a vector matches. */
  lemma ZeroPadding(a: Dimensions, k: Dim)
    requires k !in a
    ensures Match(a, a[k := 0])
  {
    assert forall j :: Exp(a[k := 0], j) == Exp(a, j);
  }

  /** On vectors without zero entries, matching is map equality. */
  lemma MatchNormalizedIsEquality(a: Dimensions, b: Dimensions)
    requires Normalized(a) && Normalized(b)
    ensures Match(a, b) <==> a == b
  {
    NormalizeNormalized(a);
    NormalizeNormalized(b);
  }

  /** The vector of a product: exponents add pointwise. */
  function Product(a: Dimensions, b: Dimensions): (r: Dimensions)
    ensures Normalized(r)
    ensures forall k :: Exp(r, k) == Exp(a, k) + Exp(b, k)
  {
    Normalize(map k | k in a.Keys + b.Keys :: Exp(a, k) + Exp(b, k))
  }

  /** The vector of a quotient: exponents subtract pointwise. */
  function Quotient(a: Dimensions, b: Dimensions): (r: Dimensions)
    ensures Normalized(r)
    ensures forall k :: Exp(r, k) == Exp(a, k) - Exp(b, k)
  {
    Normalize(map k | k in a.Keys + b.Keys :: Exp(a, k) - Exp(b, k))
  }

  /** The vector of a reciprocal: every exponent negated. */
  function Negate(a: Dimensions): (r: Dimensions)
    ensures Normalized(r)
    ensures forall k :: Exp(r, k) == -Exp(a, k)
  {
    Normalize(map k | k in a :: -a[k])
  }

  /** Multiplication of dimensions is commutative. */
  lemma ProductCommutes(a: Dimensions, b: Dimensions)
    ensures Product(a, b) == Product(b, a)
  {
    Extensionality(Product(a, b), Product(b, a));
  }

  /** Multiplication of dimensions is associative. */
  lemma ProductAssociates(a: Dimensions, b: Dimensions, c: Dimensions)
    ensures Product(Product(a, b), c) == Product(a, Product(b, c))
  {
    Extensionality(Product(Product(a, b), c), Product(a, Product(b, c)));
  }

  /** The empty vector is the identity of multiplication and division. */
  lemma EmptyIsIdentity(a: Dimensions)
    ensures Product(a, map[]) == Normalize(a)
    ensures Product(map[], a) == Normalize(a)
    ensures Quotient(a, map[]) == Normalize(a)
  {
    Extensionality(Product(a, map[]), Normalize(a));
    Extensionality(Product(map[], a), Normalize(a));
    Extensionality(Quotient(a, map[]), Normalize(a));
  }

  /** Dividing by `b` undoes multiplying by `b`. */
  lemma QuotientUndoesProduct(a: Dimensions, b: Dimensions)
    ensures Quotient(Product(a, b), b) == Normalize(a)
  {
    Extensionality(Quotient(Product(a, b), b), Normalize(a));
  }

  /** Dividing by `b` is multiplying by the reciprocal of `b`. */
  lemma QuotientIsProductWithNegation(a: Dimensions, b: Dimensions)
    ensures Quotient(a, b) == Product(a, Negate(b))
  {
    Extensionality(Quotient(a, b), Product(a, Negate(b)));
  }

  /** A vector times its reciprocal is dimensionless. */
  lemma ProductWithNegationIsEmpty(a: Dimensions)
    ensures Product(a, Negate(a)) == map[]
  {
    Extensionality(Product(a, Negate(a)), map[]);
  }

  /** Multiplication and division see only exponents, so matching operands
      give the same result. */
  lemma ProductRespectsMatch(a: Dimensions, a': Dimensions, b: Dimensions, b': Dimensions)
    requires Match(a, a') && Match(b, b')
    ensures Product(a, b) == Product(a', b')
    ensures Quotient(a, b) == Quotient(a', b')
  {
    Extensionality(Product(a, b), Product(a', b'));
    Extensionality(Quotient(a, b), Quotient(a', b'));
  }
}
