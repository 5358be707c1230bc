/** Quantities as values: a magnitude paired with a dimension vector, and the
    package's free functions `Add`, `Sub`, `Mul`, `Div`, `Max` and `Min`, which
    take a list of units whose first element may be a nil placeholder. */
module Quantities {
  import opened Outcomes
  import opened DimensionVectors

  /** A unit's state: its magnitude and its dimension vector. */
  datatype Quantity = Quantity(value: real, dims: Dimensions)

  /** `New`: the magnitude, and the dimension vector with its zero entries
      dropped. */
  function New(value: real, dims: Dimensions): (q: Quantity)
    ensures q.value == value && Normalized(q.dims)
    ensures q.dims.Keys <= dims.Keys
    ensures forall k :: Exp(q.dims, k) == Exp(dims, k)
  {
    Quantity(value, Normalize(dims))
  }

  /** A vector without zero entries is stored as given. */
  lemma NewKeepsNormalized(value: real, dims: Dimensions)
    requires Normalized(dims)
    ensures New(value, dims) == Quantity(value, dims)
  {
    NormalizeNormalized(dims);
  }

  /** `DimensionsMatch` on two units: their dimension vectors match. */
  predicate DimensionsMatch(a: Quantity, b: Quantity)
    ensures DimensionsMatch(a, b) <==> forall k :: Exp(a.dims, k) == Exp(b.dims, k)
  {
    Match(a.dims, b.dims)
  }

  /** The operand list of a free function; `None` is a nil pointer. */
  type Args = seq<Option<Quantity>>

  /** The operands once a leading nil placeholder is dropped. */
  function SkipLeadingNil(args: Args): Args {
    if |args| > 0 && args[0].None? then args[1..] else args
  }

  /** The operands themselves when none of them is nil. */
  function Present(xs: Args): (r: Option<seq<Quantity>>)
    ensures r.Some? <==> forall i :: 0 <= i < |xs| ==> xs[i].Some?
    ensures r.Some? ==> |r.value| == |xs| && forall i :: 0 <= i < |xs| ==> xs[i] == Some(r.value[i])
  {
    if xs == [] then Some([])
    else if xs[0].None? then None
    else match Present(xs[1..])
      case None => None
      case Some(rest) => Some([xs[0].value] + rest)
  }

  /** The operands a free function folds over: a leading nil is skipped, any
      later nil and an empty list are errors. */
  function Operands(args: Args): (r: Result<seq<Quantity>>)
    ensures r.Ok? <==> var xs := SkipLeadingNil(args);
      xs != [] && forall i :: 0 <= i < |xs| ==> xs[i].Some?
    ensures r.Ok? ==> |r.value| == |SkipLeadingNil(args)| > 0
    ensures r.Ok? ==> forall i :: 0 <= i < |r.value| ==> SkipLeadingNil(args)[i] == Some(r.value[i])
    ensures r.Err? ==> r.error == NoOperands || r.error == NilOperand
  {
    var xs := SkipLeadingNil(args);
    if xs == [] then Err(NoOperands)
    else match Present(xs)
      case None => Err(NilOperand)
      case Some(qs) => Ok(qs)
  }

  function SumValues(qs: seq<Quantity>): real {
    if qs == [] then 0.0 else qs[0].value + SumValues(qs[1..])
  }

  function ProductValues(qs: seq<Quantity>): real {
    if qs == [] then 1.0 else qs[0].value * ProductValues(qs[1..])
  }

  /** The sum of the exponents of `k` over all operands. */
  function SumExp(qs: seq<Quantity>, k: Dim): int {
    if qs == [] then 0 else Exp(qs[0].dims, k) + SumExp(qs[1..], k)
  }

  /** Every operand's dimensions match `d`. */
  predicate AllMatch(d: Dimensions, qs: seq<Quantity>) {
    forall i :: 0 <= i < |qs| ==> Match(d, qs[i].dims)
  }

  /** Every operand has a non-zero magnitude. */
  predicate NoZero(qs: seq<Quantity>) {
    forall i :: 0 <= i < |qs| ==> qs[i].value != 0.0
  }

  /** Adds `rest` into `acc` left to right; each operand must match. */
  function AddFold(acc: Quantity, rest: seq<Quantity>): (r: Result<Quantity>)
    ensures r.Ok? <==> AllMatch(acc.dims, rest)
    ensures r.Ok? ==> r.value.dims == acc.dims && r.value.value == acc.value + SumValues(rest)
    ensures r.Err? ==> r.error == DimensionMismatch
    decreases rest
  {
    if rest == [] then Ok(acc)
    else if !DimensionsMatch(acc, rest[0]) then Err(DimensionMismatch)
    else AddFold(Quantity(acc.value + rest[0].value, acc.dims), rest[1..])
  }

  /** Subtracts `rest` from `acc` left to right; each operand must match. */
  function SubFold(acc: Quantity, rest: seq<Quantity>): (r: Result<Quantity>)
    ensures r.Ok? <==> AllMatch(acc.dims, rest)
    ensures r.Ok? ==> r.value.dims == acc.dims && r.value.value == acc.value - SumValues(rest)
    ensures r.Err? ==> r.error == DimensionMismatch
    decreases rest
  {
    if rest == [] then Ok(acc)
    else if !DimensionsMatch(acc, rest[0]) then Err(DimensionMismatch)
    else SubFold(Quantity(acc.value - rest[0].value, acc.dims), rest[1..])
  }

  /** Multiplies `rest` into `acc` left to right: magnitudes multiply and
      exponents add. */
  function MulFold(acc: Quantity, rest: seq<Quantity>): (r: Quantity)
    ensures r.value == acc.value * ProductValues(rest)
    ensures forall k :: Exp(r.dims, k) == Exp(acc.dims, k) + SumExp(rest, k)
    ensures Normalized(acc.dims) ==> Normalized(r.dims)
    decreases rest
  {
    if rest == [] then acc
    else MulFold(Quantity(acc.value * rest[0].value, Product(acc.dims, rest[0].dims)), rest[1..])
  }

  /** Divides `acc` by each of `rest` left to right: magnitudes divide and
      exponents subtract; a zero divisor is an error. */
  function DivFold(acc: Quantity, rest: seq<Quantity>): (r: Result<Quantity>)
    ensures r.Ok? <==> NoZero(rest)
    ensures r.Ok? ==> r.value.value * ProductValues(rest) == acc.value
    ensures r.Ok? ==> forall k :: Exp(r.value.dims, k) == Exp(acc.dims, k) - SumExp(rest, k)
    ensures r.Ok? && Normalized(acc.dims) ==> Normalized(r.value.dims)
    ensures r.Err? ==> r.error == DivisionByZero
    decreases rest
  {
    if rest == [] then Ok(acc)
    else if rest[0].value == 0.0 then Err(DivisionByZero)
    else
      var next := Quantity(acc.value / rest[0].value, Quotient(acc.dims, rest[0].dims));
      var r := DivFold(next, rest[1..]);
      if r.Ok? then
        assert r.value.value * ProductValues(rest[1..]) == next.value;
        assert r.value.value * ProductValues(rest)
            == rest[0].value * (r.value.value * ProductValues(rest[1..]));
        r
      else r
  }

  /** Keeps the operand with the greatest magnitude; each operand must match. */
  function MaxFold(acc: Quantity, rest: seq<Quantity>): (r: Result<Quantity>)
    ensures r.Ok? <==> AllMatch(acc.dims, rest)
    ensures r.Ok? ==> r.value.value >= acc.value
    ensures r.Ok? ==> forall i :: 0 <= i < |rest| ==> r.value.value >= rest[i].value
    ensures r.Ok? ==> r.value == acc || r.value in rest
    ensures r.Err? ==> r.error == DimensionMismatch
    decreases rest
  {
    if rest == [] then Ok(acc)
    else if !DimensionsMatch(acc, rest[0]) then Err(DimensionMismatch)
    else MaxFold(if rest[0].value > acc.value then rest[0] else acc, rest[1..])
  }

  /** Keeps the operand with the least magnitude; each operand must match. */
  function MinFold(acc: Quantity, rest: seq<Quantity>): (r: Result<Quantity>)
    ensures r.Ok? <==> AllMatch(acc.dims, rest)
    ensures r.Ok? ==> r.value.value <= acc.value
    ensures r.Ok? ==> forall i :: 0 <= i < |rest| ==> r.value.value <= rest[i].value
    ensures r.Ok? ==> r.value == acc || r.value in rest
    ensures r.Err? ==> r.error == DimensionMismatch
    decreases rest
  {
    if rest == [] then Ok(acc)
    else if !DimensionsMatch(acc, rest[0]) then Err(DimensionMismatch)
    else MinFold(if rest[0].value < acc.value then rest[0] else acc, rest[1..])
  }

  /** Free `Add`: the sum of the operands' magnitudes, carrying the first
      operand's dimensions, provided every operand matches them. */
  function Add(args: Args): (r: Result<Quantity>)
    ensures r.Ok? <==> Operands(args).Ok? && AllMatch(Operands(args).value[0].dims, Operands(args).value)
    ensures r.Ok? ==> var qs := Operands(args).value;
      r.value.dims == qs[0].dims && r.value.value == SumValues(qs)
  {
    match Operands(args)
    case Err(e) => Err(e)
    case Ok(qs) => AddFold(qs[0], qs[1..])
  }

  /** Free `Sub`: the first magnitude minus all the others, carrying the
      first operand's dimensions, provided every operand matches them. */
  function Sub(args: Args): (r: Result<Quantity>)
    ensures r.Ok? <==> Operands(args).Ok? && AllMatch(Operands(args).value[0].dims, Operands(args).value)
    ensures r.Ok? ==> var qs := Operands(args).value;
      r.value.dims == qs[0].dims && r.value.value == qs[0].value - SumValues(qs[1..])
  {
    match Operands(args)
    case Err(e) => Err(e)
    case Ok(qs) => SubFold(qs[0], qs[1..])
  }

  /** Free `Mul`: the product of the magnitudes; each exponent is the sum of
      the operands' exponents. */
  function Mul(args: Args): (r: Result<Quantity>)
    ensures r.Ok? <==> Operands(args).Ok?
    ensures r.Ok? ==> var qs := Operands(args).value;
      r.value.value == ProductValues(qs) && forall k :: Exp(r.value.dims, k) == SumExp(qs, k)
  {
    match Operands(args)
    case Err(e) => Err(e)
    case Ok(qs) => Ok(MulFold(qs[0], qs[1..]))
  }

  /** Free `Div`: the first magnitude divided by all the others; each exponent
      is the first operand's minus the others'. */
  function Div(args: Args): (r: Result<Quantity>)
    ensures r.Ok? <==> Operands(args).Ok? && NoZero(Operands(args).value[1..])
    ensures r.Ok? ==> var qs := Operands(args).value;
      r.value.value * ProductValues(qs[1..]) == qs[0].value
      && forall k :: Exp(r.value.dims, k) == Exp(qs[0].dims, k) - SumExp(qs[1..], k)
  {
    match Operands(args)
    case Err(e) => Err(e)
    case Ok(qs) => DivFold(qs[0], qs[1..])
  }

  /** Free `Max`: the operand of greatest magnitude, provided every operand
      matches the first one's dimensions. */
  function Max(args: Args): (r: Result<Quantity>)
    ensures r.Ok? <==> Operands(args).Ok? && AllMatch(Operands(args).value[0].dims, Operands(args).value)
    ensures r.Ok? ==> var qs := Operands(args).value;
      r.value in qs && forall i :: 0 <= i < |qs| ==> r.value.value >= qs[i].value
  {
    match Operands(args)
    case Err(e) => Err(e)
    case Ok(qs) => MaxFold(qs[0], qs[1..])
  }

  /** Free `Min`: the operand of least magnitude, provided every operand
      matches the first one's dimensions. */
  function Min(args: Args): (r: Result<Quantity>)
    ensures r.Ok? <==> Operands(args).Ok? && AllMatch(Operands(args).value[0].dims, Operands(args).value)
    ensures r.Ok? ==> var qs := Operands(args).value;
      r.value in qs && forall i :: 0 <= i < |qs| ==> r.value.value <= qs[i].value
  {
    match Operands(args)
    case Err(e) => Err(e)
    case Ok(qs) => MinFold(qs[0], qs[1..])
  }

  /** A leading nil placeholder is skipped: prefixing one to a list that
      starts with a unit changes no free function's result. */
  lemma LeadingNilIsSkipped(xs: Args)
    requires xs != [] && xs[0].Some?
    ensures Add([None] + xs) == Add(xs) && Sub([None] + xs) == Sub(xs)
    ensures Mul([None] + xs) == Mul(xs) && Div([None] + xs) == Div(xs)
    ensures Max([None] + xs) == Max(xs) && Min([None] + xs) == Min(xs)
  {
    assert ([None] + xs)[1..] == xs;
  }

  /** Adding back what was subtracted restores the minuend. */
  lemma SubThenAdd(a: Quantity, b: Quantity)
    requires DimensionsMatch(a, b)
    ensures Sub([Some(a), Some(b)]).Ok?
    ensures Add([Some(Sub([Some(a), Some(b)]).value), Some(b)]) == Ok(a)
  {
    assert [Some(a), Some(b)][1..] == [Some(b)];
    var d := Sub([Some(a), Some(b)]).value;
    assert [Some(d), Some(b)][1..] == [Some(b)];
  }

  /** Dividing by what was multiplied in restores the first factor, both its
      magnitude and its dimensions. */
  lemma MulThenDiv(a: Quantity, b: Quantity)
    requires Normalized(a.dims) && b.value != 0.0
    ensures Mul([Some(a), Some(b)]).Ok?
    ensures Div([Some(Mul([Some(a), Some(b)]).value), Some(b)]) == Ok(a)
  {
    assert [Some(a), Some(b)][1..] == [Some(b)];
    var p := Mul([Some(a), Some(b)]).value;
    assert [Some(p), Some(b)][1..] == [Some(b)];
    var r := Div([Some(p), Some(b)]).value;
    assert r.value * b.value == a.value * b.value;
    forall k ensures Exp(r.dims, k) == Exp(a.dims, k) {
    }
    Extensionality(r.dims, a.dims);
  }

  lemma PairOperands(a: Quantity, b: Quantity)
    ensures Operands([Some(a), Some(b)]) == Ok([a, b])
  {
    var xs := [Some(a), Some(b)];
    assert SkipLeadingNil(xs) == xs;
    assert Present([Some(b)]) == Some([b]) by {
      var ys: Args := [Some(b)];
      assert ys[1..] == [];
      assert Present(ys[1..]) == Some([]);
      assert [ys[0].value] + [] == [b];
    }
    assert Present(xs) == Some([a, b]) by {
      assert xs[1..] == [Some(b)];
      assert [a] + [b] == [a, b];
    }
  }

  lemma AddFoldOne(a: Quantity, b: Quantity)
    ensures AddFold(a, [b]) == if DimensionsMatch(a, b) then Ok(Quantity(a.value + b.value, a.dims)) else Err(DimensionMismatch)
  {
    assert [b][1..] == [];
  }

  lemma SubFoldOne(a: Quantity, b: Quantity)
    ensures SubFold(a, [b]) == if DimensionsMatch(a, b) then Ok(Quantity(a.value - b.value, a.dims)) else Err(DimensionMismatch)
  {
    assert [b][1..] == [];
  }

  lemma MulFoldOne(a: Quantity, b: Quantity)
    ensures MulFold(a, [b]) == Quantity(a.value * b.value, Product(a.dims, b.dims))
  {
    assert [b][1..] == [];
  }

  lemma DivFoldOne(a: Quantity, b: Quantity)
    ensures DivFold(a, [b]) == if b.value == 0.0 then Err(DivisionByZero) else Ok(Quantity(a.value / b.value, Quotient(a.dims, b.dims)))
  {
    assert [b][1..] == [];
  }

  lemma MaxFoldOne(a: Quantity, b: Quantity)
    ensures MaxFold(a, [b]) == if !DimensionsMatch(a, b) then Err(DimensionMismatch) else Ok(if b.value > a.value then b else a)
  {
    assert [b][1..] == [];
  }

  lemma MinFoldOne(a: Quantity, b: Quantity)
    ensures MinFold(a, [b]) == if !DimensionsMatch(a, b) then Err(DimensionMismatch) else Ok(if b.value < a.value then b else a)
  {
    assert [b][1..] == [];
  }

  /** The free functions on two operands, spelled out. */
  lemma PairResults(a: Quantity, b: Quantity)
    ensures Add([Some(a), Some(b)])
      == if DimensionsMatch(a, b) then Ok(Quantity(a.value + b.value, a.dims)) else Err(DimensionMismatch)
    ensures Sub([Some(a), Some(b)])
      == if DimensionsMatch(a, b) then Ok(Quantity(a.value - b.value, a.dims)) else Err(DimensionMismatch)
    ensures Mul([Some(a), Some(b)]) == Ok(Quantity(a.value * b.value, Product(a.dims, b.dims)))
    ensures Div([Some(a), Some(b)])
      == if b.value == 0.0 then Err(DivisionByZero) else Ok(Quantity(a.value / b.value, Quotient(a.dims, b.dims)))
    ensures Max([Some(a), Some(b)])
      == if !DimensionsMatch(a, b) then Err(DimensionMismatch) else Ok(if b.value > a.value then b else a)
    ensures Min([Some(a), Some(b)])
      == if !DimensionsMatch(a, b) then Err(DimensionMismatch) else Ok(if b.value < a.value then b else a)
  {
    PairOperands(a, b);
    assert [a, b][1..] == [b];
    AddFoldOne(a, b);
    SubFoldOne(a, b);
    MulFoldOne(a, b);
    DivFoldOne(a, b);
    MaxFoldOne(a, b);
    MinFoldOne(a, b);
  }
}
