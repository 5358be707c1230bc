# Dimensional analysis for units: a Dafny model

This project models the core of a Go dimensional-analysis library. A physical
quantity (a *unit*) is a magnitude paired with a *dimension vector*: the
integer exponents of the seven SI base dimensions (mass, length, time,
current, temperature, luminosity, chemical amount). Multiplying quantities
adds exponents, dividing subtracts them, and adding, subtracting or comparing
quantities needs matching dimensions. The vector renders as text such as
`kg^2 s^-1`. A typed `Length` converts from any unit-like value with `From`,
which stores NaN and returns "Dimension mismatch" when the dimensions differ.

Modules, one per component:

- `DimensionVectors` (`dimension_vectors.dfy`): the `Dim` enumeration, the
  vector as `map<Dim, int>` with absent keys read as exponent 0, matching,
  product, quotient and reciprocal, with their algebraic laws.
- `Rendering` (`rendering.dfy`): the canonical text of a vector. Integer
  exponents are printed in decimal, and a parser reads them back.
- `DimensionTable` (`dimension_table.dfy`): the named vectors of
  `dimensions.go` (`Joule`, `Pascal`, `Watt`, ...) and the relations between them.
- `Quantities` (`quantities.dfy`): a unit as a value, `New`, and the free
  functions `Add`, `Sub`, `Mul`, `Div`, `Max` and `Min`. These take an operand
  list whose first element may be a nil placeholder (`None`).
- `Units` (`units.dfy`): the mutable unit object. Its in-place `Add`, `Sub`,
  `Mul` and `Div` return the receiver. `Clone` copies it.
- `UnitStructs`, `UnitMaps` (`unit_structs.dfy`, `unit_maps.dfy`): the two
  alternative representations in `unit_test.go`. One is a seven-field record.
  The other is a sparse map, possibly nil, whose match panics instead of
  returning false.
- `Lengths` (`lengths.dfy`): `Length` as `Finite(real) | NaN`, the scale
  constants, `Length.Unit()`, `Length()` and `From`.
- `UnitTestTables` (`unit_test_tables.dfy`): the test tables of
  `unit_test.go`, stated as lemmas and as one method.
- `Outcomes` (`outcomes.dfy`): `Option`, `Result` and the error kinds. A Go
  panic is the error `Panic(msg)`.

`Meter` has two meanings in the package. `DimensionTable.Meter` is the
dimension vector from `dimensions.go`. `Lengths.Meter` is the `Length`
constant 1. `From` uses `Lengths.Meter`.

## Model

| member | source | states |
|---|---|---|
| `DimensionVectors.Normalize` | unit_test.go:61-62 | drops explicit zero entries; the result has no zero entry and every exponent is unchanged |
| `DimensionVectors.Match` | unit_test.go:221-243 | `DimensionsMatch` on vectors: two vectors match iff every base dimension has the same exponent, absent counting as 0 (both directions) |
| `DimensionVectors.MismatchAt` | unit_test.go:230-234 | one differing exponent makes two vectors mismatch |
| `DimensionVectors.MatchIsEquivalence` | unit_test.go:221-243 | matching is reflexive, symmetric and transitive |
| `DimensionVectors.ZeroPadding` | unit_test.go:21 | adding an explicit zero entry for an absent dimension does not change matching |
| `DimensionVectors.MatchNormalizedIsEquality` | unit_test.go:56-79 | for vectors without zero entries, as `New` stores them, matching is map equality |
| `DimensionVectors.Product` | unit_test.go:111-122 | the product vector has every exponent equal to the sum of the operands' and stores no zero |
| `DimensionVectors.Quotient` | unit_test.go:123-128 | the quotient vector has every exponent equal to the difference of the operands' and stores no zero |
| `DimensionVectors.Negate` | dimensions.go:43-48 | the reciprocal vector negates every exponent |
| `DimensionVectors.ProductCommutes` | unit_test.go:111-122 | the product of vectors does not depend on operand order |
| `DimensionVectors.ProductAssociates` | unit_test.go:111-122 | the product of vectors is associative, so folding many operands is well defined |
| `DimensionVectors.EmptyIsIdentity` | dimensions.go:6 | the empty vector is the identity of product and quotient |
| `DimensionVectors.QuotientUndoesProduct` | unit_test.go:111-128 | dividing by `b` undoes multiplying by `b` |
| `DimensionVectors.QuotientIsProductWithNegation` | unit_test.go:123-128 | dividing is multiplying by the reciprocal |
| `DimensionVectors.ProductWithNegationIsEmpty` | unit_test.go:123-128 | a vector times its reciprocal cancels to the empty vector, as the `Div` test's empty dimensions show |
| `DimensionVectors.ProductRespectsMatch` | unit_test.go:21 | product and quotient only see exponents, so explicit zero entries do not change them |
| `Rendering.IntRoundTrip` | unit_test.go:22 | the decimal text of an exponent reads back as that exponent, negatives included |
| `Rendering.RenderRespectsMatch` | unit_test.go:21 | matching vectors render identically; an explicit zero entry is invisible |
| `Rendering.Render` | unit_test.go:123-128 | `Dimensions.String()`: the text is empty iff every exponent is zero, as the dimensionless `Div` result shows |
| `Rendering.ParseRender` | unit_test.go:18-37 | reading a rendering back (split at spaces, symbol, optional `^` exponent) gives the vector without its zero entries |
| `Rendering.RenderIsCanonical` | unit_test.go:18-37 | two vectors render the same text iff they match (both directions), so the tables' string checks decide the dimensions |
| `Rendering.RenderKgPerS2` | unit_test.go:18-21 | `{MassDim: 1, TimeDim: -2}` renders `kg s^-2`, also with an explicit zero length entry |
| `Rendering.RenderKg2PerS` | unit_test.go:22-24 | `{MassDim: 2, TimeDim: -1}` renders `kg^2 s^-1`: exponent 2 is written, mass comes before time |
| `Rendering.RenderMPerS2` | unit_test.go:92-98 | `{LengthDim: 1, TimeDim: -2}` renders `m s^-2`: exponent 1 is omitted, length before time |
| `Rendering.RenderM2PerS4` | unit_test.go:111-116 | `{LengthDim: 2, TimeDim: -4}` renders `m^2 s^-4` |
| `Rendering.RenderSingle` | unit_test.go:29-37 | a single base dimension to the first power renders as its bare symbol (`kg`, `m`, `s`, ...) |
| `DimensionTable.TableIsNormalized` | dimensions.go:5-49 | every named vector stores only non-zero exponents |
| `DimensionTable.UnitlessIsIdentity` | dimensions.go:6 | `Unitless` is dimensionless and the identity of product and quotient |
| `DimensionTable.MeterPowers` | dimensions.go:12-22 | `Meter2` is `Meter` times `Meter`; `Meter3` is `Meter2` times `Meter` |
| `DimensionTable.PascalExponents` | dimensions.go:28-33 | `Pascal` is mass 1, length -1, time -2 and nothing else, as its comment `[kg m-1 s-2]` says |
| `DimensionTable.HerzIsReciprocalSecond` | dimensions.go:43-48 | `Herz` is the reciprocal of `Second`; their product is `Unitless` |
| `DimensionTable.WattIsJoulePerSecond` | dimensions.go:38-42 | `Watt` is `Joule` divided by `Second` |
| `DimensionTable.DensityIsKilogramPerMeter3` | dimensions.go:23-27 | `KilogramPerMeter3` is `Kilogram` divided by `Meter3` |
| `DimensionTable.PascalTimesMeter3IsJoule` | dimensions.go:28-33 | `Pascal` times `Meter3` is `Joule` |
| `Quantities.New` | unit_test.go:56-79 | `New` keeps the magnitude and stores the vector without zero entries, every exponent unchanged |
| `Quantities.DimensionsMatch` | unit_test.go:236-242 | `DimensionsMatch` on units: true iff every exponent of the two units agrees, magnitudes ignored |
| `Quantities.NewKeepsNormalized` | unit_test.go:61 | a vector without zero entries is stored exactly as given |
| `Quantities.Present` | unit_test.go:99-104 | the operand list without nils exists iff no element is nil, and holds exactly the pointed-to units |
| `Quantities.Operands` | unit_test.go:99-104 | one leading nil is skipped; an empty remainder or a later nil is an error |
| `Quantities.AddFold` | unit_test.go:93-98 | left-to-right addition succeeds iff every operand matches the accumulator; result keeps its dimensions and adds the sum |
| `Quantities.SubFold` | unit_test.go:105-110 | left-to-right subtraction succeeds iff every operand matches; result keeps the dimensions and subtracts the sum |
| `Quantities.MulFold` | unit_test.go:111-122 | left-to-right multiplication multiplies magnitudes and adds every exponent over all operands |
| `Quantities.DivFold` | unit_test.go:123-128 | left-to-right division succeeds iff no divisor is zero; result times the divisors' product is the dividend, exponents subtract |
| `Quantities.MaxFold` | unit_test.go:129-140 | keeps an operand whose magnitude is at least every other's, provided all match |
| `Quantities.MinFold` | unit_test.go:141-152 | keeps an operand whose magnitude is at most every other's, provided all match |
| `Quantities.Add` | unit_test.go:93-104 | free `Add` succeeds iff the operands are present and match the first; result carries the first's dimensions and the sum of all magnitudes |
| `Quantities.Sub` | unit_test.go:105-110 | free `Sub`: the first magnitude minus the rest, first operand's dimensions, all operands matching |
| `Quantities.Mul` | unit_test.go:111-122 | free `Mul`: product of magnitudes; each exponent is the sum over all operands |
| `Quantities.Div` | unit_test.go:123-128 | free `Div`: the result times the divisors' product is the first magnitude; each exponent is the first's minus the rest |
| `Quantities.Max` | unit_test.go:129-140 | free `Max`: one of the operands, with magnitude at least every operand's, all operands matching |
| `Quantities.Min` | unit_test.go:141-152 | free `Min`: one of the operands, with magnitude at most every operand's, all operands matching |
| `Quantities.LeadingNilIsSkipped` | unit_test.go:99-104 | prefixing a nil to a list that starts with a unit changes no free function's result |
| `Quantities.SubThenAdd` | unit_test.go:93-110 | adding back what `Sub` subtracted restores the first operand |
| `Quantities.MulThenDiv` | unit_test.go:111-128 | dividing by what `Mul` multiplied in restores the first operand, magnitude and dimensions |
| `Quantities.PairResults` | unit_test.go:92-153 | the six free functions on two operands, spelled out, including their error cases |
| `Units.Unit.constructor` | unit_test.go:56-79 | a new unit equals `New(value, dims)` and stores no zero exponent |
| `Units.Unit.Clone` | unit_test.go:207-209 | a fresh unit with the same magnitude and dimensions |
| `Units.Unit.Add` | unit_test.go:178-184 | in-place `Add` gives the free `Add` of the old receiver and argument, returns the receiver, leaves the argument as it was |
| `Units.Unit.Sub` | unit_test.go:185-191 | in-place `Sub` gives the free `Sub` of the old values, returns the receiver, leaves the argument as it was |
| `Units.Unit.Mul` | unit_test.go:192-198 | in-place `Mul` gives the free `Mul` of the old values, returns the receiver, leaves the argument as it was |
| `Units.Unit.Div` | unit_test.go:199-205 | in-place `Div` gives the free `Div` of the old values, returns the receiver, leaves the argument as it was |
| `UnitTestTables.InitializationTable` | unit_test.go:56-79 | `New` keeps 9.81 and stores only `{MassDim: 1, TimeDim: -2}`, two entries, even when zero entries are passed |
| `UnitTestTables.DimensionEqualityTable` | unit_test.go:221-243 | the eight tabled pairs match or mismatch as the table says |
| `UnitTestTables.SameDimensionOpTable` | unit_test.go:92-110 | `Add`, `Sub`, `Max`, `Min` of 10 and 2 `m s^-2` give 12, 8, 10, 2 in `m s^-2`, with or without a leading nil |
| `UnitTestTables.MulOpTable` | unit_test.go:111-122 | `Mul` of 10 and 2 `m s^-2` gives 20 `m^2 s^-4` |
| `UnitTestTables.DivOpTable` | unit_test.go:123-128 | `Div` of 10 and 2 `m s^-2` gives 5 with dimensions rendering as the empty string |
| `UnitTestTables.OpInPlaceTable` | unit_test.go:167-219 | in-place ops on clones of 10 `m s^-2` give 12, 8, 20 `m^2 s^-4` and 5 dimensionless; the original stays 10 `m s^-2` |
| `UnitStructs.UnitStruct.constructor` | unit_test.go:249-258 | a struct literal sets all seven exponent fields and the magnitude |
| `UnitStructs.UnitStruct.Dims` | unit_test.go:249-258 | the record's fields read as a dimension vector without zero entries |
| `UnitStructs.DimensionsMatchStruct` | unit_test.go:261-286 | true iff all seven exponent fields are equal; the magnitudes play no part |
| `UnitStructs.MatchStructIsMatch` | unit_test.go:261-286 | the record comparison agrees with vector matching of the encoded vectors |
| `UnitStructs.MatchStructReflexiveSymmetric` | unit_test.go:261-286 | the record comparison is reflexive and symmetric |
| `UnitStructs.UnitStruct.Add` | unit_test.go:292-299 | panics iff dimensions differ; else adds the argument's magnitude and returns the receiver; exponents and argument unchanged |
| `UnitStructs.UnitStruct.Mul` | unit_test.go:301-312 | each exponent becomes the sum of both operands', magnitude the product; equals the vector product; returns the receiver |
| `UnitMaps.UnitMap.constructor` | unit_test.go:348-351 | a unit map with the given map, or a nil map, and magnitude |
| `UnitMaps.UnitMap.Entries` | unit_test.go:348-351 | the stored entries as Go reads them: a nil map reads as empty |
| `UnitMaps.DimensionsMatchMap` | unit_test.go:354-367 | never returns false: true iff equal sizes and every entry of `a` stored equally in `b` (a nil map reading as empty), else a panic "Unequal dimension" |
| `UnitMaps.SameEntriesIsEquality` | unit_test.go:357-365 | the map check accepts exactly equal maps |
| `UnitMaps.UnitMap.Add` | unit_test.go:373-380 | panics unless the stored maps are equal; else adds the magnitude and returns the receiver; the map is unchanged |
| `UnitMaps.UnitMap.Mul` | unit_test.go:382-389 | panics with "assignment to entry in nil map", changing nothing, iff the receiver's map is nil and `a` has an entry; otherwise the entries become `Accumulate` of the old ones, magnitude the product, receiver returned; argument unchanged |
| `UnitMaps.Accumulate` | unit_test.go:384-386 | keys of either map, each holding the sum of both exponents, zero sums kept |
| `UnitMaps.AccumulateMatchesProduct` | unit_test.go:382-389 | up to stored zeros, the map after `Mul` is the product vector |
| `UnitMaps.ZeroEntryBreaksMapMatch` | unit_test.go:357-365 | an extra zero entry still matches as a vector but fails the map check |
| `UnitMaps.MulKeepsZeroEntry` | unit_test.go:384-386 | `{LengthB: 1}` times `{LengthB: -1}` leaves `{LengthB: 0}`, which then fails the map check against `{}` |
| `Lengths.Length.AsLength` | length.go:41-44 | `Length()` returns the length itself |
| `Lengths.ScalesArePowersOfTen` | length.go:12-34 | `Meter` is 1 and each scale constant is its SI prefix's power of ten times `Meter` |
| `Lengths.ScalesStrictlyDecrease` | length.go:12-34 | the scale constants strictly decrease from `Yottameter` to `Yoctometer` |
| `Lengths.LengthUnitIsMass` | length.go:36-39 | `Length.Unit()` keeps the value and attaches `{MassDim: 1}`, which does not match a metre |
| `Lengths.LengthRef.From` | length.go:46-55 | writes through the target as `Convert` says; the old value plays no part |
| `Lengths.Convert` | length.go:46-55 | `From` fails iff the dimensions differ from `Length.Unit()`'s, storing NaN and "Dimension mismatch"; else stores exactly `u`'s magnitude and returns nil |
| `Lengths.ConvertIgnoresMagnitude` | length.go:49 | whether `From` succeeds depends on the dimensions only, never on the magnitude |
| `Lengths.ConvertAsWritten` | length.go:37-55 | as written, `From` accepts a mass-dimensioned unit and rejects a metre-dimensioned one |
| `Lengths.ConvertRoundTrip` | length.go:37-55 | converting any length, NaN included, succeeds and stores that same length |
| `Lengths.ConvertIntendedAcceptsMeters` | length.go:9-10 | with length dimensions, `From` accepts exactly metre-matching units, still round-trips lengths, and rejects a mass |

## Left out

- The unit type's own source file is not part of this model. Its behaviour is taken from the test tables in `unit_test.go`. Wherever the tables say nothing, the model makes a choice: a dimension mismatch gives the error `DimensionMismatch` rather than a panic; only one leading nil is skipped; a later nil gives `NilOperand`; an empty list gives `NoOperands`.
- Quantities.Div: a zero divisor gives the error `DivisionByZero`. The Go code gives an IEEE infinity or NaN, which real magnitudes cannot hold.
- Units.Unit.Div: a zero divisor gives `DivisionByZero` and leaves the receiver unchanged, for the same reason.
- Quantities.Max: when magnitudes tie, the earlier operand is kept. The tables do not say which one the source keeps.
- Quantities.Min: when magnitudes tie, the earlier operand is kept, for the same reason.
- DimensionVectors.Product: exponents are unbounded integers. Go stores them as 64-bit `int`, which wraps on overflow. The wrap-around is not modelled in `DimensionVectors.Product`, `DimensionVectors.Quotient`, `DimensionVectors.Negate`, `Quantities.Mul`, `Quantities.Div`, `Units.Unit.Mul` or `Units.Unit.Div`.
- UnitStructs.UnitStruct.Mul: exponents are unbounded integers, so the wrap-around of Go's 64-bit `int` when an exponent sum overflows is not modelled.
- UnitMaps.UnitMap.Mul: exponents are unbounded integers here as well, so 64-bit `int` overflow of an accumulated exponent is not modelled.
- Rendering.Parse: it accepts more text than `Render` produces, such as `kg^1` or a repeated symbol. It exists only to read renderings back, and nothing is claimed about other text.
- Magnitudes are exact reals. Float64 rounding, infinities and NaN are not modelled, except the NaN that `From` stores in a `Length`.
- Number formatting is left out: `Length.Format` (length.go:57-80), the numeric part of the format tests, and the `%#v` and bad-verb forms. Only the dimension suffix is modelled, by `Rendering.Render`.
- `TestGoStringFormat` (unit_test.go:48-54) is left out. It prints a Go struct dump whose entry order follows map iteration.
- The benchmarks (unit_test.go:316-330, 391-490) are left out. They only time the methods already modelled.
- `badunit/badunit.go` is left out. It only scales a number before calling `New`.
- The rendering order beyond what the tests fix is a choice: mass, length, time, current, temperature, luminosity, amount. The tests only require `kg` and `m` before `s`.
- gonum's numbering of dimensions is not modelled. One seven-value `Dim` enumeration serves for the library's dimensions and for the `dimensionMap` keys of `UnitMap`.
- A Go map is a reference. Two `UnitMap`s sharing one map would both see a `Mul`. Dafny maps are values, so the model does not capture this sharing.
- `Uniter` is modelled only by its two implementers here, a unit and a `Length`. `Length.Unit()` is given by the dimensions and value it yields (`UnitDims`, `UnitValue`), so that a NaN length can still be converted.

## Findings

| source | as written | input that shows it | evidently intended | confidence | as-written member | corrected member |
|---|---|---|---|---|---|---|
| length.go:38 | `Length.Unit()` attaches `{MassDim: 1}` to every length, so `From` (length.go:49) compares against mass | `From(New(1, {LengthDim: 1}))` stores NaN and returns "Dimension mismatch", while `From(New(1, {MassDim: 1}))` succeeds | `{LengthDim: 1}`, since a `Length` is "a length in meters" (length.go:9) and formats with the suffix ` m` | high; not executed | `Lengths.ConvertAsWritten` | `Lengths.ConvertIntendedAcceptsMeters` |
