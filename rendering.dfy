/** The canonical text of a dimension vector, such as `kg^2 s^-1`: the base
    dimensions in a fixed order, each non-zero one as its symbol followed by
    `^n` unless the exponent is 1, joined by single spaces. */
module Rendering {
  import opened Outcomes
  import opened DimensionVectors

  predicate IsDigit(c: char) {
    '0' <= c <= '9'
  }

  /** A non-empty run of decimal digits. */
  predicate IsDigits(s: string) {
    |s| > 0 && forall i :: 0 <= i < |s| ==> IsDigit(s[i])
  }

  function DigitChar(n: nat): (c: char)
    requires n < 10
    ensures IsDigit(c)
  {
    (n + '0' as int) as char
  }

  function DigitValue(c: char): (n: nat)
    requires IsDigit(c)
    ensures n < 10
  {
    c as int - '0' as int
  }

  /** Decimal digits of `n`, most significant first, without leading zeros. */
  function NatToString(n: nat): (s: string)
    ensures IsDigits(s)
    ensures s[0] == '0' ==> n == 0
  {
    if n < 10 then [DigitChar(n)] else NatToString(n / 10) + [DigitChar(n % 10)]
  }

  /** Decimal text of an integer, with a leading `-` when it is negative. */
  function IntToString(i: int): (s: string)
    ensures |s| > 0
  {
    if i < 0 then "-" + NatToString(-i) else NatToString(i)
  }

  /** The value of a run of decimal digits. */
  function ParseNat(s: string): nat
    requires IsDigits(s)
  {
    if |s| == 1 then DigitValue(s[0])
    else ParseNat(s[..|s| - 1]) * 10 + DigitValue(s[|s| - 1])
  }

  /** The inverse of IntToString on its range. */
  function ParseInt(s: string): int
    requires IsIntText(s)
  {
    if s[0] == '-' then -(ParseNat(s[1..]) as int) else ParseNat(s)
  }

  lemma {:induction false} NatRoundTrip(n: nat)
    ensures ParseNat(NatToString(n)) == n
  {
    if n >= 10 {
      var s := NatToString(n);
      assert s[..|s| - 1] == NatToString(n / 10);
      NatRoundTrip(n / 10);
    }
  }

  /** Reading back the text of an integer gives the integer. */
  lemma IntRoundTrip(i: int)
    ensures var s := IntToString(i);
      IsIntText(s) && ParseInt(s) == i
  {
    if i < 0 {
      assert IntToString(i)[1..] == NatToString(-i);
      NatRoundTrip(-i);
    } else {
      NatRoundTrip(i);
    }
  }

  /** The unit symbol of each base dimension. */
  function Symbol(k: Dim): (s: string)
    ensures |s| > 0
  {
    match k
    case MassDim => "kg"
    case LengthDim => "m"
    case TimeDim => "s"
    case CurrentDim => "A"
    case TemperatureDim => "K"
    case LuminosityDim => "cd"
    case ChemAmtDim => "mol"
  }

  /** The fixed order in which base dimensions are rendered. */
  const RenderOrder: seq<Dim> :=
    [MassDim, LengthDim, TimeDim, CurrentDim, TemperatureDim, LuminosityDim, ChemAmtDim]

  lemma RenderOrderIsComplete(k: Dim)
    ensures k in RenderOrder
  {
  }

  /** One rendered dimension: its symbol, and `^e` unless `e` is 1. */
  function Atom(k: Dim, e: int): (s: string)
    ensures |s| > 0
  {
    if e == 1 then Symbol(k) else Symbol(k) + "^" + IntToString(e)
  }

  /** The atoms of the non-zero dimensions of `d`, in the given order. */
  function Atoms(d: Dimensions, order: seq<Dim>): seq<string> {
    if order == [] then []
    else
      var e := Exp(d, order[0]);
      (if e == 0 then [] else [Atom(order[0], e)]) + Atoms(d, order[1..])
  }

  /** Joins the parts with single spaces. */
  function Join(parts: seq<string>): string {
    if parts == [] then ""
    else if |parts| == 1 then parts[0]
    else parts[0] + " " + Join(parts[1..])
  }

  // Reading a rendering back: split at spaces, split each atom at `^`,
  // look the symbol up and read the exponent.

  /** The index of the first `c` in `s`, or `|s|` when there is none. */
  function IndexOf(s: string, c: char): (i: nat)
    ensures i <= |s|
    ensures forall j :: 0 <= j < i ==> s[j] != c
    ensures i < |s| ==> s[i] == c
  {
    if s == [] then 0
    else if s[0] == c then 0
    else 1 + IndexOf(s[1..], c)
  }

  lemma IndexOfSeparator(x: string, c: char, y: string)
    requires c !in x
    ensures IndexOf(x + [c] + y, c) == |x|
  {
    var s := x + [c] + y;
    assert s[|x|] == c;
    assert forall j :: 0 <= j < |x| ==> s[j] == x[j];
  }

  /** The space-separated parts of `s`. */
  function Split(s: string): seq<string>
    decreases |s|
  {
    if s == [] then []
    else
      var i := IndexOf(s, ' ');
      if i == |s| then [s] else [s[..i]] + Split(s[i + 1..])
  }

  /** `Split` undoes `Join` on non-empty parts without spaces. */
  lemma {:induction false} SplitJoin(parts: seq<string>)
    requires forall i :: 0 <= i < |parts| ==> |parts[i]| > 0 && ' ' !in parts[i]
    ensures Split(Join(parts)) == parts
  {
    if |parts| == 1 {
      assert IndexOf(parts[0], ' ') == |parts[0]|;
    } else if |parts| > 1 {
      var s := Join(parts);
      var rest := Join(parts[1..]);
      assert s == parts[0] + [' '] + rest;
      IndexOfSeparator(parts[0], ' ', rest);
      assert s[..|parts[0]|] == parts[0];
      assert s[|parts[0]| + 1..] == rest;
      SplitJoin(parts[1..]);
    }
  }

  /** The base dimension a symbol names, if any. */
  function SymbolDim(s: string): (r: Option<Dim>)
    ensures r.Some? ==> Symbol(r.value) == s
  {
    if s == "kg" then Some(MassDim)
    else if s == "m" then Some(LengthDim)
    else if s == "s" then Some(TimeDim)
    else if s == "A" then Some(CurrentDim)
    else if s == "K" then Some(TemperatureDim)
    else if s == "cd" then Some(LuminosityDim)
    else if s == "mol" then Some(ChemAmtDim)
    else None
  }

  predicate IsIntText(t: string) {
    IsDigits(t) || (|t| > 1 && t[0] == '-' && IsDigits(t[1..]))
  }

  /** One atom read back: a symbol, optionally followed by `^` and an
      exponent; a bare symbol has exponent 1. */
  function ParseAtom(a: string): Option<(Dim, int)> {
    var i := IndexOf(a, '^');
    match SymbolDim(a[..i])
    case None => None
    case Some(k) =>
      if i == |a| then Some((k, 1))
      else if IsIntText(a[i + 1..]) then Some((k, ParseInt(a[i + 1..])))
      else None
  }

  lemma AtomRoundTrip(k: Dim, e: int)
    ensures ParseAtom(Atom(k, e)) == Some((k, e))
  {
    var sym := Symbol(k);
    assert SymbolDim(sym) == Some(k);
    assert '^' !in sym;
    if e == 1 {
      assert IndexOf(sym, '^') == |sym|;
      assert sym[..|sym|] == sym;
    } else {
      var a := Atom(k, e);
      assert a == sym + ['^'] + IntToString(e);
      IndexOfSeparator(sym, '^', IntToString(e));
      assert a[..|sym|] == sym;
      assert a[|sym| + 1..] == IntToString(e);
      IntRoundTrip(e);
    }
  }

  lemma AtomHasNoSpace(k: Dim, e: int)
    ensures ' ' !in Atom(k, e)
  {
    var t := IntToString(e);
    if e < 0 {
      assert t[1..] == NatToString(-e);
      assert forall j :: 1 <= j < |t| ==> t[j] == t[1..][j - 1];
    }
    assert forall j :: 0 <= j < |t| ==> t[j] != ' ';
  }

  lemma {:induction false} AtomsHaveNoSpace(d: Dimensions, order: seq<Dim>)
    ensures forall i :: 0 <= i < |Atoms(d, order)| ==> ' ' !in Atoms(d, order)[i]
  {
    if order != [] {
      AtomHasNoSpace(order[0], Exp(d, order[0]));
      AtomsHaveNoSpace(d, order[1..]);
    }
  }

  /** The vector a sequence of atoms spells; an earlier atom of the same
      dimension wins. */
  function FromAtoms(atoms: seq<string>): Option<Dimensions> {
    if atoms == [] then Some(map[])
    else
      match (ParseAtom(atoms[0]), FromAtoms(atoms[1..]))
      case (Some(p), Some(rest)) => Some(rest[p.0 := p.1])
      case _ => None
  }

  /** Reads a rendering back into a dimension vector. */
  function Parse(s: string): Option<Dimensions> {
    FromAtoms(Split(s))
  }

  lemma {:induction false} FromAtomsOfAtoms(d: Dimensions, order: seq<Dim>)
    ensures FromAtoms(Atoms(d, order)).Some?
    ensures Normalized(FromAtoms(Atoms(d, order)).value)
    ensures forall k :: Exp(FromAtoms(Atoms(d, order)).value, k) == if k in order then Exp(d, k) else 0
  {
    if order != [] {
      var k0, rest := order[0], order[1..];
      FromAtomsOfAtoms(d, rest);
      var e := Exp(d, k0);
      var tail := FromAtoms(Atoms(d, rest)).value;
      assert forall k :: k in order <==> k == k0 || k in rest;
      if e == 0 {
        assert Atoms(d, order) == Atoms(d, rest);
      } else {
        AtomRoundTrip(k0, e);
        assert Atoms(d, order) == [Atom(k0, e)] + Atoms(d, rest);
        assert Atoms(d, order)[1..] == Atoms(d, rest);
        assert FromAtoms(Atoms(d, order)) == Some(tail[k0 := e]);
      }
    }
  }

  /** Round trip: a rendering reads back as the vector without its zero
      entries. */
  lemma ParseRender(d: Dimensions)
    ensures Parse(Render(d)) == Some(Normalize(d))
  {
    var atoms := Atoms(d, RenderOrder);
    AtomsNonEmpty(d, RenderOrder);
    AtomsHaveNoSpace(d, RenderOrder);
    SplitJoin(atoms);
    FromAtomsOfAtoms(d, RenderOrder);
    var r := FromAtoms(atoms).value;
    forall k ensures Exp(r, k) == Exp(Normalize(d), k) {
      RenderOrderIsComplete(k);
    }
    Extensionality(r, Normalize(d));
  }

  /** The canonical text of a dimension vector (Go's `Dimensions.String`);
      it is empty exactly when the vector is dimensionless. */
  function Render(d: Dimensions): (r: string)
    ensures r == "" <==> Dimensionless(d)
  {
    JoinedAtomsEmptyIff(d);
    Join(Atoms(d, RenderOrder))
  }

  /** The rendering is canonical: two vectors render the same exactly when
      they match. */
  lemma RenderIsCanonical(a: Dimensions, b: Dimensions)
    ensures Render(a) == Render(b) <==> Match(a, b)
  {
    ParseRender(a);
    ParseRender(b);
    if Match(a, b) {
      RenderRespectsMatch(a, b);
    }
  }

  lemma {:induction false} AtomsSeeOnlyExponents(a: Dimensions, b: Dimensions, order: seq<Dim>)
    requires forall k :: Exp(a, k) == Exp(b, k)
    ensures Atoms(a, order) == Atoms(b, order)
  {
    if order != [] {
      AtomsSeeOnlyExponents(a, b, order[1..]);
    }
  }

  /** Matching vectors render identically: explicit zero entries are invisible. */
  lemma RenderRespectsMatch(a: Dimensions, b: Dimensions)
    requires Match(a, b)
    ensures Render(a) == Render(b)
  {
    AtomsSeeOnlyExponents(a, b, RenderOrder);
  }

  lemma {:induction false} AtomsEmptyIff(d: Dimensions, order: seq<Dim>)
    ensures Atoms(d, order) == [] <==> forall i :: 0 <= i < |order| ==> Exp(d, order[i]) == 0
  {
    if order != [] {
      AtomsEmptyIff(d, order[1..]);
      assert forall i :: 1 <= i < |order| ==> order[i] == order[1..][i - 1];
    }
  }

  lemma {:induction false} JoinEmptyIff(parts: seq<string>)
    requires forall i :: 0 <= i < |parts| ==> |parts[i]| > 0
    ensures Join(parts) == "" <==> parts == []
  {
  }

  lemma {:induction false} AtomsNonEmpty(d: Dimensions, order: seq<Dim>)
    ensures forall i :: 0 <= i < |Atoms(d, order)| ==> |Atoms(d, order)[i]| > 0
  {
    if order != [] {
      AtomsNonEmpty(d, order[1..]);
    }
  }

  lemma JoinedAtomsEmptyIff(d: Dimensions)
    ensures Join(Atoms(d, RenderOrder)) == "" <==> Dimensionless(d)
  {
    AtomsNonEmpty(d, RenderOrder);
    JoinEmptyIff(Atoms(d, RenderOrder));
    AtomsEmptyIff(d, RenderOrder);
    if Join(Atoms(d, RenderOrder)) == "" {
      forall k ensures Exp(d, k) == 0 {
        RenderOrderIsComplete(k);
        var i :| 0 <= i < |RenderOrder| && RenderOrder[i] == k;
      }
    }
  }

  /** The atom, if any, that dimension `k` contributes to the rendering of `d`. */
  function AtomOf(d: Dimensions, k: Dim): seq<string> {
    if Exp(d, k) == 0 then [] else [Atom(k, Exp(d, k))]
  }

  lemma AtomsStep(d: Dimensions, order: seq<Dim>)
    requires order != []
    ensures Atoms(d, order) == AtomOf(d, order[0]) + Atoms(d, order[1..])
  {
  }

  lemma AtomsInRenderOrder(d: Dimensions)
    ensures Atoms(d, RenderOrder)
      == AtomOf(d, MassDim) + (AtomOf(d, LengthDim) + (AtomOf(d, TimeDim) + (AtomOf(d, CurrentDim)
       + (AtomOf(d, TemperatureDim) + (AtomOf(d, LuminosityDim) + AtomOf(d, ChemAmtDim))))))
  {
    var o6 := [ChemAmtDim];
    var o5 := [LuminosityDim] + o6;
    var o4 := [TemperatureDim] + o5;
    var o3 := [CurrentDim] + o4;
    var o2 := [TimeDim] + o3;
    var o1 := [LengthDim] + o2;
    var o0 := [MassDim] + o1;
    assert o0 == RenderOrder;
    AtomsStep(d, o6);
    assert o6[1..] == [];
    AtomsStep(d, o5);
    assert o5[1..] == o6;
    AtomsStep(d, o4);
    assert o4[1..] == o5;
    AtomsStep(d, o3);
    assert o3[1..] == o4;
    AtomsStep(d, o2);
    assert o2[1..] == o3;
    AtomsStep(d, o1);
    assert o1[1..] == o2;
    AtomsStep(d, o0);
    assert o0[1..] == o1;
  }

  lemma JoinTwo(a: string, b: string)
    ensures Join([a, b]) == a + " " + b
  {
    assert [a, b][1..] == [b];
  }

  lemma KgPerS2Atoms()
    ensures Atoms(map[MassDim := 1, TimeDim := -2], RenderOrder) == ["kg", "s^-2"]
  {
    var d := map[MassDim := 1, TimeDim := -2];
    AtomsInRenderOrder(d);
    assert AtomOf(d, MassDim) == ["kg"];
    assert AtomOf(d, LengthDim) == [];
    assert AtomOf(d, TimeDim) == ["s^-2"] by {
      assert IntToString(-2) == "-2";
      assert Atom(TimeDim, -2) == "s" + "^" + "-2";
      assert "s" + "^" + "-2" == "s^-2";
    }
    assert AtomOf(d, CurrentDim) == [] && AtomOf(d, TemperatureDim) == [];
    assert AtomOf(d, LuminosityDim) == [] && AtomOf(d, ChemAmtDim) == [];
  }

  /** `{MassDim: 1, TimeDim: -2}` renders as `kg s^-2`, also with an explicit
      zero length entry. */
  lemma RenderKgPerS2()
    ensures Render(map[MassDim := 1, TimeDim := -2]) == "kg s^-2"
    ensures Render(map[MassDim := 1, TimeDim := -2, LengthDim := 0]) == "kg s^-2"
  {
    var d := map[MassDim := 1, TimeDim := -2];
    KgPerS2Atoms();
    JoinTwo("kg", "s^-2");
    assert forall k :: Exp(d, k) == Exp(d[LengthDim := 0], k);
    AtomsSeeOnlyExponents(d, d[LengthDim := 0], RenderOrder);
  }

  lemma Kg2PerSAtoms()
    ensures Atoms(map[MassDim := 2, TimeDim := -1], RenderOrder) == ["kg^2", "s^-1"]
  {
    var d := map[MassDim := 2, TimeDim := -1];
    AtomsInRenderOrder(d);
    assert AtomOf(d, MassDim) == ["kg^2"] by {
      assert IntToString(2) == "2";
      assert Atom(MassDim, 2) == "kg" + "^" + "2";
      assert "kg" + "^" + "2" == "kg^2";
    }
    assert AtomOf(d, LengthDim) == [];
    assert AtomOf(d, TimeDim) == ["s^-1"] by {
      assert IntToString(-1) == "-1";
      assert Atom(TimeDim, -1) == "s" + "^" + "-1";
      assert "s" + "^" + "-1" == "s^-1";
    }
    assert AtomOf(d, CurrentDim) == [] && AtomOf(d, TemperatureDim) == [];
    assert AtomOf(d, LuminosityDim) == [] && AtomOf(d, ChemAmtDim) == [];
  }

  /** `{MassDim: 2, TimeDim: -1}` renders as `kg^2 s^-1`. */
  lemma RenderKg2PerS()
    ensures Render(map[MassDim := 2, TimeDim := -1]) == "kg^2 s^-1"
  {
    Kg2PerSAtoms();
    JoinTwo("kg^2", "s^-1");
  }

  lemma MPerS2Atoms()
    ensures Atoms(map[LengthDim := 1, TimeDim := -2], RenderOrder) == ["m", "s^-2"]
  {
    var d := map[LengthDim := 1, TimeDim := -2];
    AtomsInRenderOrder(d);
    assert AtomOf(d, MassDim) == [];
    assert AtomOf(d, LengthDim) == ["m"];
    assert AtomOf(d, TimeDim) == ["s^-2"] by {
      assert IntToString(-2) == "-2";
      assert Atom(TimeDim, -2) == "s" + "^" + "-2";
      assert "s" + "^" + "-2" == "s^-2";
    }
    assert AtomOf(d, CurrentDim) == [] && AtomOf(d, TemperatureDim) == [];
    assert AtomOf(d, LuminosityDim) == [] && AtomOf(d, ChemAmtDim) == [];
  }

  /** `{LengthDim: 1, TimeDim: -2}` renders as `m s^-2`. */
  lemma RenderMPerS2()
    ensures Render(map[LengthDim := 1, TimeDim := -2]) == "m s^-2"
  {
    MPerS2Atoms();
    JoinTwo("m", "s^-2");
  }

  lemma M2PerS4Atoms()
    ensures Atoms(map[LengthDim := 2, TimeDim := -4], RenderOrder) == ["m^2", "s^-4"]
  {
    var d := map[LengthDim := 2, TimeDim := -4];
    AtomsInRenderOrder(d);
    assert AtomOf(d, MassDim) == [];
    assert AtomOf(d, LengthDim) == ["m^2"] by {
      assert IntToString(2) == "2";
      assert Atom(LengthDim, 2) == "m" + "^" + "2";
      assert "m" + "^" + "2" == "m^2";
    }
    assert AtomOf(d, TimeDim) == ["s^-4"] by {
      assert IntToString(-4) == "-4";
      assert Atom(TimeDim, -4) == "s" + "^" + "-4";
      assert "s" + "^" + "-4" == "s^-4";
    }
    assert AtomOf(d, CurrentDim) == [] && AtomOf(d, TemperatureDim) == [];
    assert AtomOf(d, LuminosityDim) == [] && AtomOf(d, ChemAmtDim) == [];
  }

  /** `{LengthDim: 2, TimeDim: -4}` renders as `m^2 s^-4`. */
  lemma RenderM2PerS4()
    ensures Render(map[LengthDim := 2, TimeDim := -4]) == "m^2 s^-4"
  {
    M2PerS4Atoms();
    JoinTwo("m^2", "s^-4");
  }

  /** A single base dimension with exponent 1 renders as its bare symbol. */
  lemma RenderSingle(k: Dim)
    ensures Render(map[k := 1]) == Symbol(k)
  {
    var d := map[k := 1];
    AtomsInRenderOrder(d);
    assert Atoms(d, RenderOrder) == [Symbol(k)] by {
      match k
      case MassDim =>
      case LengthDim =>
      case TimeDim =>
      case CurrentDim =>
      case TemperatureDim =>
      case LuminosityDim =>
      case ChemAmtDim =>
    }
  }
}
