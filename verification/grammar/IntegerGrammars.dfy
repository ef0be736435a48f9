/** Converted integer schemas, said of their keywords alone. */
module IntegerGrammars {
  import opened Options
  import opened Gbnf
  import opened Rules
  import opened Decimal
  import opened IntBounds
  import opened Schemas
  import opened Tables
  import opened Naming
  import opened SchemaGrammar
  import opened ObjectTexts
  import opened NumberTexts

  /** The numeral of an integer. */
  function Numeral(v: int): string { if v >= 0 then ToString(v) else "-" + ToString(-v) }

  lemma NumeralParts(v: int)
    ensures var t := Numeral(v);
            && t != "" && (t[0] == '-' <==> v < 0) && (v >= 0 ==> Canonical(t) && Val(t) == v)
            && (v < 0 ==> Canonical(t[1..]) && Val(t[1..]) == -v && t[1..][0] != '0')
            && forall i :: 0 <= i < |t| ==> t[i] == '-' || IsDigit(t[i])
  {
    var n: nat := if v >= 0 then v else -v;
    ToStringValue(n);
    ToStringCanonical(n);
    assert v < 0 ==> Numeral(v)[1..] == ToString(n);
  }

  lemma NumeralIsInteger(sc: Schema, v: int)
    requires sc.Integer?
    ensures IntegerText(Emitted, sc, Numeral(v)) <==>
            Meets(sc, v) && Fits(Emitted, sc, if v >= 0 then Numeral(v) else Numeral(v)[1..])
  {
    NumeralParts(v);
  }

  /** Where there is no white space, the text is the numeral. */
  lemma NothingBehind(T: Table, I: Interp, sc: Schema, t: string)
    requires sc.Integer? && BlankApart(T) && forall i :: 0 <= i < |t| ==> t[i] == '-' || IsDigit(t[i])
    ensures Valid(T, Emitting(I), sc, t) <==> IntegerText(Emitted, sc, t)
  {
    assert t[..|t|] == t && t[|t|..] == "";
    forall i | 0 <= i < |t| ensures !Blank(T, t[i..]) { assert t[i..][0] == t[i]; }
  }

  lemma NumeralIsValid(T: Table, I: Interp, sc: Schema, v: int)
    requires sc.Integer? && BlankApart(T)
    ensures Valid(T, Emitting(I), sc, Numeral(v)) <==>
            Meets(sc, v) && Fits(Emitted, sc, ToString(if v >= 0 then v else -v))
  {
    NumeralParts(v);
    NothingBehind(T, I, sc, Numeral(v));
    NumeralIsInteger(sc, v);
    assert v < 0 ==> Numeral(v)[1..] == ToString(-v);
  }

  /** The grammar of an integer schema derives the numeral of v if and only if v meets the keywords: `minimum`, or if
      that is absent `exclusiveMinimum`, and the same above. With one bound given, numerals have at most 16 digits. */
  method ConvertInteger(minimum: Option<int>, exclusiveMinimum: Option<int>, maximum: Option<int>,
                        exclusiveMaximum: Option<int>) returns (rules: RuleMap)
    requires Supported(PrimitiveTable(), Integer(minimum, exclusiveMinimum, maximum, exclusiveMaximum))
    ensures "root" in rules
    ensures forall v: int {:trigger Numeral(v)} ::
              Derives(rules, "root", Numeral(v)) <==>
              && (minimum.Some? ==> v >= minimum.value)
              && (minimum.None? && exclusiveMinimum.Some? ==> v > exclusiveMinimum.value)
              && (maximum.Some? ==> v <= maximum.value)
              && (maximum.None? && exclusiveMaximum.Some? ==> v < exclusiveMaximum.value)
              && (((minimum.Some? || exclusiveMinimum.Some?) && (maximum.Some? || exclusiveMaximum.Some?))
                  || |ToString(if v >= 0 then v else -v)| <= 16)
  {
    var sc := Integer(minimum, exclusiveMinimum, maximum, exclusiveMaximum);
    rules := ConvertShipped(sc);
    forall v: int
      ensures Derives(rules, "root", Numeral(v)) <==>
              Meets(sc, v) && Fits(Emitted, sc, ToString(if v >= 0 then v else -v))
    {
      BlankIsApart();
      NumeralIsValid(PrimitiveTable(), Builtin(PrimitiveTable()), sc, v);
    }
  }
}
