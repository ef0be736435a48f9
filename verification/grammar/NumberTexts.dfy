/** Integers and numbers: what their built-in rules accept, and what it takes for a digit to be one. */
module NumberTexts {
  import opened Options
  import opened Gbnf
  import opened Rules
  import opened Symbols
  import opened Decimal
  import opened IntRange
  import opened Schemas
  import opened Tables
  import opened Growth
  import opened SchemaGrammar
  import opened StringTexts
  import opened ObjectTexts
  import Primitives

  // ---------------------------------------------------------------------------------------------
  // White space, integers and numbers as their rules read
  // ---------------------------------------------------------------------------------------------

  /** White space begins with a blank or a line end. */
  lemma SpaceBegins(w: string, I: Interp)
    requires MatchesAlts(Primitives.SPACE_BODY, w, I)
    ensures w == "" || w[0] in {' ', '\n'}
  {
    var j :| 0 <= j < |Primitives.SPACE_BODY| && MatchesSyms(Primitives.SPACE_BODY[j].syms, w, I);
    if j == 1 {
      MatchesOne(Lit(" "), w, I);
    } else if j == 2 {
      var xs := Primitives.SPACE_BODY[2].syms;
      var i :| 0 <= i <= |w| && Matches(xs[0], w[..i], I) && MatchesSyms(xs[1..], w[i..], I);
      LineEnds(w[..i], I);
    }
  }

  lemma LineEnds(t: string, I: Interp)
    requires Matches(Rep(Lit("\n"), 1, Some(2)), t, I)
    ensures t != "" && t[0] == '\n'
  {
    var k: nat :| RepCount(1, Some(2), k) && MatchesTimes(Lit("\n"), k, t, I);
    var i :| 0 <= i <= |t| && Matches(Lit("\n"), t[..i], I) && MatchesTimes(Lit("\n"), k - 1, t[i..], I);
    assert t[..i] == "\n" && t[0] == t[..i][0];
  }

  lemma EmptySpace(I: Interp)
    ensures MatchesAlts(Primitives.SPACE_BODY, "", I)
  {
    assert MatchesSyms(Primitives.SPACE_BODY[0].syms, "", I);
  }

  lemma ShippedBlank(w: string)
    ensures Blank(PrimitiveTable(), w) <==> MatchesAlts(Primitives.SPACE_BODY, w, Builtin(PrimitiveTable()))
  {
    var T := PrimitiveTable();
    Primitives.SpaceOk();
    ShowThenParse(Primitives.SPACE_BODY);
    assert Base(T)["space"] == ShowAlts(Primitives.SPACE_BODY);
    LangFixpoint(Base(T), "space", w);
  }

  lemma BlankBegins(w: string)
    ensures Blank(PrimitiveTable(), "")
    ensures Blank(PrimitiveTable(), w) ==> w == "" || w[0] in {' ', '\n'}
  {
    ShippedBlank("");
    ShippedBlank(w);
    EmptySpace(Builtin(PrimitiveTable()));
    if Blank(PrimitiveTable(), w) { SpaceBegins(w, Builtin(PrimitiveTable())); }
  }

  lemma BlankIsApart()
    ensures BlankApart(PrimitiveTable())
  {
    BlankBegins("");
    forall w | Blank(PrimitiveTable(), w) && w != "" ensures w[0] in {' ', '\n'} { BlankBegins(w); }
  }

  /** An optional sign up to a, an integral part up to b, white space. */
  ghost predicate IntegerAt(s: string, a: nat, b: nat, I: Interp) {
    a <= b <= |s| && s[..a] in ["", "-"] && ("integral-part", s[a..b]) in I && ("space", s[b..]) in I
  }

  ghost predicate SignedAt(t: string, a: nat, I: Interp) {
    a <= |t| && t[..a] in ["", "-"] && ("integral-part", t[a..]) in I
  }

  lemma SignLength(s: string, a: nat)
    requires a <= |s| && s[..a] in ["", "-"]
    ensures a == 0 || (a == 1 && s[0] == '-')
  {
    if a > 0 { assert s[0] == s[..a][0]; }
  }

  lemma WholeInteger(s: string, I: Interp)
    requires ("integral-part", s) in I && ("space", "") in I
    ensures IntegerAt(s, 0, |s|, I)
  {
    assert s[..0] == "" && s[0..|s|] == s && s[|s|..] == "";
  }

  lemma SignedMeans(t: string, I: Interp)
    ensures Matches(Primitives.SIGNED_INTEGRAL, t, I) <==> exists a: nat :: SignedAt(t, a, I)
  {
    var sign, part := Opt(Lit("-")), Primitives.INTEGRAL;
    var xs := [sign, part];
    assert Matches(Primitives.SIGNED_INTEGRAL, t, I) <==> MatchesAlts([Body(xs)], t, I);
    MatchesAltsOne(xs, t, I);
    assert xs[1..] == [part];
    forall a: nat | a <= |t| ensures Matches(sign, t[..a], I) && MatchesSyms([part], t[a..], I) <==> SignedAt(t, a, I) {
      OptMatches(Lit("-"), t[..a], I);
      MatchesOne(part, t[a..], I);
    }
    if MatchesSyms(xs, t, I) {
      var a: nat :| a <= |t| && Matches(xs[0], t[..a], I) && MatchesSyms(xs[1..], t[a..], I);
      assert SignedAt(t, a, I);
    }
  }

  lemma IntegerBodyMeans(s: string, I: Interp)
    ensures MatchesAlts(Primitives.BodyOf("integer"), s, I) <==> exists a: nat, b: nat :: IntegerAt(s, a, b, I)
  {
    var xs := [Primitives.SIGNED_INTEGRAL, SP];
    assert Primitives.BodyOf("integer") == [Body(xs)];
    MatchesAltsOne(xs, s, I);
    assert xs[1..] == [SP];
    if MatchesSyms(xs, s, I) {
      var b: nat :| b <= |s| && Matches(xs[0], s[..b], I) && MatchesSyms(xs[1..], s[b..], I);
      MatchesOne(SP, s[b..], I);
      SignedMeans(s[..b], I);
      var a: nat :| SignedAt(s[..b], a, I);
      assert s[..b][..a] == s[..a] && s[..b][a..] == s[a..b];
      assert IntegerAt(s, a, b, I);
    }
    if a: nat, b: nat :| IntegerAt(s, a, b, I) {
      assert s[..b][..a] == s[..a] && s[..b][a..] == s[a..b];
      assert SignedAt(s[..b], a, I);
      SignedMeans(s[..b], I);
      MatchesOne(SP, s[b..], I);
      assert Matches(xs[0], s[..b], I) && MatchesSyms(xs[1..], s[b..], I);
    }
  }

  lemma DigitClasses(c: char)
    ensures InClass("0", c) <==> c == '0'
    ensures InClass("1-9", c) <==> '1' <= c <= '9'
    ensures InClass("0-9", c) <==> '0' <= c <= '9'
  {
    OneCharacterReads("0", 1, '0', "");
    OneRangeReads("1-9", '1', '9', "");
    OneRangeReads("0-9", '0', '9', "");
    OneRange('0', '0', c);
    OneRange('1', '9', c);
    OneRange('0', '9', c);
  }

  predicate OnlyDigits(text: string) { forall c :: InClass(text, c) ==> IsDigit(c) }

  lemma DigitClassesOnly()
    ensures OnlyDigits("0") && OnlyDigits("1-9") && OnlyDigits("0-9")
  {
    forall c ensures InClass("0", c) || InClass("1-9", c) || InClass("0-9", c) ==> IsDigit(c) { DigitClasses(c); }
  }

  lemma OneDigit(text: string, t: string, I: Interp)
    requires Matches(Class(text), t, I) && OnlyDigits(text)
    ensures t != "" && AllDigits(t)
  {
    assert IsDigit(t[0]);
  }

  lemma {:induction false} DigitsOnly(text: string, k: nat, t: string, I: Interp)
    requires MatchesTimes(Class(text), k, t, I) && OnlyDigits(text)
    ensures AllDigits(t)
    decreases k
  {
    if k > 0 {
      var i :| 0 <= i <= |t| && Matches(Class(text), t[..i], I) && MatchesTimes(Class(text), k - 1, t[i..], I);
      OneDigit(text, t[..i], I);
      DigitsOnly(text, k - 1, t[i..], I);
      assert t == t[..i] + t[i..];
      DigitsBoth(t[..i], t[i..]);
    }
  }

  /** A built-in integral part consists of digits; one digit is enough. */
  lemma IntegralBodyMeans(u: string, I: Interp)
    ensures MatchesAlts(Primitives.BodyOf("integral-part"), u, I) ==> u != "" && AllDigits(u)
    ensures u in ["0", "1"] ==> MatchesAlts(Primitives.BodyOf("integral-part"), u, I)
  {
    if MatchesAlts(Primitives.BodyOf("integral-part"), u, I) { IntegralDigits(u, I); }
    if u == "0" {
      DigitClasses('0');
      MatchesOne(Class("0"), u, I);
      assert MatchesSyms(Primitives.BodyOf("integral-part")[0].syms, u, I);
    }
    if u == "1" { OneMatches(I); }
  }

  lemma IntegralDigits(u: string, I: Interp)
    requires MatchesAlts(Primitives.BodyOf("integral-part"), u, I)
    ensures u != "" && AllDigits(u)
  {
    var digits := Rep(Class("0-9"), 0, Some(15));
    assert [Class("1-9")] + [digits] == [Class("1-9"), digits];
    assert Primitives.BodyOf("integral-part") == [Body([Class("0")]), Body([Class("1-9")] + [digits])];
    DigitClassesOnly();
    EitherDigits("0", "1-9", "0-9", u, I);
  }

  lemma EitherDigits(a: string, b: string, c: string, u: string, I: Interp)
    requires OnlyDigits(a) && OnlyDigits(b) && OnlyDigits(c)
    requires MatchesAlts([Body([Class(a)]), Body([Class(b)] + [Rep(Class(c), 0, Some(15))])], u, I)
    ensures u != "" && AllDigits(u)
  {
    var alts := [Body([Class(a)]), Body([Class(b)] + [Rep(Class(c), 0, Some(15))])];
    var j :| 0 <= j < |alts| && MatchesSyms(alts[j].syms, u, I);
    if j == 0 {
      MatchesOne(Class(a), u, I);
      OneDigit(a, u, I);
    } else {
      MoreDigits(b, c, u, I);
    }
  }

  lemma MoreDigits(b: string, c: string, u: string, I: Interp)
    requires OnlyDigits(b) && OnlyDigits(c) && MatchesSyms([Class(b)] + [Rep(Class(c), 0, Some(15))], u, I)
    ensures u != "" && AllDigits(u)
  {
    var digits := Rep(Class(c), 0, Some(15));
    var i := FirstOf(Class(b), [digits], u, I);
    OneDigit(b, u[..i], I);
    MatchesOne(digits, u[i..], I);
    var k: nat :| RepCount(0, Some(15), k) && MatchesTimes(Class(c), k, u[i..], I);
    DigitsOnly(c, k, u[i..], I);
    assert u == u[..i] + u[i..];
    DigitsBoth(u[..i], u[i..]);
  }

  lemma DigitsBoth(a: string, b: string)
    requires AllDigits(a) && AllDigits(b)
    ensures AllDigits(a + b)
  {
  }

  /** One digit is a decimal part. */
  lemma DecimalDigit(d: string, I: Interp)
    requires d in ["0", "1"]
    ensures MatchesAlts(Primitives.BodyOf("decimal-part"), d, I)
  {
    var x := Rep(Class("0-9"), 1, Some(16));
    DigitClasses(d[0]);
    assert d[..1] == d && d[1..] == "";
    assert MatchesTimes(Class("0-9"), 0, d[1..], I);
    assert Matches(Class("0-9"), d[..1], I);
    assert RepCount(1, Some(16), 1) && MatchesTimes(Class("0-9"), 1, d, I);
    MatchesOne(x, d, I);
    MatchesAltsOne([x], d, I);
  }

  lemma OneMatches(I: Interp)
    ensures MatchesAlts(Primitives.BodyOf("integral-part"), "1", I)
  {
    var xs := Primitives.BodyOf("integral-part")[1].syms;
    var digits := Rep(Class("0-9"), 0, Some(15));
    DigitClasses('1');
    assert xs == [Class("1-9"), digits] && xs[1..] == [digits];
    assert RepCount(0, Some(15), 0) && MatchesTimes(Class("0-9"), 0, "", I);
    MatchesOne(digits, "", I);
    assert "1"[..1] == "1" && "1"[1..] == "";
    assert Matches(xs[0], "1"[..1], I) && MatchesSyms(xs[1..], "1"[1..], I);
    assert MatchesSyms(xs, "1", I);
  }

  // ---------------------------------------------------------------------------------------------
  // Numbers as their rule reads
  // ---------------------------------------------------------------------------------------------

  const FRACTION: Sym := Opt(Group([Body([Lit("."), Ref("decimal-part")])]))
  const EXPONENT: Sym := Opt(Group([Body([Class("eE"), Opt(Class("-+")), Primitives.INTEGRAL])]))

  /** A sign and an integral part up to a, a fraction up to b, an exponent up to c, white space. */
  ghost predicate NumberAt(s: string, a: nat, b: nat, c: nat, I: Interp) {
    && a <= b <= c <= |s| && Matches(Primitives.SIGNED_INTEGRAL, s[..a], I) && Matches(FRACTION, s[a..b], I)
    && Matches(EXPONENT, s[b..c], I) && ("space", s[c..]) in I
  }

  const BEHIND: seq<Sym> := [EXPONENT] + [SP]
  const NUMBER: seq<Sym> := [Primitives.SIGNED_INTEGRAL] + ([FRACTION] + BEHIND)

  lemma NumberBody(s: string, I: Interp)
    ensures MatchesAlts(Primitives.BodyOf("number"), s, I) <==> MatchesSyms(NUMBER, s, I)
  {
    assert NUMBER == [Primitives.SIGNED_INTEGRAL, FRACTION, EXPONENT, SP];
    assert Primitives.BodyOf("number") == [Body(NUMBER)];
    MatchesAltsOne(NUMBER, s, I);
  }

  lemma NumberSplits(s: string, I: Interp) returns (a: nat, b: nat, c: nat)
    requires MatchesAlts(Primitives.BodyOf("number"), s, I)
    ensures NumberAt(s, a, b, c, I)
  {
    NumberBody(s, I);
    a := FirstOf(Primitives.SIGNED_INTEGRAL, [FRACTION] + BEHIND, s, I);
    b, c := FractionSplits(s, a, I);
  }

  lemma FractionSplits(s: string, a: nat, I: Interp) returns (b: nat, c: nat)
    requires a <= |s| && MatchesSyms([FRACTION] + BEHIND, s[a..], I)
    ensures a <= b <= c <= |s| && Matches(FRACTION, s[a..b], I) && Matches(EXPONENT, s[b..c], I)
    ensures ("space", s[c..]) in I
  {
    var b' := FirstOf(FRACTION, BEHIND, s[a..], I);
    b := a + b';
    SlicesBehind(s, a, b');
    var c' := FirstOf(EXPONENT, [SP], s[b..], I);
    c := b + c';
    SlicesBehind(s, b, c');
    MatchesOne(SP, s[c..], I);
  }

  lemma SlicesBehind(s: string, a: nat, n: nat)
    requires a + n <= |s|
    ensures s[a..][..n] == s[a..a + n] && s[a..][n..] == s[a + n..]
  {
  }

  lemma FirstOf(x: Sym, rest: seq<Sym>, s: string, I: Interp) returns (i: nat)
    requires MatchesSyms([x] + rest, s, I)
    ensures i <= |s| && Matches(x, s[..i], I) && MatchesSyms(rest, s[i..], I)
  {
    i := MatchesSplit([x], rest, s, I);
    MatchesOne(x, s[..i], I);
  }

  lemma NothingBehind(I: Interp)
    requires ("space", "") in I
    ensures MatchesSyms(BEHIND, "", I)
  {
    OptMatches(EXPONENT.sym, "", I);
    MatchesOne(EXPONENT, "", I);
    MatchesOne(SP, "", I);
    MatchesConcat([EXPONENT], [SP], "", 0, I);
  }

  lemma FirstThen(x: Sym, rest: seq<Sym>, s: string, i: nat, I: Interp)
    requires i <= |s| && Matches(x, s[..i], I) && MatchesSyms(rest, s[i..], I)
    ensures MatchesSyms([x] + rest, s, I)
  {
    MatchesOne(x, s[..i], I);
    MatchesConcat([x], rest, s, i, I);
  }

  /** An integral part and a fraction with nothing behind them. */
  lemma NumberJoins(s: string, a: nat, I: Interp)
    requires a <= |s| && Matches(Primitives.SIGNED_INTEGRAL, s[..a], I) && Matches(FRACTION, s[a..], I)
    requires ("space", "") in I
    ensures MatchesAlts(Primitives.BodyOf("number"), s, I)
  {
    var t := s[a..];
    NothingBehind(I);
    assert t[..|t|] == t && t[|t|..] == "";
    FirstThen(FRACTION, BEHIND, t, |t|, I);
    FirstThen(Primitives.SIGNED_INTEGRAL, [FRACTION] + BEHIND, s, a, I);
    NumberBody(s, I);
  }

  lemma FractionMeans(t: string, I: Interp)
    ensures Matches(FRACTION, t, I) <==> t == "" || (t[0] == '.' && ("decimal-part", t[1..]) in I)
  {
    var xs := [Lit("."), Ref("decimal-part")];
    OptMatches(Group([Body(xs)]), t, I);
    assert Matches(Group([Body(xs)]), t, I) <==> MatchesAlts([Body(xs)], t, I);
    MatchesAltsOne(xs, t, I);
    assert [Lit(".")] + [Ref("decimal-part")] == xs;
    LitThen(".", [Ref("decimal-part")], t, I);
    if t != "" {
      MatchesOne(Ref("decimal-part"), t[1..], I);
      assert t[..1] == [t[0]];
    }
  }

  lemma ExponentBegins(t: string, I: Interp)
    requires Matches(EXPONENT, t, I)
    ensures t == "" || t[0] in {'e', 'E'}
  {
    var xs := [Class("eE"), Opt(Class("-+")), Primitives.INTEGRAL];
    OptMatches(Group([Body(xs)]), t, I);
    if t != "" {
      assert MatchesAlts([Body(xs)], t, I);
      MatchesAltsOne(xs, t, I);
      var i := MatchesUncons(xs, t, I);
      ExponentClass(t[..i][0]);
    }
  }

  lemma ExponentClass(c: char)
    requires InClass("eE", c)
    ensures c in {'e', 'E'}
  {
    OneCharacterReads("E", 1, 'E', "");
    OneCharacterReads("eE", 1, 'e', "E");
  }

  /** White space may be nothing, and begins with a blank or a line end. */
  ghost predicate SpaceApart(I: Interp) {
    ("space", "") in I && forall w :: ("space", w) in I && w != "" ==> w[0] in {' ', '\n'}
  }

  /** A digit that is an integer is an integral part. */
  lemma DigitIsIntegral(d: string, I: Interp)
    requires d in ["0", "1"] && SpaceApart(I)
    ensures MatchesAlts(Primitives.BodyOf("integer"), d, I) <==> ("integral-part", d) in I
  {
    IntegerBodyMeans(d, I);
    if ("integral-part", d) in I { WholeInteger(d, I); }
    if a: nat, b: nat :| IntegerAt(d, a, b, I) {
      SignLength(d, a);
      assert d[0..1] == d;
    }
  }

  /** So is one that is a number. */
  lemma DigitNumber(d: string, I: Interp)
    requires d in ["0", "1"] && SpaceApart(I)
    ensures MatchesAlts(Primitives.BodyOf("number"), d, I) <==> ("integral-part", d) in I
  {
    if ("integral-part", d) in I {
      DigitJoins(d, I);
    }
    if MatchesAlts(Primitives.BodyOf("number"), d, I) {
      var a, b, c := NumberSplits(d, I);
      DigitSplits(d, a, b, c, I);
    }
  }

  lemma DigitJoins(d: string, I: Interp)
    requires d in ["0", "1"] && SpaceApart(I) && ("integral-part", d) in I
    ensures MatchesAlts(Primitives.BodyOf("number"), d, I)
  {
    assert d[..1] == d && d[1..] == "" && d[..0] == "" && d[0..] == d;
    assert SignedAt(d, 0, I);
    SignedMeans(d, I);
    FractionMeans("", I);
    NumberJoins(d, 1, I);
  }

  lemma DigitSplits(d: string, a: nat, b: nat, c: nat, I: Interp)
    requires d in ["0", "1"] && SpaceApart(I) && NumberAt(d, a, b, c, I)
    ensures ("integral-part", d) in I
  {
    assert c == 1;
    ExponentBegins(d[b..c], I);
    assert b == 1;
    FractionMeans(d[a..b], I);
    assert a == 1 && d[..a] == d;
    SignedMeans(d, I);
    var e: nat :| SignedAt(d, e, I);
    SignLength(d, e);
    assert d[0..] == d;
  }

  function Tenths(d: string): string { "0." + d }

  /** Where integral parts consist of digits, tenths are numbers if and only if the digit is a decimal part. */
  lemma TenthsNumber(d: string, I: Interp)
    requires d in ["0", "1"] && SpaceApart(I) && ("integral-part", "0") in I
    requires forall u :: ("integral-part", u) in I ==> AllDigits(u)
    ensures MatchesAlts(Primitives.BodyOf("number"), Tenths(d), I) <==> ("decimal-part", d) in I
  {
    if ("decimal-part", d) in I {
      TenthsJoin(d, I);
    }
    if MatchesAlts(Primitives.BodyOf("number"), Tenths(d), I) {
      var a, b, c := NumberSplits(Tenths(d), I);
      TenthsSplit(d, a, b, c, I);
    }
  }

  lemma TenthsJoin(d: string, I: Interp)
    requires d in ["0", "1"] && SpaceApart(I) && ("integral-part", "0") in I && ("decimal-part", d) in I
    ensures MatchesAlts(Primitives.BodyOf("number"), Tenths(d), I)
  {
    var s := Tenths(d);
    assert s[..1] == "0" && s[1..] == "." + d && s[1..][1..] == d;
    assert "0"[..0] == "" && "0"[0..] == "0";
    assert SignedAt("0", 0, I);
    SignedMeans("0", I);
    FractionMeans(s[1..], I);
    NumberJoins(s, 1, I);
  }

  lemma TenthsSplit(d: string, a: nat, b: nat, c: nat, I: Interp)
    requires d in ["0", "1"] && SpaceApart(I) && NumberAt(Tenths(d), a, b, c, I)
    requires forall u :: ("integral-part", u) in I ==> AllDigits(u)
    ensures ("decimal-part", d) in I
  {
    var s := Tenths(d);
    TenthsEnd(d, b, c, I);
    SignedDigits(s, a, I);
    FractionMeans(s[a..b], I);
    assert a == 1 && s[1..3][1..] == d;
  }

  /** There is no exponent and no white space. */
  lemma TenthsEnd(d: string, b: nat, c: nat, I: Interp)
    requires d in ["0", "1"] && SpaceApart(I) && b <= c <= 3
    requires Matches(EXPONENT, Tenths(d)[b..c], I) && ("space", Tenths(d)[c..]) in I
    ensures b == 3 && c == 3
  {
    var s := Tenths(d);
    assert s[0] == '0' && s[1] == '.' && s[2] == d[0] && |s| == 3;
    assert c == 3;
    ExponentBegins(s[b..c], I);
  }

  /** The digits end at the dot. */
  lemma SignedDigits(s: string, a: nat, I: Interp)
    requires |s| == 3 && s[0] == '0' && s[1] == '.' && a <= 3 && Matches(Primitives.SIGNED_INTEGRAL, s[..a], I)
    requires forall u :: ("integral-part", u) in I ==> AllDigits(u)
    ensures a <= 1
  {
    SignedMeans(s[..a], I);
    var e: nat :| SignedAt(s[..a], e, I);
    SignLength(s[..a], e);
    assert s[..a][0..] == s[..a];
    if a > 1 { DotIsNoDigit(s[..a]); }
  }

  lemma DotIsNoDigit(t: string)
    requires |t| > 1 && t[1] == '.'
    ensures !AllDigits(t)
  {
    assert !IsDigit(t[1]);
  }

  // ---------------------------------------------------------------------------------------------
  // The built-in rules on their own
  // ---------------------------------------------------------------------------------------------

  lemma BuiltinSpaceApart()
    ensures SpaceApart(Builtin(PrimitiveTable()))
  {
    BlankBegins("");
    forall w | ("space", w) in Builtin(PrimitiveTable()) && w != "" ensures w[0] in {' ', '\n'} { BlankBegins(w); }
  }

  lemma BuiltinDigit(d: string)
    requires d in ["0", "1"]
    ensures ("integral-part", d) in Builtin(PrimitiveTable()) && ("decimal-part", d) in Builtin(PrimitiveTable())
  {
    BuiltinKind("integral-part", d);
    IntegralBodyMeans(d, Builtin(PrimitiveTable()));
    BuiltinKind("decimal-part", d);
    DecimalDigit(d, Builtin(PrimitiveTable()));
  }

  lemma BuiltinIntegralDigits(u: string)
    requires ("integral-part", u) in Builtin(PrimitiveTable())
    ensures u != "" && AllDigits(u)
  {
    BuiltinKind("integral-part", u);
    IntegralBodyMeans(u, Builtin(PrimitiveTable()));
  }

  /** The digits 0 and 1 are integers and numbers, and so are their tenths. */
  lemma BuiltinNumbers(d: string)
    requires d in ["0", "1"]
    ensures ("integer", d) in Builtin(PrimitiveTable())
    ensures ("number", d) in Builtin(PrimitiveTable()) && ("number", Tenths(d)) in Builtin(PrimitiveTable())
  {
    var B := Builtin(PrimitiveTable());
    BuiltinSpaceApart();
    BuiltinDigit(d);
    BuiltinDigit("0");
    forall u | ("integral-part", u) in B ensures AllDigits(u) { BuiltinIntegralDigits(u); }
    BuiltinKind("integer", d);
    DigitIsIntegral(d, B);
    BuiltinKind("number", d);
    DigitNumber(d, B);
    BuiltinKind("number", Tenths(d));
    TenthsNumber(d, B);
  }

  /** No integer begins with a letter. */
  lemma IntegerBegins(s: string)
    requires ("integer", s) in Builtin(PrimitiveTable())
    ensures s != "" && (s[0] == '-' || '0' <= s[0] <= '9')
  {
    var I := Builtin(PrimitiveTable());
    BuiltinKind("integer", s);
    IntegerBodyMeans(s, I);
    var a: nat, b: nat :| IntegerAt(s, a, b, I);
    BuiltinIntegralDigits(s[a..b]);
    SignLength(s, a);
    assert s[a..b][0] == s[a];
  }
}
