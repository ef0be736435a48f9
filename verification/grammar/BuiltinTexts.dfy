/** The built-in types: which texts each of them stands for, said without grammars. */
module BuiltinTexts {
  import opened Options
  import opened Gbnf
  import opened Rules
  import opened Symbols
  import opened Decimal
  import opened IntRange
  import opened IntBounds
  import opened Repetition
  import opened NotStrings
  import opened Schemas
  import opened Shapes
  import opened Tables
  import opened SchemaGrammar
  import opened ClassTexts
  import StringTexts
  import NumberTexts
  import Primitives

  /** What the shipped built-in rules derive on their own. */
  ghost predicate IsKind(kind: string, s: string) { (kind, s) in Builtin(PrimitiveTable()) }

  ghost predicate IsBlank(w: string) { Blank(PrimitiveTable(), w) }

  lemma KindIs(kind: string, s: string)
    requires kind in Primitives.KINDS
    ensures IsKind(kind, s) <==> MatchesAlts(Primitives.BodyOf(kind), s, Builtin(PrimitiveTable()))
  {
    StringTexts.BuiltinKind(kind, s);
  }

  // ---------------------------------------------------------------------------------------------
  // White space, words
  // ---------------------------------------------------------------------------------------------

  predicate IsEol(c: char) { c == '\n' }

  /** n line ends, and then at most 20 blanks and tabs. */
  predicate LineEnds(w: string, n: nat) {
    1 <= n <= 2 && n <= |w| <= n + 20 && AllOf(IsEol, w[..n]) && AllOf(IsBlankTab, w[n..])
  }

  lemma {:induction false} EolTimes(k: nat, t: string, I: Interp)
    ensures MatchesTimes(Lit("\n"), k, t, I) <==> |t| == k && AllOf(IsEol, t)
    decreases k
  {
    if k > 0 {
      forall i | 0 <= i <= |t|
        ensures Matches(Lit("\n"), t[..i], I) && MatchesTimes(Lit("\n"), k - 1, t[i..], I) <==>
                i == 1 && t[0] == '\n' && |t| == k && AllOf(IsEol, t[1..])
      {
        EolTimes(k - 1, t[i..], I);
        if t != "" { assert t[..1] == [t[0]]; }
      }
      if t != "" && t[0] == '\n' && AllOf(IsEol, t[1..]) { EolFirst(t); }
      if |t| == k && AllOf(IsEol, t) { assert t[0] == '\n' && AllOf(IsEol, t[1..]); }
    }
  }

  lemma EolFirst(t: string)
    requires t != "" && t[0] == '\n' && AllOf(IsEol, t[1..])
    ensures AllOf(IsEol, t)
  {
    forall i | 0 <= i < |t| ensures IsEol(t[i]) { if i > 0 { assert IsEol(t[1..][i - 1]); } }
  }

  const ENDS: Sym := Rep(Lit("\n"), 1, Some(2))
  const BLANKS: Sym := Rep(Class(" \\t"), 0, Some(20))

  lemma LineEndsMean(w: string, I: Interp)
    ensures MatchesSyms([ENDS] + [BLANKS], w, I) <==> exists n: nat :: LineEnds(w, n)
  {
    forall c ensures InClass(" \\t", c) <==> IsBlankTab(c) { BlankTabIs(" \\t", c); }
    assert ClassOf(" \\t", IsBlankTab);
    if MatchesSyms([ENDS] + [BLANKS], w, I) {
      var n := MatchesSplit([ENDS], [BLANKS], w, I);
      MatchesOne(ENDS, w[..n], I);
      MatchesOne(BLANKS, w[n..], I);
      var k: nat :| RepCount(1, Some(2), k) && MatchesTimes(Lit("\n"), k, w[..n], I);
      EolTimes(k, w[..n], I);
      ClassRep(" \\t", IsBlankTab, 0, Some(20), w[n..], I);
      assert LineEnds(w, n);
    }
    if n: nat :| LineEnds(w, n) {
      EolTimes(n, w[..n], I);
      assert RepCount(1, Some(2), n) && MatchesTimes(Lit("\n"), n, w[..n], I);
      MatchesOne(ENDS, w[..n], I);
      ClassRep(" \\t", IsBlankTab, 0, Some(20), w[n..], I);
      MatchesOne(BLANKS, w[n..], I);
      MatchesConcat([ENDS], [BLANKS], w, n, I);
    }
  }

  /** White space is nothing, a blank, or one or two line ends with at most 20 blanks and tabs behind them. */
  lemma BlankIs(w: string)
    ensures IsBlank(w) <==> w in {"", " "} || exists n: nat :: LineEnds(w, n)
  {
    var I := Builtin(PrimitiveTable());
    var body := Primitives.SPACE_BODY;
    NumberTexts.ShippedBlank(w);
    assert [ENDS] + [BLANKS] == [ENDS, BLANKS];
    assert body == [Body([])] + ([Body([Lit(" ")])] + [Body([ENDS] + [BLANKS])]);
    MatchesAltsConcat([Body([])], [Body([Lit(" ")])] + [Body([ENDS] + [BLANKS])], w, I);
    MatchesAltsConcat([Body([Lit(" ")])], [Body([ENDS] + [BLANKS])], w, I);
    MatchesAltsOne([], w, I);
    MatchesAltsOne([Lit(" ")], w, I);
    MatchesAltsOne([ENDS] + [BLANKS], w, I);
    MatchesOne(Lit(" "), w, I);
    LineEndsMean(w, I);
  }

  /** The word with white space behind it. */
  ghost predicate Word(word: string, s: string) { word <= s && IsBlank(s[|word|..]) }

  lemma LitSpace(word: string, s: string)
    ensures MatchesSyms([Lit(word), SP], s, Builtin(PrimitiveTable())) <==> Word(word, s)
  {
    assert [Lit(word)] + [SP] == [Lit(word), SP];
    LitThen(word, [SP], s, Builtin(PrimitiveTable()));
    if |s| >= |word| { MatchesOne(SP, s[|word|..], Builtin(PrimitiveTable())); }
  }

  lemma NullIs(s: string)
    ensures IsKind("null", s) <==> Word("null", s)
  {
    KindIs("null", s);
    MatchesAltsOne([Lit("null"), SP], s, Builtin(PrimitiveTable()));
    LitSpace("null", s);
  }

  /** One of two words. */
  function Either(a: string, b: string): Sym { Group([Body([Lit(a)])] + [Body([Lit(b)])]) }

  lemma EitherMeans(a: string, b: string, t: string, I: Interp)
    ensures Matches(Either(a, b), t, I) <==> t == a || t == b
  {
    MatchesAltsConcat([Body([Lit(a)])], [Body([Lit(b)])], t, I);
    MatchesAltsOne([Lit(a)], t, I);
    MatchesAltsOne([Lit(b)], t, I);
    MatchesOne(Lit(a), t, I);
    MatchesOne(Lit(b), t, I);
  }

  lemma EitherSpace(a: string, b: string, s: string, I: Interp)
    ensures MatchesSyms([Either(a, b)] + [SP], s, I) <==>
            (a <= s && ("space", s[|a|..]) in I) || (b <= s && ("space", s[|b|..]) in I)
  {
    var x := Either(a, b);
    if MatchesSyms([x] + [SP], s, I) {
      var i := NumberTexts.FirstOf(x, [SP], s, I);
      EitherMeans(a, b, s[..i], I);
      MatchesOne(SP, s[i..], I);
    }
    if a <= s && ("space", s[|a|..]) in I { EitherJoins(a, b, s, |a|, I); }
    if b <= s && ("space", s[|b|..]) in I { EitherJoins(a, b, s, |b|, I); }
  }

  lemma EitherJoins(a: string, b: string, s: string, i: nat, I: Interp)
    requires i <= |s| && (s[..i] == a || s[..i] == b) && ("space", s[i..]) in I
    ensures MatchesSyms([Either(a, b)] + [SP], s, I)
  {
    EitherMeans(a, b, s[..i], I);
    MatchesOne(SP, s[i..], I);
    NumberTexts.FirstThen(Either(a, b), [SP], s, i, I);
  }

  lemma BooleanIs(s: string)
    ensures IsKind("boolean", s) <==> Word("true", s) || Word("false", s)
  {
    var xs := [Either("true", "false")] + [SP];
    KindIs("boolean", s);
    assert Either("true", "false") == Group([Body([Lit("true")]), Body([Lit("false")])]);
    assert xs == [Either("true", "false"), SP];
    assert Primitives.BodyOf("boolean") == [Body(xs)];
    MatchesAltsOne(xs, s, Builtin(PrimitiveTable()));
    EitherSpace("true", "false", s, Builtin(PrimitiveTable()));
  }

  // ---------------------------------------------------------------------------------------------
  // Characters
  // ---------------------------------------------------------------------------------------------

  /** A plain character, or a backslash and a letter, or \u and four hexadecimal digits. */
  predicate CharText(s: string) {
    || (|s| == 1 && PlainJson(s))
    || (|s| == 2 && s[0] == '\\' && IsEscape(s[1]))
    || (|s| == 6 && s[0] == '\\' && s[1] == 'u' && AllOf(IsHex, s[2..]))
  }

  lemma FourHex(t: string, I: Interp)
    ensures MatchesSyms([Lit("u"), Primitives.HEX4], t, I) <==> |t| == 5 && t[0] == 'u' && AllOf(IsHex, t[1..])
  {
    var text := "0-9a-fA-F";
    forall c ensures InClass(text, c) <==> IsHex(c) { HexClass(text, c); }
    assert ClassOf(text, IsHex);
    assert [Lit("u")] + [Primitives.HEX4] == [Lit("u"), Primitives.HEX4];
    LitThen("u", [Primitives.HEX4], t, I);
    if t != "" {
      assert t[..1] == [t[0]];
      MatchesOne(Primitives.HEX4, t[1..], I);
      ClassRep(text, IsHex, 4, Some(4), t[1..], I);
    }
  }

  lemma EscapedMeans(t: string, I: Interp)
    ensures MatchesSyms(StringTexts.ESCAPE, t, I) <==>
            (|t| == 1 && IsEscape(t[0])) || (|t| == 5 && t[0] == 'u' && AllOf(IsHex, t[1..]))
  {
    var a, b := [Class("\"\\\\bfnrt")], [Lit("u"), Primitives.HEX4];
    assert [Body(a)] + [Body(b)] == [Body(a), Body(b)];
    MatchesOne(Group([Body(a), Body(b)]), t, I);
    MatchesAltsConcat([Body(a)], [Body(b)], t, I);
    MatchesAltsOne(a, t, I);
    MatchesAltsOne(b, t, I);
    MatchesOne(a[0], t, I);
    if |t| == 1 { EscapeClass("\"\\\\bfnrt", t[0]); }
    FourHex(t, I);
  }

  lemma BackslashThen(s: string, I: Interp)
    ensures MatchesSyms([Class("\\\\")] + StringTexts.ESCAPE, s, I) <==>
            s != "" && s[0] == '\\' && MatchesSyms(StringTexts.ESCAPE, s[1..], I)
  {
    ClassThen("\\\\", StringTexts.ESCAPE, s, I);
    if s != "" { BackslashClassIs("\\\\", s[0]); }
  }

  lemma CharIs(s: string)
    ensures IsKind("char", s) <==> CharText(s)
  {
    var I := Builtin(PrimitiveTable());
    var a, b := [Class(Primitives.CHAR_CLASS)], [Class("\\\\")] + StringTexts.ESCAPE;
    KindIs("char", s);
    assert b == [Class("\\\\"), StringTexts.ESCAPE[0]];
    assert Primitives.BodyOf("char") == [Body(a)] + [Body(b)];
    MatchesAltsConcat([Body(a)], [Body(b)], s, I);
    MatchesAltsOne(a, s, I);
    MatchesAltsOne(b, s, I);
    StringTexts.PlainCharMeans(s, I);
    BackslashThen(s, I);
    if s != "" { EscapedMeans(s[1..], I); }
    if |s| == 6 { assert s[1..][1..] == s[2..]; }
  }

  /** A quoted sequence of such characters, and white space. */
  lemma StringIs(body: string, w: string)
    requires IsBlank(w)
    ensures IsKind("string", "\"" + body + "\"" + w) <==> exists parts: seq<string> ::
              (forall i :: 0 <= i < |parts| ==> CharText(parts[i])) && Flat(parts) == body
  {
    StringTexts.StringMeans(body, w);
    if Chars(body, "char", Builtin(PrimitiveTable())) { var parts := CharsSplit(body); }
    if parts: seq<string> :|
        (forall i :: 0 <= i < |parts| ==> CharText(parts[i])) && Flat(parts) == body {
      CharsJoin(parts);
    }
  }

  function Flat(parts: seq<string>): string { if parts == [] then "" else parts[0] + Flat(parts[1..]) }

  lemma {:induction false} CharsSplit(body: string) returns (parts: seq<string>)
    requires Chars(body, "char", Builtin(PrimitiveTable()))
    ensures (forall i :: 0 <= i < |parts| ==> CharText(parts[i])) && Flat(parts) == body
    decreases |body|
  {
    if body == "" {
      parts := [];
    } else {
      var i := StringTexts.CharsUncons(body, "char", Builtin(PrimitiveTable()));
      CharIs(body[..i]);
      var rest := CharsSplit(body[i..]);
      parts := [body[..i]] + rest;
      OnePartMore(body, i, rest);
    }
  }

  lemma OnePartMore(body: string, i: nat, rest: seq<string>)
    requires i <= |body| && CharText(body[..i]) && (forall k :: 0 <= k < |rest| ==> CharText(rest[k]))
    requires Flat(rest) == body[i..]
    ensures forall k :: 0 <= k < |[body[..i]] + rest| ==> CharText(([body[..i]] + rest)[k])
    ensures Flat([body[..i]] + rest) == body
  {
    assert ([body[..i]] + rest)[1..] == rest && body[..i] + body[i..] == body;
  }

  lemma {:induction false} CharsJoin(parts: seq<string>)
    requires forall i :: 0 <= i < |parts| ==> CharText(parts[i])
    ensures Chars(Flat(parts), "char", Builtin(PrimitiveTable()))
  {
    if parts == [] {
      StringTexts.NoChars("char", Builtin(PrimitiveTable()));
    } else {
      CharIs(parts[0]);
      forall i | 0 <= i < |parts[1..]| ensures CharText(parts[1..][i]) { assert parts[1..][i] == parts[i + 1]; }
      CharsJoin(parts[1..]);
      StringTexts.CharsCons(parts[0], Flat(parts[1..]), "char", Builtin(PrimitiveTable()));
    }
  }

  // ---------------------------------------------------------------------------------------------
  // Integers and numbers
  // ---------------------------------------------------------------------------------------------

  /** A numeral without leading zeros, of at most 16 digits. */
  predicate IntegralText(u: string) { Canonical(u) && |u| <= 16 }

  lemma IntegralIs(u: string)
    ensures IsKind("integral-part", u) <==> IntegralText(u)
  {
    var I := Builtin(PrimitiveTable());
    KindIs("integral-part", u);
    assert Primitives.BodyOf("integral-part") == AnyAlts(15);
    AnyFromOn(15);
    assert MatchesAlts(AnyAlts(15), u, I) <==> FromOnP(0, 16)(u);
  }

  lemma DecimalIs(u: string)
    ensures IsKind("decimal-part", u) <==> AllDigits(u) && 1 <= |u| <= 16
  {
    var I := Builtin(PrimitiveTable());
    KindIs("decimal-part", u);
    assert Primitives.BodyOf("decimal-part") == [Body([Digits(1, Some(16))])];
    MatchesAltsOne([Digits(1, Some(16))], u, I);
    DigitsMatch(1, Some(16), u, I);
  }

  predicate SignedText(t: string) { IntegralText(t) || (t != "" && t[0] == '-' && IntegralText(t[1..])) }

  lemma SignedIs(t: string)
    ensures Matches(Primitives.SIGNED_INTEGRAL, t, Builtin(PrimitiveTable())) <==> SignedText(t)
  {
    var I := Builtin(PrimitiveTable());
    NumberTexts.SignedMeans(t, I);
    IntegralIs(t);
    assert t[0..] == t && t[..0] == "";
    if IntegralText(t) { assert NumberTexts.SignedAt(t, 0, I); }
    if t != "" {
      IntegralIs(t[1..]);
      assert t[..1] == [t[0]];
      if t[0] == '-' && IntegralText(t[1..]) { assert NumberTexts.SignedAt(t, 1, I); }
    }
    if a: nat :| NumberTexts.SignedAt(t, a, I) { NumberTexts.SignLength(t, a); }
  }

  lemma IntegerIs(s: string)
    ensures IsKind("integer", s) <==> exists b: nat :: b <= |s| && SignedText(s[..b]) && IsBlank(s[b..])
  {
    var I := Builtin(PrimitiveTable());
    var xs := [Primitives.SIGNED_INTEGRAL] + [SP];
    KindIs("integer", s);
    assert xs == [Primitives.SIGNED_INTEGRAL, SP];
    assert Primitives.BodyOf("integer") == [Body(xs)];
    MatchesAltsOne(xs, s, I);
    if MatchesSyms(xs, s, I) {
      var b := NumberTexts.FirstOf(Primitives.SIGNED_INTEGRAL, [SP], s, I);
      MatchesOne(SP, s[b..], I);
      SignedIs(s[..b]);
    }
    if b: nat :| b <= |s| && SignedText(s[..b]) && IsBlank(s[b..]) {
      SignedIs(s[..b]);
      MatchesOne(SP, s[b..], I);
      NumberTexts.FirstThen(Primitives.SIGNED_INTEGRAL, [SP], s, b, I);
    }
  }

  predicate FractionText(t: string) { t == "" || (t[0] == '.' && AllDigits(t[1..]) && 1 <= |t[1..]| <= 16) }

  lemma FractionIs(t: string)
    ensures Matches(NumberTexts.FRACTION, t, Builtin(PrimitiveTable())) <==> FractionText(t)
  {
    NumberTexts.FractionMeans(t, Builtin(PrimitiveTable()));
    if t != "" { DecimalIs(t[1..]); }
  }

  predicate ExponentText(t: string) {
    || t == ""
    || (t[0] in {'e', 'E'} && IntegralText(t[1..]))
    || (t[0] in {'e', 'E'} && |t| >= 2 && t[1] in {'-', '+'} && IntegralText(t[2..]))
  }

  /** An optional sign, and an integral part. */
  function SignedSyms(signs: string): seq<Sym> { [Opt(Class(signs))] + [Primitives.INTEGRAL] }

  lemma SignThen(signs: string, t: string)
    requires signs == "-+"
    ensures MatchesSyms(SignedSyms(signs), t, Builtin(PrimitiveTable())) <==>
            IntegralText(t) || (t != "" && t[0] in {'-', '+'} && IntegralText(t[1..]))
  {
    var I := Builtin(PrimitiveTable());
    if MatchesSyms(SignedSyms(signs), t, I) {
      var i := NumberTexts.FirstOf(Opt(Class(signs)), [Primitives.INTEGRAL], t, I);
      OptMatches(Class(signs), t[..i], I);
      MatchesOne(Primitives.INTEGRAL, t[i..], I);
      IntegralIs(t[i..]);
      if i > 0 { TwoClass(signs, '-', '+', t[..i][0]); } else { assert t[0..] == t; }
    }
    if IntegralText(t) {
      IntegralIs(t);
      assert t[0..] == t;
      SignJoins(signs, t, 0, I);
    }
    if t != "" && t[0] in {'-', '+'} && IntegralText(t[1..]) {
      IntegralIs(t[1..]);
      SignJoins(signs, t, 1, I);
    }
  }

  lemma OptThen(x: Sym, rest: seq<Sym>, t: string, i: nat, I: Interp)
    requires i <= |t| && (t[..i] == "" || Matches(x, t[..i], I)) && MatchesSyms(rest, t[i..], I)
    ensures MatchesSyms([Opt(x)] + rest, t, I)
  {
    OptMatches(x, t[..i], I);
    NumberTexts.FirstThen(Opt(x), rest, t, i, I);
  }

  lemma SignJoins(signs: string, t: string, i: nat, I: Interp)
    requires signs == "-+" && i <= |t| && (i == 0 || (i == 1 && t[0] in {'-', '+'})) && ("integral-part", t[i..]) in I
    ensures MatchesSyms(SignedSyms(signs), t, I)
  {
    if i == 1 {
      TwoClass(signs, '-', '+', t[0]);
      assert t[..1] == [t[0]];
    }
    MatchesOne(Primitives.INTEGRAL, t[i..], I);
    OptThen(Class(signs), [Primitives.INTEGRAL], t, i, I);
  }

  lemma ExponentIs(t: string)
    ensures Matches(NumberTexts.EXPONENT, t, Builtin(PrimitiveTable())) <==> ExponentText(t)
  {
    var I := Builtin(PrimitiveTable());
    var xs := [Class("eE")] + SignedSyms("-+");
    assert xs == [Class("eE"), Opt(Class("-+")), Primitives.INTEGRAL];
    OptMatches(Group([Body(xs)]), t, I);
    assert Matches(Group([Body(xs)]), t, I) <==> MatchesAlts([Body(xs)], t, I);
    MatchesAltsOne(xs, t, I);
    ClassThen("eE", SignedSyms("-+"), t, I);
    if t != "" {
      TwoClass("eE", 'e', 'E', t[0]);
      SignThen("-+", t[1..]);
      if |t| >= 2 { assert t[1..][1..] == t[2..] && t[1..][0] == t[1]; }
    }
  }

  /** A signed integral part up to a, a fraction up to b, an exponent up to c, white space. */
  ghost predicate NumberText(s: string, a: nat, b: nat, c: nat) {
    && a <= b <= c <= |s| && SignedText(s[..a]) && FractionText(s[a..b]) && ExponentText(s[b..c]) && IsBlank(s[c..])
  }

  lemma NumberIs(s: string)
    ensures IsKind("number", s) <==> exists a: nat, b: nat, c: nat :: NumberText(s, a, b, c)
  {
    var I := Builtin(PrimitiveTable());
    KindIs("number", s);
    if MatchesAlts(Primitives.BodyOf("number"), s, I) {
      var a, b, c := NumberTexts.NumberSplits(s, I);
      SignedIs(s[..a]);
      FractionIs(s[a..b]);
      ExponentIs(s[b..c]);
      assert NumberText(s, a, b, c);
    }
    if a: nat, b: nat, c: nat :| NumberText(s, a, b, c) { NumberJoins(s, a, b, c); }
  }

  lemma NumberJoins(s: string, a: nat, b: nat, c: nat)
    requires NumberText(s, a, b, c)
    ensures MatchesAlts(Primitives.BodyOf("number"), s, Builtin(PrimitiveTable()))
  {
    var I := Builtin(PrimitiveTable());
    SignedIs(s[..a]);
    FractionIs(s[a..b]);
    ExponentIs(s[b..c]);
    ThreeJoin(Primitives.SIGNED_INTEGRAL, NumberTexts.FRACTION, NumberTexts.EXPONENT, s, a, b, c, I);
    NumberTexts.NumberBody(s, I);
  }

  lemma ThreeJoin(x: Sym, y: Sym, z: Sym, s: string, a: nat, b: nat, c: nat, I: Interp)
    requires a <= b <= c <= |s| && Matches(x, s[..a], I) && Matches(y, s[a..b], I) && Matches(z, s[b..c], I)
    requires ("space", s[c..]) in I
    ensures MatchesSyms([x] + ([y] + ([z] + [SP])), s, I)
  {
    MatchesOne(SP, s[c..], I);
    NumberTexts.SlicesBehind(s, b, c - b);
    NumberTexts.FirstThen(z, [SP], s[b..], c - b, I);
    NumberTexts.SlicesBehind(s, a, b - a);
    NumberTexts.FirstThen(y, [z] + [SP], s[a..], b - a, I);
    NumberTexts.FirstThen(x, [y] + ([z] + [SP]), s, a, I);
  }

  // ---------------------------------------------------------------------------------------------
  // Values, arrays and objects
  // ---------------------------------------------------------------------------------------------

  lemma RefMatches(kind: string, s: string, I: Interp)
    ensures MatchesSyms([Ref(kind)], s, I) <==> (kind, s) in I
  {
    MatchesOne(Ref(kind), s, I);
  }

  lemma SixRefs(a: string, b: string, c: string, d: string, e: string, f: string, s: string, I: Interp)
    ensures MatchesAlts([Body([Ref(a)]), Body([Ref(b)]), Body([Ref(c)]), Body([Ref(d)]), Body([Ref(e)]),
                         Body([Ref(f)])], s, I) <==>
            (a, s) in I || (b, s) in I || (c, s) in I || (d, s) in I || (e, s) in I || (f, s) in I
  {
    var alts := [Body([Ref(a)]), Body([Ref(b)]), Body([Ref(c)]), Body([Ref(d)]), Body([Ref(e)]), Body([Ref(f)])];
    var kinds := [a, b, c, d, e, f];
    forall i | 0 <= i < 6 ensures MatchesSyms(alts[i].syms, s, I) <==> (kinds[i], s) in I {
      RefMatches(kinds[i], s, I);
    }
    assert MatchesAlts(alts, s, I) <==> exists i :: 0 <= i < 6 && MatchesSyms(alts[i].syms, s, I);
    if (a, s) in I { assert MatchesSyms(alts[0].syms, s, I); }
    if (b, s) in I { assert MatchesSyms(alts[1].syms, s, I); }
    if (c, s) in I { assert MatchesSyms(alts[2].syms, s, I); }
    if (d, s) in I { assert MatchesSyms(alts[3].syms, s, I); }
    if (e, s) in I { assert MatchesSyms(alts[4].syms, s, I); }
    if (f, s) in I { assert MatchesSyms(alts[5].syms, s, I); }
  }

  /** A value is an object, an array, a string, a number, a truth value or null. */
  lemma ValueIs(s: string)
    ensures IsKind("value", s) <==>
            IsKind("object", s) || IsKind("array", s) || IsKind("string", s) || IsKind("number", s)
            || IsKind("boolean", s) || IsKind("null", s)
  {
    KindIs("value", s);
    SixRefs("object", "array", "string", "number", "boolean", "null", s, Builtin(PrimitiveTable()));
  }

  /** Items joined by commas. */
  ghost predicate Listed(kind: string, t: string) {
    exists vs: seq<string> ::
      (forall i :: 0 <= i < |vs| ==> IsKind(kind, vs[i])) && Joined(vs, t, COMMA, Builtin(PrimitiveTable()))
  }

  lemma OptionalList(x: Sym, t: string, I: Interp)
    ensures Matches(Opt(Group([Body([x, Star(Group([Body(COMMA + [x])]))])])), t, I) <==>
            exists vs: seq<string> :: EachMatches(x, vs, I) && Joined(vs, t, COMMA, I)
  {
    var xs := [x, Star(Group([Body(COMMA + [x])]))];
    OptMatches(Group([Body(xs)]), t, I);
    assert Matches(Group([Body(xs)]), t, I) <==> MatchesAlts([Body(xs)], t, I);
    MatchesAltsOne(xs, t, I);
    FirstAndTail(x, 0, None, COMMA, t, I);
    if t == "" { assert EachMatches(x, [], I) && Joined([], t, COMMA, I); }
    if vs :| EachMatches(x, vs, I) && Joined(vs, t, COMMA, I) {
      if vs != [] { assert RepCount(0, None, |vs| - 1); }
    }
  }

  /** Between the brackets is what the symbol accepts. */
  lemma BracketsMean(T: Table, open: char, close: char, x: Sym, Q: string -> bool, s: string, I: Interp)
    requires SpaceOk(T, I) && forall t :: Matches(x, t, I) <==> Q(t)
    ensures MatchesSyms(Bracketed(open, close, [x]), s, I) <==>
            exists i: nat, j: nat :: Enclosed(T, open, close, s, i, j) && Q(s[i..j])
  {
    if MatchesSyms(Bracketed(open, close, [x]), s, I) {
      var i, j := BracketsSplit(T, open, close, x, s, I);
      assert Q(s[i..j]);
    }
    if i: nat, j: nat :| Enclosed(T, open, close, s, i, j) && Q(s[i..j]) {
      BracketsJoin(T, open, close, x, s, i, j, I);
    }
  }

  lemma BracketsSplit(T: Table, open: char, close: char, x: Sym, s: string, I: Interp) returns (i: nat, j: nat)
    requires SpaceOk(T, I) && MatchesSyms(Bracketed(open, close, [x]), s, I)
    ensures Enclosed(T, open, close, s, i, j) && Matches(x, s[i..j], I)
  {
    BracketedMeans(T, open, close, [x], s, I);
    i, j :| Enclosed(T, open, close, s, i, j) && MatchesSyms([x], s[i..j], I);
    MatchesOne(x, s[i..j], I);
  }

  lemma BracketsJoin(T: Table, open: char, close: char, x: Sym, s: string, i: nat, j: nat, I: Interp)
    requires SpaceOk(T, I) && Enclosed(T, open, close, s, i, j) && Matches(x, s[i..j], I)
    ensures MatchesSyms(Bracketed(open, close, [x]), s, I)
  {
    MatchesOne(x, s[i..j], I);
    BracketedMeans(T, open, close, [x], s, I);
  }

  const VALUES: Sym := Opt(Group([Body([Ref("value"), Star(Group([Body(COMMA + [Ref("value")])]))])]))

  lemma ValuesMean(t: string)
    ensures Matches(VALUES, t, Builtin(PrimitiveTable())) <==> Listed("value", t)
  {
    var I := Builtin(PrimitiveTable());
    OptionalList(Ref("value"), t, I);
    forall vs: seq<string>
      ensures EachMatches(Ref("value"), vs, I) <==> forall i :: 0 <= i < |vs| ==> IsKind("value", vs[i])
    {
    }
  }

  lemma ArrayBody()
    ensures Primitives.BodyOf("array") == [Body(Bracketed('[', ']', [VALUES]))]
  {
    assert COMMA + [Ref("value")] == [Lit(","), SP, Ref("value")];
    assert Bracketed('[', ']', [VALUES]) == [Lit("["), SP, VALUES, Lit("]"), SP];
  }

  /** Any number of values between brackets. */
  lemma ArrayIs(s: string)
    ensures IsKind("array", s) <==>
            exists i: nat, j: nat :: Enclosed(PrimitiveTable(), '[', ']', s, i, j) && Listed("value", s[i..j])
  {
    var T := PrimitiveTable();
    KindIs("array", s);
    ArrayBody();
    MatchesAltsOne(Bracketed('[', ']', [VALUES]), s, Builtin(T));
    forall t ensures Matches(VALUES, t, Builtin(T)) <==> Listed("value", t) { ValuesMean(t); }
    BracketsMean(T, '[', ']', VALUES, t => Listed("value", t), s, Builtin(T));
  }

  // ---------------------------------------------------------------------------------------------
  // Objects
  // ---------------------------------------------------------------------------------------------

  /** Accept the same texts. */
  ghost predicate SameTexts(x: Sym, y: Sym, I: Interp) { forall t :: Matches(x, t, I) <==> Matches(y, t, I) }

  lemma {:induction false} SameTimes(x: Sym, y: Sym, k: nat, t: string, I: Interp)
    requires SameTexts(x, y, I)
    ensures MatchesTimes(x, k, t, I) <==> MatchesTimes(y, k, t, I)
    decreases k
  {
    if k > 0 {
      forall i | 0 <= i <= |t|
        ensures Matches(x, t[..i], I) && MatchesTimes(x, k - 1, t[i..], I) <==>
                Matches(y, t[..i], I) && MatchesTimes(y, k - 1, t[i..], I)
      {
        SameTimes(x, y, k - 1, t[i..], I);
      }
    }
  }

  lemma SameRep(x: Sym, y: Sym, lo: nat, hi: Option<nat>, I: Interp)
    requires SameTexts(x, y, I)
    ensures SameTexts(Rep(x, lo, hi), Rep(y, lo, hi), I)
  {
    forall t ensures Matches(Rep(x, lo, hi), t, I) <==> Matches(Rep(y, lo, hi), t, I) {
      forall k: nat ensures MatchesTimes(x, k, t, I) <==> MatchesTimes(y, k, t, I) { SameTimes(x, y, k, t, I); }
    }
  }

  /** Symbols in a group of their own. */
  function Grouped(xs: seq<Sym>): Sym { Group([Body(xs)]) }

  lemma GroupedMeans(xs: seq<Sym>, t: string, I: Interp)
    ensures Matches(Grouped(xs), t, I) <==> MatchesSyms(xs, t, I)
  {
    assert Matches(Grouped(xs), t, I) <==> MatchesAlts([Body(xs)], t, I);
    MatchesAltsOne(xs, t, I);
  }

  lemma GroupedAfter(front: seq<Sym>, xs: seq<Sym>, t: string, I: Interp)
    ensures MatchesSyms(front + xs, t, I) <==> MatchesSyms(front + [Grouped(xs)], t, I)
  {
    if MatchesSyms(front + xs, t, I) {
      var i := MatchesSplit(front, xs, t, I);
      GroupedMeans(xs, t[i..], I);
      MatchesOne(Grouped(xs), t[i..], I);
      MatchesConcat(front, [Grouped(xs)], t, i, I);
    }
    if MatchesSyms(front + [Grouped(xs)], t, I) {
      var i := MatchesSplit(front, [Grouped(xs)], t, I);
      MatchesOne(Grouped(xs), t[i..], I);
      GroupedMeans(xs, t[i..], I);
      MatchesConcat(front, xs, t, i, I);
    }
  }

  lemma GroupedBefore(xs: seq<Sym>, y: Sym, z: Sym, t: string, I: Interp)
    requires SameTexts(y, z, I)
    ensures MatchesSyms(xs + [y], t, I) <==> MatchesSyms([Grouped(xs), z], t, I)
  {
    assert [Grouped(xs)] + [z] == [Grouped(xs), z];
    if MatchesSyms(xs + [y], t, I) {
      var i := MatchesSplit(xs, [y], t, I);
      GroupedMeans(xs, t[..i], I);
      MatchesOne(Grouped(xs), t[..i], I);
      MatchesOne(y, t[i..], I);
      MatchesOne(z, t[i..], I);
      MatchesConcat([Grouped(xs)], [z], t, i, I);
    }
    if MatchesSyms([Grouped(xs)] + [z], t, I) {
      var i := MatchesSplit([Grouped(xs)], [z], t, I);
      MatchesOne(Grouped(xs), t[..i], I);
      GroupedMeans(xs, t[..i], I);
      MatchesOne(z, t[i..], I);
      MatchesOne(y, t[i..], I);
      MatchesConcat(xs, [y], t, i, I);
    }
  }

  /** Symbols repeated with commas, spelled out as in the rule for objects. */
  lemma OptionalItems(xs: seq<Sym>, t: string, I: Interp)
    ensures Matches(Opt(Group([Body(xs + [Star(Group([Body(COMMA + xs)]))])])), t, I) <==>
            exists vs: seq<string> :: EachMatches(Grouped(xs), vs, I) && Joined(vs, t, COMMA, I)
  {
    var x := Grouped(xs);
    var y, z := Group([Body(COMMA + xs)]), Group([Body(COMMA + [x])]);
    forall u ensures Matches(y, u, I) <==> Matches(z, u, I) {
      GroupedMeans(COMMA + xs, u, I);
      GroupedMeans(COMMA + [x], u, I);
      GroupedAfter(COMMA, xs, u, I);
    }
    SameRep(y, z, 0, None, I);
    GroupedBefore(xs, Star(y), Star(z), t, I);
    GroupedMeans(xs + [Star(y)], t, I);
    GroupedMeans([x, Star(z)], t, I);
    OptMatches(Grouped(xs + [Star(y)]), t, I);
    OptMatches(Grouped([x, Star(z)]), t, I);
    OptionalList(x, t, I);
  }

  /** A string up to b, a colon, white space up to c, a value. */
  ghost predicate PairAt(t: string, b: nat, c: nat) {
    b < c <= |t| && IsKind("string", t[..b]) && t[b] == ':' && IsBlank(t[b + 1..c]) && IsKind("value", t[c..])
  }

  ghost predicate IsPair(t: string) { exists b: nat, c: nat :: PairAt(t, b, c) }

  /** The same of any two rules for the key and the value. */
  ghost predicate KeyedAt(key: string, value: string, t: string, b: nat, c: nat, I: Interp) {
    && b < c <= |t| && (key, t[..b]) in I && t[b] == ':' && ("space", t[b + 1..c]) in I
    && (value, t[c..]) in I
  }

  function Keyed(key: string, value: string): seq<Sym> { [Ref(key)] + ([Lit(":")] + ([SP] + [Ref(value)])) }

  /** The same from the colon on. */
  lemma ColonParts(value: string, t: string, I: Interp) returns (c: nat)
    requires MatchesSyms([Lit(":")] + ([SP] + [Ref(value)]), t, I)
    ensures 0 < c <= |t| && t[0] == ':' && ("space", t[1..][..c - 1]) in I && (value, t[1..][c - 1..]) in I
  {
    LitThen(":", [SP] + [Ref(value)], t, I);
    var i := NumberTexts.FirstOf(SP, [Ref(value)], t[1..], I);
    MatchesOne(Ref(value), t[1..][i..], I);
    c := 1 + i;
  }

  lemma KeyedParts(key: string, value: string, t: string, I: Interp) returns (b: nat, c: nat)
    requires MatchesSyms(Keyed(key, value), t, I)
    ensures KeyedAt(key, value, t, b, c, I)
  {
    b := NumberTexts.FirstOf(Ref(key), [Lit(":")] + ([SP] + [Ref(value)]), t, I);
    var i := ColonParts(value, t[b..], I);
    assert t[b..][1..] == t[b + 1..];
    NumberTexts.SlicesBehind(t, b + 1, i - 1);
    c := b + i;
  }

  lemma PartsKeyed(key: string, value: string, t: string, b: nat, c: nat, I: Interp)
    requires KeyedAt(key, value, t, b, c, I)
    ensures MatchesSyms(Keyed(key, value), t, I)
  {
    var behind := [SP] + [Ref(value)];
    var u := t[b + 1..];
    NumberTexts.SlicesBehind(t, b + 1, c - b - 1);
    MatchesOne(Ref(value), t[c..], I);
    NumberTexts.FirstThen(SP, [Ref(value)], u, c - b - 1, I);
    assert t[b..][..1] == [t[b]] && t[b..][1..] == u;
    LitThen(":", behind, t[b..], I);
    NumberTexts.FirstThen(Ref(key), [Lit(":")] + behind, t, b, I);
  }

  lemma PairIs(t: string)
    ensures Matches(Grouped(Primitives.KEY_VALUE), t, Builtin(PrimitiveTable())) <==> IsPair(t)
  {
    GroupedMeans(Primitives.KEY_VALUE, t, Builtin(PrimitiveTable()));
    assert Keyed("string", "value") == Primitives.KEY_VALUE;
    if MatchesSyms(Keyed("string", "value"), t, Builtin(PrimitiveTable())) {
      var b, c := KeyedParts("string", "value", t, Builtin(PrimitiveTable()));
      assert PairAt(t, b, c);
    }
    if b: nat, c: nat :| PairAt(t, b, c) {
      PartsKeyed("string", "value", t, b, c, Builtin(PrimitiveTable()));
    }
  }

  /** Pairs joined by commas. */
  ghost predicate PairsListed(t: string) {
    exists vs: seq<string> ::
      (forall i :: 0 <= i < |vs| ==> IsPair(vs[i])) && Joined(vs, t, COMMA, Builtin(PrimitiveTable()))
  }

  const PAIRS: Sym := Opt(Group([Body(Primitives.KEY_VALUE + [Star(Group([Body(COMMA + Primitives.KEY_VALUE)]))])]))

  lemma PairsMean(t: string)
    ensures Matches(PAIRS, t, Builtin(PrimitiveTable())) <==> PairsListed(t)
  {
    var I := Builtin(PrimitiveTable());
    OptionalItems(Primitives.KEY_VALUE, t, I);
    forall vs: seq<string>
      ensures EachMatches(Grouped(Primitives.KEY_VALUE), vs, I) <==> forall i :: 0 <= i < |vs| ==> IsPair(vs[i])
    {
      forall i | 0 <= i < |vs| ensures Matches(Grouped(Primitives.KEY_VALUE), vs[i], I) <==> IsPair(vs[i]) {
        PairIs(vs[i]);
      }
    }
  }

  lemma ObjectBody()
    ensures Primitives.BodyOf("object") == [Body(Bracketed('{', '}', [PAIRS]))]
  {
    assert COMMA == [Lit(","), SP];
    assert Bracketed('{', '}', [PAIRS]) == [Lit("{"), SP, PAIRS, Lit("}"), SP];
  }

  /** Any number of pairs between braces. */
  lemma ObjectIs(s: string)
    ensures IsKind("object", s) <==>
            exists i: nat, j: nat :: Enclosed(PrimitiveTable(), '{', '}', s, i, j) && PairsListed(s[i..j])
  {
    var T := PrimitiveTable();
    KindIs("object", s);
    ObjectBody();
    MatchesAltsOne(Bracketed('{', '}', [PAIRS]), s, Builtin(T));
    forall t ensures Matches(PAIRS, t, Builtin(T)) <==> PairsListed(t) { PairsMean(t); }
    BracketsMean(T, '{', '}', PAIRS, t => PairsListed(t), s, Builtin(T));
  }

  // ---------------------------------------------------------------------------------------------
  // UUIDs
  // ---------------------------------------------------------------------------------------------

  /** A character, or so many hexadecimal digits. */
  datatype Piece = One(c: char) | Hexes(n: nat)

  function SizeOf(pieces: seq<Piece>): nat {
    if pieces == [] then 0 else (if pieces[0].One? then 1 else pieces[0].n) + SizeOf(pieces[1..])
  }

  function SymsOf(hex: string, pieces: seq<Piece>): seq<Sym> {
    if pieces == [] then []
    else [if pieces[0].One? then Lit([pieces[0].c]) else Exactly(pieces[0].n, Class(hex))] + SymsOf(hex, pieces[1..])
  }

  /** The text begins with these pieces. */
  predicate Begins(pieces: seq<Piece>, s: string) {
    pieces == []
    || if pieces[0].One? then s != "" && s[0] == pieces[0].c && Begins(pieces[1..], s[1..])
       else |s| >= pieces[0].n && AllOf(IsHex, s[..pieces[0].n]) && Begins(pieces[1..], s[pieces[0].n..])
  }

  lemma {:induction false} PiecesThen(hex: string, pieces: seq<Piece>, rest: seq<Sym>, s: string, I: Interp)
    requires ClassOf(hex, IsHex)
    ensures MatchesSyms(SymsOf(hex, pieces) + rest, s, I) <==>
            |s| >= SizeOf(pieces) && Begins(pieces, s) && MatchesSyms(rest, s[SizeOf(pieces)..], I)
  {
    if pieces == [] {
      assert [] + rest == rest && s[0..] == s;
    } else {
      var p, more := pieces[0], SymsOf(hex, pieces[1..]) + rest;
      var k := if p.One? then 1 else p.n;
      assert SymsOf(hex, pieces) + rest == [if p.One? then Lit([p.c]) else Exactly(p.n, Class(hex))] + more;
      if p.One? {
        LitThen([p.c], more, s, I);
        if s != "" { assert s[..1] == [s[0]]; }
      } else {
        RepThen(hex, IsHex, p.n, more, s, I);
      }
      if |s| >= k {
        PiecesThen(hex, pieces[1..], rest, s[k..], I);
        if |s| >= SizeOf(pieces) { assert s[k..][SizeOf(pieces[1..])..] == s[SizeOf(pieces)..]; }
      }
    }
  }

  lemma {:induction false} PiecesConcat(hex: string, a: seq<Piece>, b: seq<Piece>)
    ensures SizeOf(a + b) == SizeOf(a) + SizeOf(b) && SymsOf(hex, a + b) == SymsOf(hex, a) + SymsOf(hex, b)
  {
    if a == [] {
      assert a + b == b;
    } else {
      assert (a + b)[0] == a[0] && (a + b)[1..] == a[1..] + b;
      PiecesConcat(hex, a[1..], b);
    }
  }

  /** A character and so many digits. */
  function CharHexes(c: char, n: nat): seq<Piece> { [One(c), Hexes(n)] }

  function CharHexSyms(hex: string, c: char, n: nat): seq<Sym> { [Lit([c]), Exactly(n, Class(hex))] }

  lemma OfCharHexes(hex: string, c: char, n: nat)
    ensures SizeOf(CharHexes(c, n)) == 1 + n && SymsOf(hex, CharHexes(c, n)) == CharHexSyms(hex, c, n)
  {
    var p := [Hexes(n)];
    assert p[1..] == [] && SizeOf(p) == n + SizeOf(p[1..]);
    assert SymsOf(hex, p) == [Exactly(p[0].n, Class(hex))] + SymsOf(hex, p[1..]);
    OfOne(hex, c);
    PiecesConcat(hex, [One(c)], [Hexes(n)]);
    assert CharHexes(c, n) == [One(c)] + [Hexes(n)];
  }

  lemma OfOne(hex: string, c: char)
    ensures SizeOf([One(c)]) == 1 && SymsOf(hex, [One(c)]) == [Lit([c])]
  {
    assert [One(c)][1..] == [];
  }

  const UUID: seq<Piece> :=
    CharHexes('"', 8)
    + (CharHexes('-', 4) + (CharHexes('-', 4) + (CharHexes('-', 4) + (CharHexes('-', 12) + [One('"')]))))

  lemma UuidParts(hex: string)
    ensures SizeOf(UUID) == 38
    ensures SymsOf(hex, UUID) ==
            CharHexSyms(hex, '"', 8)
            + (CharHexSyms(hex, '-', 4)
               + (CharHexSyms(hex, '-', 4)
                  + (CharHexSyms(hex, '-', 4) + (CharHexSyms(hex, '-', 12) + [Lit(['"'])]))))
  {
    var q, d, e, l := CharHexes('"', 8), CharHexes('-', 4), CharHexes('-', 12), [One('"')];
    assert UUID == q + (d + (d + (d + (e + l))));
    OfCharHexes(hex, '"', 8);
    OfCharHexes(hex, '-', 4);
    OfCharHexes(hex, '-', 12);
    OfOne(hex, '"');
    PiecesConcat(hex, e, l);
    PiecesConcat(hex, d, e + l);
    PiecesConcat(hex, d, d + (e + l));
    PiecesConcat(hex, d, d + (d + (e + l)));
    PiecesConcat(hex, q, d + (d + (d + (e + l))));
  }

  lemma UuidBody()
    ensures Primitives.BodyOf("uuid") == [Body(SymsOf("0-9a-fA-F", UUID) + [SP])]
  {
    UuidParts("0-9a-fA-F");
    assert SymsOf("0-9a-fA-F", UUID) + [SP] == Primitives.BodyOf("uuid")[0].syms;
  }

  lemma UuidMeans(hex: string, s: string, I: Interp)
    requires hex == "0-9a-fA-F"
    ensures MatchesSyms(SymsOf(hex, UUID) + [SP], s, I) <==> |s| >= 38 && Begins(UUID, s) && ("space", s[38..]) in I
  {
    UuidParts(hex);
    forall c ensures InClass(hex, c) <==> IsHex(c) { HexClass(hex, c); }
    PiecesThen(hex, UUID, [SP], s, I);
    if |s| >= 38 { MatchesOne(SP, s[38..], I); }
  }

  /** 8, 4, 4, 4 and 12 hexadecimal digits with dashes between them, in quotes; white space. */
  lemma UuidIs(s: string)
    ensures IsKind("uuid", s) <==> |s| >= 38 && Begins(UUID, s) && IsBlank(s[38..])
  {
    KindIs("uuid", s);
    UuidBody();
    MatchesAltsOne(SymsOf("0-9a-fA-F", UUID) + [SP], s, Builtin(PrimitiveTable()));
    UuidMeans("0-9a-fA-F", s, Builtin(PrimitiveTable()));
  }
}
