/** JSON strings, as the built-in rules for them read. */
module StringTexts {
  import opened Options
  import opened Gbnf
  import opened Rules
  import opened Symbols
  import opened IntRange
  import opened NotStrings
  import opened Schemas
  import opened Tables
  import opened Growth
  import opened SchemaGrammar
  import Primitives

  // ---------------------------------------------------------------------------------------------
  // One string character
  // ---------------------------------------------------------------------------------------------

  /** A built-in rule on its own derives what its body accepts. */
  lemma BuiltinKind(k: string, s: string)
    requires k in Primitives.KINDS
    ensures (k, s) in Builtin(PrimitiveTable()) <==>
            MatchesAlts(Primitives.BodyOf(k), s, Builtin(PrimitiveTable()))
  {
    var T := PrimitiveTable();
    PrimitivesAreGood();
    TableHolds(k);
    ContentMeaning(T, Base(T), k, k);
    assert Derives(Base(T), k, s) <==> (k, s) in Builtin(T);
  }

  lemma BackslashClass(c: char)
    requires InClass("\\\\", c)
    ensures c == '\\'
  {
    EscapedBackslash("\\\\");
    OneCharacterReads("\\\\", 2, '\\', "");
  }

  /** A string character is a plain one, or a backslash and something behind it. */
  predicate CharForm(s: string) { (|s| == 1 && PlainJson(s)) || (|s| >= 2 && s[0] == '\\') }

  lemma PlainCharMeans(s: string, I: Interp)
    ensures MatchesSyms([Class(Primitives.CHAR_CLASS)], s, I) <==> |s| == 1 && PlainJson(s)
  {
    MatchesOne(Class(Primitives.CHAR_CLASS), s, I);
    if |s| == 1 { Primitives.CharClassMeans(s[0]); }
  }

  const ESCAPE: seq<Sym> := [Group([Body([Class("\"\\\\bfnrt")]), Body([Lit("u"), Primitives.HEX4])])]

  lemma EscapeNotEmpty(I: Interp)
    ensures !MatchesSyms(ESCAPE, "", I)
  {
    var a, b := [Class("\"\\\\bfnrt")], [Lit("u")] + [Primitives.HEX4];
    var alts := [Body(a)] + [Body(b)];
    assert b == [Lit("u"), Primitives.HEX4];
    assert alts == [Body(a), Body(b)] && ESCAPE == [Group(alts)];
    MatchesOne(Group(alts), "", I);
    MatchesAltsConcat([Body(a)], [Body(b)], "", I);
    MatchesAltsOne(a, "", I);
    MatchesAltsOne(b, "", I);
    MatchesOne(a[0], "", I);
    LitThen("u", [Primitives.HEX4], "", I);
  }

  lemma EscapeForm(s: string, I: Interp)
    requires MatchesSyms([Class("\\\\")] + ESCAPE, s, I)
    ensures |s| >= 2 && s[0] == '\\'
  {
    var xs := [Class("\\\\")] + ESCAPE;
    var i := MatchesUncons(xs, s, I);
    assert xs[1..] == ESCAPE;
    BackslashClass(s[..i][0]);
    if s[i..] == "" { EscapeNotEmpty(I); }
  }

  lemma CharBodyMeans(s: string, I: Interp)
    ensures MatchesAlts(Primitives.BodyOf("char"), s, I) ==> CharForm(s)
    ensures |s| == 1 && PlainJson(s) ==> MatchesAlts(Primitives.BodyOf("char"), s, I)
  {
    var a, b := [Class(Primitives.CHAR_CLASS)], [Class("\\\\")] + ESCAPE;
    assert b == [Class("\\\\"), ESCAPE[0]];
    assert Primitives.BodyOf("char") == [Body(a)] + [Body(b)];
    MatchesAltsConcat([Body(a)], [Body(b)], s, I);
    MatchesAltsOne(a, s, I);
    MatchesAltsOne(b, s, I);
    PlainCharMeans(s, I);
    if MatchesSyms(b, s, I) { EscapeForm(s, I); }
  }

  lemma QuoteBackslashReads(u: string, t: string, letters: string)
    requires t == ['\\', '\\'] + letters && u == ['"'] + t
    requires ReadRanges(letters).Some? && (|letters| < 2 || letters[0] != '-')
    ensures ReadRanges(u) == Some([('"', '"')] + ([('\\', '\\')] + ReadRanges(letters).value))
  {
    EscapedBackslash(t);
    assert t[2..] == letters && u[1..] == t;
    OneCharacterReads(t, 2, '\\', letters);
    OneCharacterReads(u, 1, '"', t);
  }

  lemma BackslashInClass(letters: string)
    requires ReadRanges(letters).Some? && (|letters| < 2 || letters[0] != '-')
    ensures InClass(['"'] + (['\\', '\\'] + letters), '\\')
  {
    var t := ['\\', '\\'] + letters;
    QuoteBackslashReads(['"'] + t, t, letters);
    SecondRange(ReadRanges(letters).value, '\\');
  }

  lemma EscapeClassIs(text: string, letters: string)
    requires text == "\"\\\\bfnrt" && letters == text[3..]
    ensures text == ['"'] + (['\\', '\\'] + letters)
    ensures letters == "bfnrt" && letters[0] != '-'
  {
  }

  /** The backslash is one of the characters that can be escaped. */
  lemma EscapeClassReads(text: string)
    requires text == "\"\\\\bfnrt"
    ensures InClass(text, '\\')
  {
    var letters := text[3..];
    EscapeClassIs(text, letters);
    Primitives.LettersRead(letters);
    BackslashInClass(letters);
  }

  lemma SecondRange(rs: seq<(char, char)>, c: char)
    ensures InRanges([('"', '"')] + ([(c, c)] + rs), c)
  {
    var all := [('"', '"')] + ([(c, c)] + rs);
    assert all[1] == (c, c);
  }

  lemma EscapedBackslashMatches(I: Interp)
    ensures MatchesSyms(ESCAPE, ['\\'], I)
  {
    var a, b := [Class("\"\\\\bfnrt")], [Lit("u"), Primitives.HEX4];
    EscapeClassReads("\"\\\\bfnrt");
    MatchesOne(a[0], ['\\'], I);
    MatchesAltsOne(a, ['\\'], I);
    MatchesAltsConcat([Body(a)], [Body(b)], ['\\'], I);
    assert [Body(a)] + [Body(b)] == [Body(a), Body(b)];
    MatchesOne(Group([Body(a), Body(b)]), ['\\'], I);
  }

  lemma TwoBackslashes(I: Interp)
    ensures MatchesSyms([Class("\\\\")] + ESCAPE, ['\\', '\\'], I)
  {
    var s, x := ['\\', '\\'], Class("\\\\");
    BackslashInOwnClass();
    assert s[..1] == ['\\'] && s[1..] == ['\\'];
    MatchesOne(x, s[..1], I);
    EscapedBackslashMatches(I);
    MatchesConcat([x], ESCAPE, s, 1, I);
  }

  lemma BackslashInOwnClass()
    ensures InClass("\\\\", '\\')
  {
    EscapedBackslash("\\\\");
    OneCharacterReads("\\\\", 2, '\\', "");
    assert InRanges([('\\', '\\')], '\\') by { assert ('\\', '\\') in [('\\', '\\')]; }
  }

  lemma OneOfChars(s: string, charRule: string, I: Interp)
    requires (charRule, s) in I
    ensures Chars(s, charRule, I)
  {
    NoChars(charRule, I);
    CharsCons(s, "", charRule, I);
    assert s + "" == s;
  }

  /** Two backslashes are one string character. */
  lemma BackslashIsEscaped()
    ensures Chars(['\\', '\\'], "char", Builtin(PrimitiveTable()))
  {
    var I, s := Builtin(PrimitiveTable()), ['\\', '\\'];
    TwoBackslashes(I);
    CharSecond(s, I);
    BuiltinKind("char", s);
    OneOfChars(s, "char", I);
  }

  lemma CharSecond(s: string, I: Interp)
    requires MatchesSyms([Class("\\\\")] + ESCAPE, s, I)
    ensures MatchesAlts(Primitives.BodyOf("char"), s, I)
  {
    var a, b := [Class(Primitives.CHAR_CLASS)], [Class("\\\\")] + ESCAPE;
    assert b == [Class("\\\\"), ESCAPE[0]];
    assert Primitives.BodyOf("char") == [Body(a)] + [Body(b)];
    MatchesAltsConcat([Body(a)], [Body(b)], s, I);
    MatchesAltsOne(b, s, I);
  }

  ghost predicate CharsFormed(charRule: string, I: Interp) {
    CharRuleSane(charRule, I) && forall s :: (charRule, s) in I ==> CharForm(s)
  }

  lemma CharIsFormed()
    ensures CharsFormed("char", Builtin(PrimitiveTable()))
  {
    var I := Builtin(PrimitiveTable());
    forall s
      ensures ("char", s) in I ==> CharForm(s)
      ensures |s| == 1 && PlainJson(s) ==> ("char", s) in I
    {
      BuiltinKind("char", s);
      CharBodyMeans(s, I);
    }
    assert !CharForm("");
  }

  // ---------------------------------------------------------------------------------------------
  // Sequences of string characters
  // ---------------------------------------------------------------------------------------------

  lemma CharsCons(t: string, s: string, charRule: string, I: Interp)
    requires (charRule, t) in I && Chars(s, charRule, I)
    ensures Chars(t + s, charRule, I)
  {
    var k: nat :| MatchesTimes(Ref(charRule), k, s, I);
    var u := t + s;
    assert u[..|t|] == t && u[|t|..] == s;
    assert MatchesTimes(Ref(charRule), k + 1, u, I);
  }

  lemma NoChars(charRule: string, I: Interp)
    ensures Chars("", charRule, I)
  {
    assert MatchesTimes(Ref(charRule), 0, "", I);
  }

  lemma CharsUncons(s: string, charRule: string, I: Interp) returns (i: nat)
    requires s != "" && Chars(s, charRule, I)
    ensures i <= |s| && (charRule, s[..i]) in I && Chars(s[i..], charRule, I)
  {
    var k: nat :| MatchesTimes(Ref(charRule), k, s, I);
    i :| 0 <= i <= |s| && Matches(Ref(charRule), s[..i], I) && MatchesTimes(Ref(charRule), k - 1, s[i..], I);
  }

  lemma PlainFirst(s: string, charRule: string, I: Interp)
    requires s != "" && PlainJson(s[..1]) && CharsFormed(charRule, I)
    ensures Chars(s, charRule, I) <==> Chars(s[1..], charRule, I)
  {
    assert s[..1] == [s[0]] && s == s[..1] + s[1..];
    if Chars(s, charRule, I) {
      var i := CharsUncons(s, charRule, I);
      assert CharForm(s[..i]) && s[..i][0] == s[..1][0];
      assert i == 1;
    }
    if Chars(s[1..], charRule, I) { CharsCons(s[..1], s[1..], charRule, I); }
  }

  /** Nothing but a plain character or a backslash begins a sequence of string characters. */
  lemma OddFirst(s: string, charRule: string, I: Interp)
    requires s != "" && Chars(s, charRule, I) && CharsFormed(charRule, I)
    ensures PlainJson(s[..1]) || (s[0] == '\\' && |s| >= 2)
  {
    var i := CharsUncons(s, charRule, I);
    assert CharForm(s[..i]) && s[..i][0] == s[0];
    if s[0] != '\\' { assert i == 1; }
  }

  lemma {:induction false} PlainFront(p: string, s: string, charRule: string, I: Interp)
    requires PlainJson(p) && CharsFormed(charRule, I)
    ensures Chars(p + s, charRule, I) <==> Chars(s, charRule, I)
  {
    if p == "" {
      assert p + s == s;
    } else {
      var u := p + s;
      assert u[1..] == p[1..] + s && u[..1] == p[..1];
      PlainFirst(u, charRule, I);
      PlainFront(p[1..], s, charRule, I);
    }
  }

  /** What follows a plain beginning. */
  lemma PlainUpTo(s: string, k: nat, charRule: string, I: Interp)
    requires k <= |s| && PlainJson(s[..k]) && CharsFormed(charRule, I)
    ensures Chars(s, charRule, I) <==> Chars(s[k..], charRule, I)
  {
    assert s == s[..k] + s[k..];
    PlainFront(s[..k], s[k..], charRule, I);
  }

  lemma SomeCharsIs(s: string, charRule: string, I: Interp)
    requires CharsFormed(charRule, I)
    ensures SomeChars(s, charRule, I) <==> s != "" && Chars(s, charRule, I)
  {
    if SomeChars(s, charRule, I) { NotEmptyChars(s, charRule, I); }
    if s != "" && Chars(s, charRule, I) {
      var k: nat :| MatchesTimes(Ref(charRule), k, s, I);
      assert k >= 1;
    }
  }

  // ---------------------------------------------------------------------------------------------
  // White space has no quotes
  // ---------------------------------------------------------------------------------------------

  predicate NoQuote(s: string) { forall i :: 0 <= i < |s| ==> s[i] != '"' }

  lemma NoQuoteBoth(a: string, b: string)
    requires NoQuote(a) && NoQuote(b)
    ensures NoQuote(a + b)
  {
  }

  /** The symbol accepts no text with a quote. */
  ghost predicate QuoteFree(x: Sym, I: Interp) { forall s :: Matches(x, s, I) ==> NoQuote(s) }

  lemma {:induction false} TimesQuoteFree(x: Sym, k: nat, s: string, I: Interp)
    requires QuoteFree(x, I) && MatchesTimes(x, k, s, I)
    ensures NoQuote(s)
    decreases k
  {
    if k > 0 {
      var i :| 0 <= i <= |s| && Matches(x, s[..i], I) && MatchesTimes(x, k - 1, s[i..], I);
      TimesQuoteFree(x, k - 1, s[i..], I);
      assert s == s[..i] + s[i..];
      NoQuoteBoth(s[..i], s[i..]);
    }
  }

  lemma RepQuoteFree(x: Sym, lo: nat, hi: Option<nat>, s: string, I: Interp)
    requires QuoteFree(x, I) && Matches(Rep(x, lo, hi), s, I)
    ensures NoQuote(s)
  {
    var k: nat :| RepCount(lo, hi, k) && MatchesTimes(x, k, s, I);
    TimesQuoteFree(x, k, s, I);
  }

  lemma BlankTabClass(c: char)
    requires InClass(" \\t", c)
    ensures c in {' ', '\t'}
  {
    OneCharacterReads("\\t", 2, '\t', "");
    OneCharacterReads(" \\t", 1, ' ', "\\t");
  }

  lemma SpaceQuoteFree(w: string, I: Interp)
    requires MatchesAlts(Primitives.SPACE_BODY, w, I)
    ensures NoQuote(w)
  {
    var body := Primitives.SPACE_BODY;
    var ends, blanks := Rep(Lit("\n"), 1, Some(2)), Rep(Class(" \\t"), 0, Some(20));
    assert [ends] + [blanks] == [ends, blanks];
    assert body == [Body([])] + ([Body([Lit(" ")])] + [Body([ends] + [blanks])]);
    MatchesAltsConcat([Body([])], [Body([Lit(" ")])] + [Body([ends] + [blanks])], w, I);
    MatchesAltsConcat([Body([Lit(" ")])], [Body([ends] + [blanks])], w, I);
    MatchesAltsOne([], w, I);
    MatchesAltsOne([Lit(" ")], w, I);
    MatchesAltsOne([ends] + [blanks], w, I);
    MatchesOne(Lit(" "), w, I);
    if MatchesSyms([ends] + [blanks], w, I) { LineQuoteFree(w, I); }
  }

  lemma ConcatQuoteFree(w: string, i: nat)
    requires i <= |w| && NoQuote(w[..i]) && NoQuote(w[i..])
    ensures NoQuote(w)
  {
    assert w == w[..i] + w[i..];
    NoQuoteBoth(w[..i], w[i..]);
  }

  lemma OneQuoteFree(x: Sym, s: string, I: Interp)
    requires MatchesSyms([x], s, I) && QuoteFree(x, I)
    ensures NoQuote(s)
  {
    MatchesOne(x, s, I);
  }

  lemma PairQuoteFree(x: Sym, y: Sym, w: string, I: Interp)
    requires MatchesSyms([x] + [y], w, I) && QuoteFree(x, I) && QuoteFree(y, I)
    ensures NoQuote(w)
  {
    var i := MatchesSplit([x], [y], w, I);
    OneQuoteFree(x, w[..i], I);
    OneQuoteFree(y, w[i..], I);
    ConcatQuoteFree(w, i);
  }

  lemma RepIsQuoteFree(x: Sym, lo: nat, hi: Option<nat>, I: Interp)
    requires QuoteFree(x, I)
    ensures QuoteFree(Rep(x, lo, hi), I)
  {
    forall s | Matches(Rep(x, lo, hi), s, I) ensures NoQuote(s) { RepQuoteFree(x, lo, hi, s, I); }
  }

  lemma ClassQuoteFree(text: string, I: Interp)
    requires forall c :: InClass(text, c) ==> c != '"'
    ensures QuoteFree(Class(text), I)
  {
  }

  lemma BlankTabQuoteFree(text: string, I: Interp)
    requires text == " \\t"
    ensures QuoteFree(Class(text), I)
  {
    forall c ensures InClass(text, c) ==> c != '"' {
      if InClass(text, c) { BlankTabClass(c); }
    }
    ClassQuoteFree(text, I);
  }

  lemma LineQuoteFree(w: string, I: Interp)
    requires MatchesSyms([Rep(Lit("\n"), 1, Some(2))] + [Rep(Class(" \\t"), 0, Some(20))], w, I)
    ensures NoQuote(w)
  {
    RepIsQuoteFree(Lit("\n"), 1, Some(2), I);
    BlankTabQuoteFree(" \\t", I);
    RepIsQuoteFree(Class(" \\t"), 0, Some(20), I);
    PairQuoteFree(Rep(Lit("\n"), 1, Some(2)), Rep(Class(" \\t"), 0, Some(20)), w, I);
  }

  lemma BlankQuoteFree(w: string)
    requires Blank(PrimitiveTable(), w)
    ensures NoQuote(w)
  {
    var T := PrimitiveTable();
    Primitives.SpaceOk();
    ShowThenParse(Primitives.SPACE_BODY);
    assert Base(T)["space"] == ShowAlts(Primitives.SPACE_BODY);
    LangFixpoint(Base(T), "space", w);
    SpaceQuoteFree(w, Builtin(T));
  }

  // ---------------------------------------------------------------------------------------------
  // Strings
  // ---------------------------------------------------------------------------------------------

  /** A quoted body with white space behind it. */
  function KeyOf(body: string, w: string): string { "\"" + body + "\"" + w }

  /** The body can be read off: its end is the last quote. */
  lemma SameBody(a: string, v: string, b: string, w: string)
    requires KeyOf(a, v) == KeyOf(b, w) && NoQuote(v) && NoQuote(w)
    ensures a == b && v == w
  {
    LastQuote(a, v);
    LastQuote(b, w);
    SplitQuoted(KeyOf(a, v), a, v);
    SplitQuoted(KeyOf(b, w), b, w);
  }

  lemma LastQuote(body: string, w: string)
    requires NoQuote(w)
    ensures var k := KeyOf(body, w);
            |k| == |body| + 2 + |w| && k[|body| + 1] == '"' && forall x :: |body| + 1 < x < |k| ==> k[x] != '"'
  {
    var k := KeyOf(body, w);
    forall x | |body| + 1 < x < |k| ensures k[x] != '"' { assert k[x] == w[x - |body| - 2]; }
  }

  lemma StringMeans(body: string, w: string)
    requires Blank(PrimitiveTable(), w)
    ensures ("string", KeyOf(body, w)) in Builtin(PrimitiveTable()) <==> Chars(body, "char", Builtin(PrimitiveTable()))
  {
    var I := Builtin(PrimitiveTable());
    var k := KeyOf(body, w);
    BuiltinKind("string", k);
    if Chars(body, "char", I) { StringJoins(body, w, I); }
    if MatchesAlts(Primitives.BodyOf("string"), k, I) {
      var b, v := StringSplits(k, I);
      BlankQuoteFree(v);
      BlankQuoteFree(w);
      SameBody(body, w, b, v);
    }
  }

  const CHARS: Sym := Star(Ref("char"))
  const STRING: seq<Sym> := [Lit("\"")] + ([CHARS] + ([Lit("\"")] + [SP]))

  lemma StringBody(s: string, I: Interp)
    ensures MatchesAlts(Primitives.BodyOf("string"), s, I) <==> MatchesSyms(STRING, s, I)
  {
    assert STRING == [Lit("\""), CHARS, Lit("\""), SP];
    assert Primitives.BodyOf("string") == [Body(STRING)];
    MatchesAltsOne(STRING, s, I);
  }

  lemma QuoteThen(rest: seq<Sym>, t: string, I: Interp)
    ensures MatchesSyms([Lit("\"")] + rest, t, I) <==> t != "" && t[0] == '"' && MatchesSyms(rest, t[1..], I)
  {
    LitThen("\"", rest, t, I);
    if t != "" { assert t[..1] == [t[0]]; }
  }

  lemma CharsMean(s: string, I: Interp)
    ensures Matches(CHARS, s, I) <==> Chars(s, "char", I)
  {
    if k: nat :| MatchesTimes(Ref("char"), k, s, I) { assert RepCount(0, None, k); }
  }

  const END: seq<Sym> := [Lit("\"")] + [SP]

  lemma EndMatches(w: string, I: Interp)
    requires ("space", w) in I
    ensures MatchesSyms(END, "\"" + w, I)
  {
    var q := "\"" + w;
    assert q[1..] == w;
    MatchesOne(SP, w, I);
    QuoteThen([SP], q, I);
  }

  lemma CharsThenEnd(body: string, q: string, I: Interp)
    requires Chars(body, "char", I) && MatchesSyms(END, q, I)
    ensures MatchesSyms([CHARS] + END, body + q, I)
  {
    var t := body + q;
    CharsMean(body, I);
    MatchesOne(CHARS, body, I);
    assert t[..|body|] == body && t[|body|..] == q;
    MatchesConcat([CHARS], END, t, |body|, I);
  }

  lemma StringJoins(body: string, w: string, I: Interp)
    requires Chars(body, "char", I) && ("space", w) in I
    ensures MatchesAlts(Primitives.BodyOf("string"), KeyOf(body, w), I)
  {
    var t, k := body + ("\"" + w), KeyOf(body, w);
    EndMatches(w, I);
    CharsThenEnd(body, "\"" + w, I);
    assert k[1..] == t && k[0] == '"';
    QuoteThen([CHARS] + END, k, I);
    StringBody(k, I);
  }

  lemma StringSplits(k: string, I: Interp) returns (body: string, w: string)
    requires MatchesAlts(Primitives.BodyOf("string"), k, I)
    ensures k == KeyOf(body, w) && Chars(body, "char", I) && ("space", w) in I
  {
    StringBody(k, I);
    QuoteThen([CHARS] + ([Lit("\"")] + [SP]), k, I);
    var t := k[1..];
    var i := MatchesSplit([CHARS], [Lit("\"")] + [SP], t, I);
    MatchesOne(CHARS, t[..i], I);
    CharsMean(t[..i], I);
    QuoteThen([SP], t[i..], I);
    body, w := t[..i], t[i..][1..];
    MatchesOne(SP, w, I);
    QuotedAgain(k, t, i);
  }

  lemma QuotedAgain(k: string, t: string, i: nat)
    requires k != "" && k[0] == '"' && t == k[1..] && i < |t| && t[i] == '"'
    ensures k == KeyOf(t[..i], t[i..][1..])
  {
    assert t == t[..i] + ["\""[0]] + t[i..][1..];
  }
}
