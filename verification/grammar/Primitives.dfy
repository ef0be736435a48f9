/** The built-in rules of the schema converter and the names it reserves. */
module Primitives {
  import opened Options
  import opened Gbnf
  import opened Rules
  import opened Symbols

  /** The primitive types a schema may name. */
  const KINDS: set<string> :=
    {"boolean", "decimal-part", "integral-part", "number", "integer", "value", "object", "array", "uuid", "char",
     "string", "null"}

  /** Names of the string formats, which are reserved as well. */
  const FORMATS: set<string> :=
    {"date", "time", "date-time", "date-string", "time-string", "date-time-string"}

  const HEX: Sym := Class("0-9a-fA-F")
  const HEX4: Sym := Exactly(4, HEX)
  const INTEGRAL: Sym := Ref("integral-part")
  const SIGNED_INTEGRAL: Sym := Group([Body([Opt(Lit("-")), INTEGRAL])])
  const KEY_VALUE: seq<Sym> := [Ref("string"), Lit(":"), SP, Ref("value")]

  /** The text of the class of plain string characters: ^"\\\x7F\x00-\x1F */
  const CHAR_CLASS: string := "^\"" + ['\\', '\\', '\\', 'x', '7', 'F'] + "\\x00-\\x1F"

  /** Optional white space: nothing, a blank, or one or two line ends and up to 20 blanks and tabs. */
  const SPACE_BODY: seq<Body> :=
    [Body([]), Body([Lit(" ")]), Body([Rep(Lit("\n"), 1, Some(2)), Rep(Class(" \\t"), 0, Some(20))])]

  /** The built-in rule of a primitive type, as its text reads. */
  function BodyOf(kind: string): seq<Body> {
    if kind == "boolean" then [Body([Group([Body([Lit("true")]), Body([Lit("false")])]), SP])]
    else if kind == "decimal-part" then [Body([Rep(Class("0-9"), 1, Some(16))])]
    else if kind == "integral-part" then [Body([Class("0")]), Body([Class("1-9"), Rep(Class("0-9"), 0, Some(15))])]
    else if kind == "number" then
      [Body([SIGNED_INTEGRAL,
             Opt(Group([Body([Lit("."), Ref("decimal-part")])])),
             Opt(Group([Body([Class("eE"), Opt(Class("-+")), INTEGRAL])])),
             SP])]
    else if kind == "integer" then [Body([SIGNED_INTEGRAL, SP])]
    else if kind == "value" then
      [Body([Ref("object")]), Body([Ref("array")]), Body([Ref("string")]), Body([Ref("number")]),
       Body([Ref("boolean")]), Body([Ref("null")])]
    else if kind == "object" then
      [Body([Lit("{"), SP,
             Opt(Group([Body(KEY_VALUE + [Star(Group([Body([Lit(","), SP] + KEY_VALUE)]))])])),
             Lit("}"), SP])]
    else if kind == "array" then
      [Body([Lit("["), SP,
             Opt(Group([Body([Ref("value"), Star(Group([Body([Lit(","), SP, Ref("value")])]))])])),
             Lit("]"), SP])]
    else if kind == "uuid" then
      [Body([Lit("\""), Exactly(8, HEX), Lit("-"), HEX4, Lit("-"), HEX4, Lit("-"), HEX4, Lit("-"), Exactly(12, HEX),
             Lit("\""), SP])]
    else if kind == "char" then
      [Body([Class(CHAR_CLASS)]),
       Body([Class("\\\\"), Group([Body([Class("\"\\\\bfnrt")]), Body([Lit("u"), HEX4])])])]
    else if kind == "string" then [Body([Lit("\""), Star(Ref("char")), Lit("\""), SP])]
    else if kind == "null" then [Body([Lit("null"), SP])]
    else SPACE_BODY
  }

  /** Primitive rules a primitive rule refers to. */
  function Deps(kind: string): (d: seq<string>)
    ensures forall i :: 0 <= i < |d| ==> d[i] in KINDS
  {
    if kind == "number" then ["integral-part", "decimal-part"]
    else if kind == "integer" then ["integral-part"]
    else if kind == "value" then ["object", "array", "string", "number", "boolean", "null"]
    else if kind == "object" then ["string", "value"]
    else if kind == "array" then ["value"]
    else if kind == "string" then ["char"]
    else []
  }

  lemma GroupRefs(xs: seq<Sym>, N: set<string>)
    requires SymsRefsIn(xs, N)
    ensures RefsIn(Group([Body(xs)]), N) && RefsIn(Opt(Group([Body(xs)])), N) && RefsIn(Star(Group([Body(xs)])), N)
  {
    assert AltsRefsIn([Body(xs)], N);
  }

  /** The dependency lists name every rule a primitive refers to. */
  lemma DepsCover(kind: string)
    ensures AltsRefsIn(BodyOf(kind), WithSpace(Deps(kind)))
  {
    var N := WithSpace(Deps(kind));
    var d := Deps(kind);
    assert forall i :: 0 <= i < |d| ==> d[i] in N;
    if kind == "uuid" {
      UuidRefs(N);
    } else if kind == "number" {
      assert d[0] == "integral-part" && d[1] == "decimal-part";
      NumberRefs(N);
    } else if kind == "integer" {
      assert d[0] == "integral-part";
      GroupRefs([Opt(Lit("-")), INTEGRAL], N);
    } else if kind == "object" {
      assert d[0] == "string" && d[1] == "value";
      ObjectRefs(N);
    } else if kind == "array" {
      assert d[0] == "value";
      ArrayRefs(N);
    } else if kind == "value" {
      ValueRefs(N);
    } else if kind == "char" {
      CharRefs(N);
    } else if kind == "boolean" {
      BooleanRefs(N);
    } else if kind == "string" {
      assert d[0] == "char";
    }
  }

  lemma NumberRefs(N: set<string>)
    requires {"integral-part", "decimal-part", "space"} <= N
    ensures AltsRefsIn(BodyOf("number"), N)
  {
    GroupRefs([Opt(Lit("-")), INTEGRAL], N);
    GroupRefs([Lit("."), Ref("decimal-part")], N);
    GroupRefs([Class("eE"), Opt(Class("-+")), INTEGRAL], N);
  }

  lemma ObjectRefs(N: set<string>)
    requires {"string", "value", "space"} <= N
    ensures AltsRefsIn(BodyOf("object"), N)
  {
    GroupRefs([Lit(","), SP] + KEY_VALUE, N);
    GroupRefs(KEY_VALUE + [Star(Group([Body([Lit(","), SP] + KEY_VALUE)]))], N);
  }

  lemma ArrayRefs(N: set<string>)
    requires {"value", "space"} <= N
    ensures AltsRefsIn(BodyOf("array"), N)
  {
    GroupRefs([Lit(","), SP, Ref("value")], N);
    GroupRefs([Ref("value"), Star(Group([Body([Lit(","), SP, Ref("value")])]))], N);
  }

  lemma ValueRefs(N: set<string>)
    requires {"object", "array", "string", "number", "boolean", "null"} <= N
    ensures AltsRefsIn(BodyOf("value"), N)
  {
  }

  lemma CharRefs(N: set<string>)
    ensures AltsRefsIn(BodyOf("char"), N)
  {
    var inner := [Body([Class("\"\\\\bfnrt")]), Body([Lit("u"), HEX4])];
    assert RefsIn(HEX4, N);
    assert AltsRefsIn(inner, N);
    assert RefsIn(Group(inner), N);
  }

  lemma UuidRefs(N: set<string>)
    requires "space" in N
    ensures AltsRefsIn(BodyOf("uuid"), N)
  {
    assert RefsIn(HEX4, N) && RefsIn(Exactly(8, HEX), N) && RefsIn(Exactly(12, HEX), N);
  }

  lemma BooleanRefs(N: set<string>)
    requires "space" in N
    ensures AltsRefsIn(BodyOf("boolean"), N)
  {
    var inner := [Body([Lit("true")]), Body([Lit("false")])];
    assert AltsRefsIn(inner, N);
    assert RefsIn(Group(inner), N);
  }

  // ---------------------------------------------------------------------------------------------
  // The built-in texts parse
  // ---------------------------------------------------------------------------------------------

  lemma DigitClassReads()
    ensures Ok(Class("0-9")) && Ok(Class("1-9")) && Ok(Class("0"))
  {
    OneRangeReads("0-9", '0', '9', "");
    OneRangeReads("1-9", '1', '9', "");
    OneCharacterReads("0", 1, '0', "");
  }

  lemma UpperHexReads()
    ensures ReadRanges("a-fA-F").Some?
  {
    OneRangeReads("A-F", 'A', 'F', "");
    OneRangeReads("a-fA-F", 'a', 'f', "A-F");
  }

  lemma HexClassReads()
    ensures Ok(HEX)
  {
    UpperHexReads();
    var rest := "a-fA-F";
    assert "0-9a-fA-F" == ['0', '-', '9'] + rest;
    OneRangeReads("0-9a-fA-F", '0', '9', rest);
  }

  lemma NumberClassesRead()
    ensures Ok(Class("eE")) && Ok(Class("-+"))
  {
    OneCharacterReads("E", 1, 'E', "");
    OneCharacterReads("eE", 1, 'e', "E");
    OneCharacterReads("+", 1, '+', "");
    OneCharacterReads("-+", 1, '-', "+");
  }

  lemma EscapeClassesRead()
    ensures Ok(Class(" \\t")) && Ok(Class("\\\\"))
  {
    OneCharacterReads("\\t", 2, '\t', "");
    OneCharacterReads(" \\t", 1, ' ', "\\t");
    OneCharacterReads("\\\\", 2, '\\', "");
  }

  /** `\x00-\x1F` */
  lemma ControlRangeReads(t: string)
    requires t == "\\x00-\\x1F"
    ensures ReadRanges(t) == Some([(0 as char, 0x1F as char)])
  {
    HexNumbers();
    assert t[2..4] == "00" && ReadChar(t) == Some((0 as char, 4));
    var u := "\\x1F";
    var dash := "-" + u;
    assert t[4..] == dash && dash[1..] == u;
    assert u[2..4] == "1F" && ReadChar(u) == Some((0x1F as char, 4));
    assert dash[5..] == "";
    assert ReadRanges("") == Some([]);
    DashSpan(t, 4, 0 as char, dash, u, 4, 0x1F as char);
    OneSpanReads(t, 0 as char, 0x1F as char, 9, "");
    var one := [(0 as char, 0x1F as char)];
    assert one + [] == one;
  }

  /** `\x7F` and more. */
  lemma DelReads(t2: string, t3: string)
    requires t2 == ['\\', 'x', '7', 'F'] + t3
    requires t3 != "" && t3[0] != '-' && ReadRanges(t3).Some?
    ensures ReadRanges(t2).Some? && ReadRanges(t2).value == [(0x7F as char, 0x7F as char)] + ReadRanges(t3).value
  {
    HexNumbers();
    assert t2[2..4] == "7F" && ReadChar(t2) == Some((0x7F as char, 4));
    assert t2[4..] == t3;
    OneCharacterReads(t2, 4, 0x7F as char, t3);
  }

  /** `\\` and more. */
  lemma BackslashReads(t1: string, t2: string)
    requires t1 == ['\\', '\\'] + t2 && ReadRanges(t2).Some? && (|t2| < 2 || t2[0] != '-')
    ensures ReadRanges(t1).Some? && ReadRanges(t1).value == [('\\', '\\')] + ReadRanges(t2).value
  {
    EscapedBackslash(t1);
    assert t1[2..] == t2;
    OneCharacterReads(t1, 2, '\\', t2);
  }

  lemma EscapesRead(t1: string, t2: string, t3: string)
    requires t1 == ['\\', '\\'] + t2 && t2 == ['\\', 'x', '7', 'F'] + t3
    requires t3 != "" && t3[0] != '-' && ReadRanges(t3) == Some([(0 as char, 0x1F as char)])
    ensures ReadClass(['^', '"'] + t1) == Some(CharSet(true, [('"', '"')] + PLAIN_EXCEPT))
  {
    DelReads(t2, t3);
    BackslashReads(t1, t2);
    NoQuoteReads(t1);
  }

  /** Backslash, DEL and control characters. */
  const PLAIN_EXCEPT: seq<(char, char)> :=
    [('\\', '\\')] + ([(0x7F as char, 0x7F as char)] + [(0 as char, 0x1F as char)])

  lemma CharClassReads()
    ensures ReadClass(CHAR_CLASS) == Some(CharSet(true, [('"', '"')] + PLAIN_EXCEPT))
  {
    var t3 := "\\x00-\\x1F";
    ControlRangeReads(t3);
    var t2 := ['\\', 'x', '7', 'F'] + t3;
    var t1 := ['\\', '\\'] + t2;
    EscapesRead(t1, t2, t3);
    CharClassText(t1, t2, t3);
  }

  lemma CharClassText(t1: string, t2: string, t3: string)
    requires t1 == ['\\', '\\'] + t2 && t2 == ['\\', 'x', '7', 'F'] + t3 && t3 == "\\x00-\\x1F"
    ensures CHAR_CLASS == ['^', '"'] + t1
  {
  }

  /** The class of a JSON string character: anything but a quote, a backslash, DEL and control characters. */
  lemma CharClassMeans(c: char)
    ensures Ok(Class(CHAR_CLASS))
    ensures InClass(CHAR_CLASS, c) <==> c !in {'"', '\\', 0x7F as char} && c > 0x1F as char
  {
    CharClassReads();
    FourRanges(PLAIN_EXCEPT, c);
  }

  lemma FourRanges(rs: seq<(char, char)>, c: char)
    requires rs == [('\\', '\\')] + ([(0x7F as char, 0x7F as char)] + [(0 as char, 0x1F as char)])
    ensures InRanges([('"', '"')] + rs, c) <==> c in {'"', '\\', 0x7F as char} || c <= 0x1F as char
  {
    var all := [('"', '"')] + rs;
    assert all[0] == ('"', '"') && all[1] == ('\\', '\\') && all[2] == (0x7F as char, 0x7F as char);
    assert all[3] == (0 as char, 0x1F as char);
  }

  lemma HexNumbers()
    ensures HexNumber("00") == Some(0) && HexNumber("1F") == Some(0x1F) && HexNumber("7F") == Some(0x7F)
  {
    assert "00"[..1] == "0" && "1F"[..1] == "1" && "7F"[..1] == "7";
    assert "0"[..0] == "" && "1"[..0] == "" && "7"[..0] == "";
    assert HexNumber("") == Some(0);
    assert HexNumber("0") == Some(0) && HexNumber("1") == Some(1) && HexNumber("7") == Some(7);
  }

  lemma {:induction false} LettersRead(s: string)
    requires forall i :: 0 <= i < |s| ==> s[i] !in {']', '\\', '-'}
    ensures ReadRanges(s).Some?
  {
    if s != "" {
      LettersRead(s[1..]);
      OneCharacterReads(s, 1, s[0], s[1..]);
    }
  }

  lemma BackslashesThen(t: string, letters: string)
    requires t == ['\\', '\\'] + letters && ReadRanges(letters).Some? && (|letters| < 2 || letters[0] != '-')
    ensures ReadRanges(t).Some?
  {
    EscapedBackslash(t);
    assert t[2..] == letters;
    OneCharacterReads(t, 2, '\\', letters);
  }

  lemma QuoteThenReads(u: string, t: string)
    requires u == ['"'] + t && ReadRanges(t).Some? && (|t| < 2 || t[0] != '-')
    ensures ReadRanges(u).Some? && |ReadRanges(u).value| >= 1
  {
    assert u[1..] == t;
    OneCharacterReads(u, 1, '"', t);
  }

  lemma EscapeLetters(u: string, t: string, letters: string)
    requires u == "\"\\\\bfnrt" && t == u[1..] && letters == u[3..]
    ensures u == ['"'] + t && t == ['\\', '\\'] + letters && letters == "bfnrt"
  {
  }

  lemma LetterEscapesRead(u: string)
    requires u == "\"\\\\bfnrt"
    ensures Ok(Class(u))
  {
    EscapeLetters(u, u[1..], u[3..]);
    LettersRead(u[3..]);
    BackslashesThen(u[1..], u[3..]);
    QuoteThenReads(u, u[1..]);
  }

  lemma FractionOk()
    ensures Ok(Opt(Group([Body([Lit("."), Ref("decimal-part")])])))
  {
    OneBodyOk([Lit("."), Ref("decimal-part")]);
  }

  lemma ExponentOk()
    ensures Ok(Opt(Group([Body([Class("eE"), Opt(Class("-+")), INTEGRAL])])))
  {
    NumberClassesRead();
    OneBodyOk([Class("eE"), Opt(Class("-+")), INTEGRAL]);
  }

  lemma SignedOk()
    ensures Ok(SIGNED_INTEGRAL) && OkSyms([SIGNED_INTEGRAL, SP])
  {
    OneBodyOk([Opt(Lit("-")), INTEGRAL]);
  }

  lemma NumberOk()
    ensures OkAlts(BodyOf("number")) && OkAlts(BodyOf("integer"))
  {
    FractionOk();
    ExponentOk();
    SignedOk();
    OneBodyOk(BodyOf("number")[0].syms);
    OneBodyOk([SIGNED_INTEGRAL, SP]);
  }

  lemma ObjectOk()
    ensures OkAlts(BodyOf("object"))
  {
    assert OkSyms(KEY_VALUE);
    OkBoth([Lit(","), SP], KEY_VALUE);
    OneBodyOk([Lit(","), SP] + KEY_VALUE);
    var more := Star(Group([Body([Lit(","), SP] + KEY_VALUE)]));
    OkBoth(KEY_VALUE, [more]);
    OneBodyOk(KEY_VALUE + [more]);
    OneBodyOk(BodyOf("object")[0].syms);
  }

  lemma ArrayOk()
    ensures OkAlts(BodyOf("array"))
  {
    OneBodyOk([Lit(","), SP, Ref("value")]);
    OneBodyOk([Ref("value"), Star(Group([Body([Lit(","), SP, Ref("value")])]))]);
    OneBodyOk(BodyOf("array")[0].syms);
  }

  lemma UuidShape(h: Sym)
    requires Ok(h)
    ensures OkSyms([Lit("\""), Exactly(8, h), Lit("-"), Exactly(4, h), Lit("-"), Exactly(4, h), Lit("-"), Exactly(4, h),
                    Lit("-"), Exactly(12, h), Lit("\""), SP])
  {
    assert Ok(Exactly(8, h)) && Ok(Exactly(4, h)) && Ok(Exactly(12, h));
  }

  lemma TwoBodiesOk(xs: seq<Sym>, ys: seq<Sym>)
    requires OkSyms(xs) && OkSyms(ys)
    ensures OkAlts([Body(xs), Body(ys)]) && Ok(Group([Body(xs), Body(ys)]))
  {
    var alts := [Body(xs), Body(ys)];
    assert alts[0].syms == xs && alts[1].syms == ys;
  }

  lemma CharShape(a: Sym, b: Sym, c: Sym, h: Sym)
    requires Ok(a) && Ok(b) && Ok(c) && Ok(h)
    ensures OkAlts([Body([a]), Body([b, Group([Body([c]), Body([Lit("u"), Exactly(4, h)])])])])
  {
    var hex := Exactly(4, h);
    PairOk(c, c);
    PairOk(Lit("u"), hex);
    TwoBodiesOk([c], [Lit("u"), hex]);
    var g := Group([Body([c]), Body([Lit("u"), hex])]);
    PairOk(a, a);
    PairOk(b, g);
    TwoBodiesOk([a], [b, g]);
  }

  lemma UuidOk()
    ensures OkAlts(BodyOf("uuid"))
  {
    HexClassReads();
    UuidShape(HEX);
    OneBodyOk(BodyOf("uuid")[0].syms);
  }

  lemma CharClassesRead()
    ensures Ok(Class(CHAR_CLASS)) && Ok(Class("\\\\")) && Ok(Class("\"\\\\bfnrt")) && Ok(HEX)
  {
    CharClassMeans('a');
    EscapeClassesRead();
    LetterEscapesRead("\"\\\\bfnrt");
    HexClassReads();
  }

  lemma CharOk()
    ensures OkAlts(BodyOf("char"))
  {
    CharClassesRead();
    CharShape(Class(CHAR_CLASS), Class("\\\\"), Class("\"\\\\bfnrt"), HEX);
  }

  lemma BooleanOk()
    ensures OkAlts(BodyOf("boolean"))
  {
    var inner := [Body([Lit("true")]), Body([Lit("false")])];
    assert OkAlts(inner);
    OneBodyOk([Group(inner), SP]);
  }

  lemma SpaceOk()
    ensures OkAlts(SPACE_BODY)
  {
    EscapeClassesRead();
  }

  /** Every built-in body has a text that reads back as it. */
  lemma BuiltinOk(kind: string)
    ensures OkAlts(BodyOf(kind))
  {
    if kind == "number" || kind == "integer" { NumberOk(); }
    else if kind == "decimal-part" || kind == "integral-part" { DigitClassReads(); }
    else if kind == "object" { ObjectOk(); }
    else if kind == "array" { ArrayOk(); }
    else if kind == "uuid" { UuidOk(); }
    else if kind == "char" { CharOk(); }
    else if kind == "boolean" { BooleanOk(); }
    else { OtherOk(kind); }
  }

  lemma OtherOk(kind: string)
    requires kind !in {"number", "integer", "decimal-part", "integral-part", "object", "array", "uuid", "char",
                       "boolean"}
    ensures OkAlts(BodyOf(kind))
  {
    if kind !in {"value", "string", "null"} { SpaceOk(); }
  }
}
