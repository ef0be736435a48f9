/** What happens when the rule of a property takes the name of a built-in rule that another one depends on. */
module TakenNames {
  import opened Gbnf
  import opened Rules
  import opened Symbols
  import opened Decimal
  import opened IntRange
  import opened Repetition
  import opened Schemas
  import opened Tables
  import opened Naming
  import opened Growth
  import opened SchemaGrammar
  import opened StringTexts
  import opened ObjectTexts
  import opened NumberTexts
  import Primitives

  // ---------------------------------------------------------------------------------------------
  // Schemas that may accept a digit
  // ---------------------------------------------------------------------------------------------

  /** The built-in rules that may accept the text of one digit. */
  const NUMERIC: set<string> := {"integral-part", "decimal-part", "number", "integer", "value", "char"}

  /** Whether a schema may accept the text of one digit, as far as its form tells. */
  predicate MayBe(sc: Schema, d: string)
    requires AllDigits(d)
    decreases sc
  {
    match sc
    case Primitive(kind) => kind in NUMERIC
    case Constant(text) => text == d
    case Enumeration(texts) => d in texts
    case AnyOf(alts) => exists i :: 0 <= i < |alts| && MayBe(alts[i], d)
    case Integer(_, _, _, _) => Meets(sc, Val(d))
    case _ => false
  }

  /** White space and integers begin differently. */
  ghost predicate BeginningsApart(T: Table) {
    && BlankApart(T)
    && (forall s :: Valid(T, Meant(T), Primitive("integer"), s) ==> s != "" && (s[0] == '-' || '0' <= s[0] <= '9'))
  }

  lemma ShippedBeginnings()
    ensures BeginningsApart(PrimitiveTable())
  {
    var T := PrimitiveTable();
    BlankIsApart();
    forall s | Valid(T, Meant(T), Primitive("integer"), s) ensures s != "" && (s[0] == '-' || '0' <= s[0] <= '9') {
      IntegerIsBuiltin(s);
      IntegerBegins(s);
    }
  }

  lemma IntegerIsBuiltin(s: string)
    requires Valid(PrimitiveTable(), Meant(PrimitiveTable()), Primitive("integer"), s)
    ensures ("integer", s) in Builtin(PrimitiveTable())
  {
    TableHolds("integer");
    BuiltinKind("integer", s);
  }

  lemma TextIsDigit(T: Table, t: string, d: string)
    requires d in ["0", "1"] && t <= d && Blank(T, d[|t|..]) && BlankApart(T)
    ensures t == d
  {
  }

  lemma OneBodyBegins(alts: seq<Body>, s: string, I: Interp) returns (i: nat)
    requires |alts| == 1 && alts[0].syms != [] && MatchesAlts(alts, s, I)
    ensures i <= |s| && Matches(alts[0].syms[0], s[..i], I)
  {
    var j :| 0 <= j < |alts| && MatchesSyms(alts[j].syms, s, I);
    i := MatchesUncons(alts[0].syms, s, I);
  }

  const TRUTH: seq<Body> := [Body([Lit("true")]), Body([Lit("false")])]

  /** The other built-in rules begin with a literal. */
  lemma KindForm(kind: string)
    requires kind in Primitives.KINDS - NUMERIC
    ensures var alts := Primitives.BodyOf(kind);
            |alts| == 1 && alts[0].syms != []
            && alts[0].syms[0] in {Lit("{"), Lit("["), Lit("\""), Lit("null"), Group(TRUTH)}
  {
  }

  lemma KindBegins(kind: string, s: string, I: Interp)
    requires kind in Primitives.KINDS - NUMERIC && MatchesAlts(Primitives.BodyOf(kind), s, I)
    ensures s != "" && s[0] in {'{', '[', '"', 't', 'f', 'n'}
  {
    KindForm(kind);
    var i := OneBodyBegins(Primitives.BodyOf(kind), s, I);
    if Matches(Group(TRUTH), s[..i], I) { TruthBegins(s[..i], I); }
    assert s[..i] != "" && s[0] == s[..i][0];
  }

  lemma TruthBegins(t: string, I: Interp)
    requires Matches(Group(TRUTH), t, I)
    ensures t != "" && t[0] in {'t', 'f'}
  {
    assert MatchesAlts(TRUTH, t, I);
    var j :| 0 <= j < |TRUTH| && MatchesSyms(TRUTH[j].syms, t, I);
    MatchesOne(TRUTH[j].syms[0], t, I);
  }

  ghost predicate ObjectsApart(I: Interp) { forall s :: ("object", s) in I ==> s != "" && s[0] !in {'0', '1'} }

  lemma ObjectsAreApart(rules: RuleMap, st: Names)
    requires GoodTable(PrimitiveTable()) && Inv(PrimitiveTable(), rules, st)
    ensures ObjectsApart(Lang(rules))
  {
    BracedKind("object");
    KindsApart(rules, st, "object");
  }

  lemma BracedKind(k: string)
    requires k == "object"
    ensures '-' !in k && k in Primitives.KINDS - NUMERIC
  {
  }

  lemma KindsApart(rules: RuleMap, st: Names, k: string)
    requires GoodTable(PrimitiveTable()) && Inv(PrimitiveTable(), rules, st)
    requires k in Primitives.KINDS - NUMERIC && '-' !in k
    ensures forall s :: (k, s) in Lang(rules) ==> s != "" && s[0] !in {'0', '1'}
  {
    forall s | (k, s) in Lang(rules) ensures s != "" && s[0] !in {'0', '1'} { KindApart(rules, st, k, s); }
  }

  lemma KindApart(rules: RuleMap, st: Names, k: string, s: string)
    requires GoodTable(PrimitiveTable()) && Inv(PrimitiveTable(), rules, st)
    requires k in Primitives.KINDS - NUMERIC && '-' !in k && (k, s) in Lang(rules)
    ensures s != "" && s[0] !in {'0', '1'}
  {
    TableHolds(k);
    LangFixpoint(rules, k, s);
    NotTaken(PrimitiveTable(), rules, st, k);
    KeptRule(rules, st, k);
    KindBegins(k, s, Lang(rules));
  }

  /** A built-in rule whose name has no dash is never taken. */
  lemma NotTaken(T: Builtins, rules: RuleMap, st: Names, k: string)
    requires Inv(T, rules, st) && k in rules && k in T.rules && '-' !in k
    ensures k in st.present && k !in st.taken
  {
    assert HasBody(T, rules, st, k);
  }

  lemma KindMayBe(kind: string, d: string, M: Sense)
    requires d in ["0", "1"] && Valid(PrimitiveTable(), M, Primitive(kind), d)
    ensures kind in NUMERIC
  {
    TableHolds(kind);
    if kind !in NUMERIC { KindBegins(kind, d, M.kinds); }
  }

  lemma {:induction false} MayBeIs(M: Sense, sc: Schema, d: string)
    requires d in ["0", "1"] && Valid(PrimitiveTable(), M, sc, d) && ObjectsApart(M.kinds)
    requires BlankApart(PrimitiveTable())
    ensures MayBe(sc, d)
    decreases sc
  {
    var T := PrimitiveTable();
    match sc
    case Primitive(kind) => KindMayBe(kind, d, M);
    case Constant(text) => TextIsDigit(T, text, d);
    case Enumeration(texts) =>
      var i :| 0 <= i < |texts| && texts[i] <= d && Blank(T, d[|texts[i]|..]);
      TextIsDigit(T, texts[i], d);
    case AnyOf(alts) =>
      var i :| 0 <= i < |alts| && Valid(T, M, alts[i], d);
      MayBeIs(M, alts[i], d);
    case Integer(_, _, _, _) => IntegerMayBe(M, sc, d);
    case _ =>
  }

  lemma IntegerMayBe(M: Sense, sc: Schema, d: string)
    requires d in ["0", "1"] && sc.Integer? && Valid(PrimitiveTable(), M, sc, d) && BlankApart(PrimitiveTable())
    ensures MayBe(sc, d)
  {
    var T := PrimitiveTable();
    var i :| 0 <= i <= |d| && IntegerText(M.mode, sc, d[..i]) && Blank(T, d[i..]);
    TextIsDigit(T, d[..i], d);
  }

  /** No schema that took a name may accept both digits. */
  predicate TakersMissDigits(st: Names) {
    forall k :: k in st.taken ==> !MayBe(st.taken[k], "0") || !MayBe(st.taken[k], "1")
  }

  /** A taken name misses one of the digits. */
  lemma MissingDigit(rules: RuleMap, st: Names, k: string) returns (d: string)
    requires GoodTable(PrimitiveTable()) && Inv(PrimitiveTable(), rules, st) && k in st.taken && TakersMissDigits(st)
    ensures d in ["0", "1"] && (k, d) !in Lang(rules)
  {
    var T, sc := PrimitiveTable(), st.taken[k];
    d := if MayBe(sc, "0") then "1" else "0";
    assert KeyMeans(T, sc, k, rules);
    assert Derives(rules, k, d) <==> Valid(T, Emits(rules), sc, d);
    ShippedBeginnings();
    ObjectsAreApart(rules, st);
    if Valid(T, Emits(rules), sc, d) { MayBeIs(Emits(rules), sc, d); }
  }

  // ---------------------------------------------------------------------------------------------
  // When the built-in rules mean what they mean on their own
  // ---------------------------------------------------------------------------------------------

  /** The built-in rules that kept their names mean what they mean on their own. */
  ghost predicate KeptExact(rules: RuleMap, st: Names) { AgreeOn(Lang(rules), Builtin(PrimitiveTable()), Kept(st)) }

  lemma SpaceIsApart(rules: RuleMap)
    requires GoodTable(PrimitiveTable()) && SpaceThere(PrimitiveTable(), rules)
    ensures SpaceApart(Lang(rules))
  {
    BlankEverywhere(PrimitiveTable(), rules);
    BuiltinSpaceApart();
  }

  lemma KeptRule(rules: RuleMap, st: Names, k: string)
    requires GoodTable(PrimitiveTable()) && Inv(PrimitiveTable(), rules, st) && k in st.present && k !in st.taken
    ensures k in Primitives.KINDS
    ensures forall s :: (k, s) in Lang(rules) <==> MatchesAlts(Primitives.BodyOf(k), s, Lang(rules))
  {
    var T := PrimitiveTable();
    TableHolds(k);
    assert HasBody(T, rules, st, k);
    ContentMeaning(T, rules, k, k);
    forall s ensures (k, s) in Lang(rules) <==> MatchesAlts(Primitives.BodyOf(k), s, Lang(rules)) {
      assert Derives(rules, k, s) <==> MatchesAlts(T.rules[k].body, s, Lang(rules));
    }
  }

  /** With the integral part taken, neither integers nor numbers are exact. */
  lemma IntegralTaken(rules: RuleMap, st: Names, k: string)
    requires GoodTable(PrimitiveTable()) && Inv(PrimitiveTable(), rules, st) && TakersMissDigits(st)
    requires "integral-part" in st.taken && k in {"integer", "number"} && k in st.present && k !in st.taken
    ensures !KeptExact(rules, st)
  {
    var d := MissingDigit(rules, st, "integral-part");
    SpaceIsApart(rules);
    KeptRule(rules, st, k);
    BuiltinNumbers(d);
    if k == "integer" { DigitIsIntegral(d, Lang(rules)); } else { DigitNumber(d, Lang(rules)); }
    assert (k, d) in Builtin(PrimitiveTable()) && (k, d) !in Lang(rules) && k in Kept(st);
  }

  /** What is derived from the integral part, if that is exact. */
  lemma IntegralKept(rules: RuleMap, st: Names, u: string)
    requires GoodTable(PrimitiveTable()) && Inv(PrimitiveTable(), rules, st) && KeptExact(rules, st)
    requires "integral-part" !in st.taken && ("integral-part", u) in Lang(rules)
    ensures AllDigits(u)
  {
    LangFixpoint(rules, "integral-part", u);
    TableHolds("integral-part");
    assert "integral-part" in Kept(st);
    BuiltinIntegralDigits(u);
  }

  /** With the decimal part taken, numbers are not exact. */
  lemma DecimalTaken(rules: RuleMap, st: Names)
    requires GoodTable(PrimitiveTable()) && Inv(PrimitiveTable(), rules, st) && TakersMissDigits(st)
    requires "decimal-part" in st.taken && "integral-part" !in st.taken && "number" in st.present
             && "number" !in st.taken
    ensures !KeptExact(rules, st)
  {
    var d := MissingDigit(rules, st, "decimal-part");
    var s := Tenths(d);
    KeptRule(rules, st, "number");
    BuiltinNumbers(d);
    SpaceIsApart(rules);
    assert "number" in Kept(st);
    if KeptExact(rules, st) {
      forall u | ("integral-part", u) in Lang(rules) ensures AllDigits(u) { IntegralKept(rules, st, u); }
      assert ("number", s) in Lang(rules);
      var a, b, c := NumberSplits(s, Lang(rules));
      TenthsSplit(d, a, b, c, Lang(rules));
    }
  }

  /** Two names can be taken. */
  lemma TwoNames(rules: RuleMap, st: Names, k: string)
    requires GoodTable(PrimitiveTable()) && Inv(PrimitiveTable(), rules, st) && k in st.taken
    ensures k in {"integral-part", "decimal-part"}
  {
    assert HasBody(PrimitiveTable(), rules, st, k);
    TableHolds(k);
    if k !in {"integral-part", "decimal-part"} { OtherKindsHaveNoDash(k); }
  }

  /** Integers and numbers depend on them. */
  lemma DependsOnParts(k: string, i: nat)
    requires i < |Primitives.Deps(k)| && Primitives.Deps(k)[i] in {"integral-part", "decimal-part"}
    ensures k == "number" || (k == "integer" && Primitives.Deps(k)[i] == "integral-part")
  {
  }

  /** The built-in rules kept mean what they mean on their own exactly if none of them depends on a taken name,
      provided that no schema which took a name may accept both digits. */
  lemma KeptExactIff(rules: RuleMap, st: Names)
    requires GoodTable(PrimitiveTable()) && Inv(PrimitiveTable(), rules, st) && TakersMissDigits(st)
    ensures KeptExact(rules, st) <==> Harmless(PrimitiveTable(), st)
  {
    var T := PrimitiveTable();
    if Harmless(T, st) {
      KeptMeanTheSame(T, rules, st);
    } else {
      var k, i := HarmDone(st);
      TableHolds(k);
      TwoNames(rules, st, Primitives.Deps(k)[i]);
      DependsOnParts(k, i);
      if "integral-part" in st.taken { IntegralTaken(rules, st, k); } else { DecimalTaken(rules, st); }
    }
  }

  lemma HarmDone(st: Names) returns (k: string, i: nat)
    requires !Harmless(PrimitiveTable(), st)
    ensures k in st.present && k !in st.taken && k in PrimitiveTable().rules
    ensures i < |Primitives.Deps(k)| && Primitives.Deps(k)[i] in st.taken
  {
    var T := PrimitiveTable();
    k :| k in st.present && k !in st.taken && k in T.rules &&
      !(forall i :: 0 <= i < |T.rules[k].deps| ==> T.rules[k].deps[i] !in st.taken);
    i :| 0 <= i < |T.rules[k].deps| && T.rules[k].deps[i] in st.taken;
    TableHolds(k);
  }

  // ---------------------------------------------------------------------------------------------
  // A schema whose grammar accepts too much
  // ---------------------------------------------------------------------------------------------

  /** The constant `true` under the name `integral part`, and an integer. */
  const TAKING: Schema :=
    Object([Prop("integral part", Constant("true")), Prop("n", Primitive("integer"))], {"n"}, NoMore)

  const ACCEPTED: string := "{\"n\":true}"

  lemma EscIntegralPart()
    ensures Esc("integral part") == "integral-part"
  {
    var a, b := "integral", "part";
    EscKeeps(a);
    assert Esc(a + " ") == a + "-" by { assert (a + " ")[..|a|] == a; }
    EscSuffix(a + " ", b);
    assert a + " " + b == "integral part" && a + "-" + b == "integral-part";
  }

  lemma TakingSupported(T: Table)
    requires "integer" in T.rules
    ensures Supported(T, TAKING)
  {
    assert Supported(T, Primitive("integer"));
    assert Supported(T, Constant("true"));
  }

  /** The constant's rule takes the name; the integer's rule comes after it. */
  lemma TakingTakes(T: Table)
    requires "integral-part" in T.rules && "integer" in T.rules && "root" !in T.rules
    requires T.rules["integer"].deps == ["integral-part"] && !IsReserved(T, "integral part") && !IsReserved(T, "")
    ensures FinalNames(T, TAKING).taken == map["integral-part" := Constant("true")]
    ensures "integer" in FinalNames(T, TAKING).present
  {
    var first := Names({"integral-part"}, map["integral-part" := Constant("true")]);
    EscIntegralPart();
    assert After(T, Constant("true"), "integral part", START) == first;
    assert Sub("", "integral part") == "integral part" && AfterProps(T, TAKING, "", 0, START) == START;
    assert AfterProps(T, TAKING, "", 1, START) == first;
    IntegerTakes(T, first);
    RootKeepsItsName();
  }

  lemma IntegerTakes(T: Table, first: Names)
    requires "integer" in T.rules && AfterProps(T, TAKING, "", 1, START) == first
    ensures AfterProps(T, TAKING, "", 2, START).taken == first.taken
    ensures "integer" in AfterProps(T, TAKING, "", 2, START).present
  {
    assert Sub("", "n") == "n";
    assert AfterProps(T, TAKING, "", 2, START) == After(T, Primitive("integer"), "n", first);
    assert After(T, Primitive("integer"), "n", first) == Primed(T, "integer", first);
  }

  lemma ShippedTakes()
    ensures FinalNames(PrimitiveTable(), TAKING).taken == map["integral-part" := Constant("true")]
    ensures "integer" in FinalNames(PrimitiveTable(), TAKING).present
  {
    TableHolds("integral-part");
    TableHolds("integer");
    ReservedNames();
    TakingTakes(PrimitiveTable());
  }

  const MEMBER: string := "\"n\":true"

  ghost predicate ConstantIsInteger(T: Table, M: Sense) { Valid(T, M, Primitive("integer"), "true") }

  lemma MemberAccepted(T: Table, M: Sense)
    requires ConstantIsInteger(T, M) && Blank(T, "")
    ensures Member(T, M, TAKING, 1, MEMBER)
  {
    assert Quoted("n") == "\"n\"" && MEMBER[..3] == "\"n\"";
    assert MEMBER[3..3] == "" && MEMBER[4..4] == "" && MEMBER[4..] == "true";
    assert KeyColon(T, "n", MEMBER, 3, 4);
    assert Valid(T, M, TAKING.props[1].schema, MEMBER[4..]);
  }

  lemma RequiredAccepted(T: Table, M: Sense)
    requires Member(T, M, TAKING, 1, MEMBER)
    ensures RequiredMembers(T, M, TAKING, 0, [MEMBER])
  {
    assert [MEMBER][1..] == [];
    assert RequiredMembers(T, M, TAKING, 2, []);
    assert RequiredMembers(T, M, TAKING, 1, [MEMBER]);
  }

  lemma OptionalAccepted(T: Table, M: Sense)
    ensures OptionalMembers(T, M, TAKING, 0, [])
  {
    assert OptionalMembers(T, M, TAKING, 2, []);
    assert OptionalMembers(T, M, TAKING, 1, []);
  }

  lemma MembersAccepted(T: Table, M: Sense)
    requires ConstantIsInteger(T, M) && Blank(T, "")
    ensures ObjectMembers(T, M, TAKING, MEMBER)
  {
    MemberAccepted(T, M);
    RequiredAccepted(T, M);
    OptionalAccepted(T, M);
    OnlyOne(MEMBER, Builtin(T));
  }

  lemma BracedMember()
    ensures ACCEPTED == Braced(MEMBER)
  {
  }

  /** Where the constant `true` takes the name of the integral part, it is an integer. */
  lemma TakenIsInteger(rules: RuleMap, st: Names)
    requires GoodTable(PrimitiveTable()) && Inv(PrimitiveTable(), rules, st)
    requires "integral-part" in st.taken && st.taken["integral-part"] == Constant("true")
    ensures ConstantIsInteger(PrimitiveTable(), Emits(rules))
  {
    var T := PrimitiveTable();
    BlankEverywhere(T, rules);
    BlankBegins("");
    assert KeyMeans(T, Constant("true"), "integral-part", rules);
    assert "true"[|"true"|..] == "" && Valid(T, Emits(rules), Constant("true"), "true");
    assert Derives(rules, "integral-part", "true") && Derives(rules, "space", "");
    WholeInteger("true", Lang(rules));
    IntegerBodyMeans("true", Lang(rules));
    TableHolds("integer");
  }

  /** In a beginning of the member, the value begins behind the colon. */
  lemma SliceHead(whole: string, m: string, a: nat, b: nat)
    requires m <= whole && a <= b <= |m|
    ensures m[a..b] == "" ==> a == b
    ensures a < b ==> m[a..b][0] == whole[a]
  {
  }

  lemma PointsOf(T: Table, name: string, whole: string, m: string, b: nat, c: nat)
    requires BlankApart(T) && m <= whole && KeyColon(T, name, m, b, c)
    requires var q := |Quoted(name)|; |whole| > q + 1 && whole[q] == ':' && whole[q + 1] == 't'
    ensures b == |Quoted(name)| && c == b + 1
  {
    SliceHead(whole, m, |Quoted(name)|, b);
    SliceHead(whole, m, b + 1, c);
  }

  lemma MemberPoints(T: Table, m: string, b: nat, c: nat)
    requires BeginningsApart(T) && m <= MEMBER && KeyColon(T, "n", m, b, c)
    ensures b == 3 && c == 4
  {
    assert |Quoted("n")| == 3;
    PointsOf(T, "n", MEMBER, m, b, c);
  }

  /** No beginning of the member is one that the schema allows. */
  lemma MemberRejected(T: Table, m: string)
    requires BeginningsApart(T) && m <= MEMBER
    ensures !Member(T, Meant(T), TAKING, 1, m)
  {
    forall b: nat, c: nat | KeyColon(T, "n", m, b, c) ensures !Valid(T, Meant(T), Primitive("integer"), m[c..]) {
      MemberPoints(T, m, b, c);
      ValueBegins(m);
      ValueRejected(T, m[4..]);
    }
    TakingMember(T, Meant(T), m);
  }

  lemma ValueBegins(m: string)
    requires m <= MEMBER && |m| >= 4
    ensures m[4..] != "" ==> m[4..][0] == 't'
  {
    assert |m| > 4 ==> m[4..][0] == m[4] && m[4] == MEMBER[4];
  }

  lemma TakingMember(T: Table, M: Sense, m: string)
    ensures Member(T, M, TAKING, 1, m) <==>
            exists b: nat, c: nat :: KeyColon(T, "n", m, b, c) && Valid(T, M, Primitive("integer"), m[c..])
  {
    assert TAKING.props[1] == Prop("n", Primitive("integer"));
  }

  lemma ValueRejected(T: Table, v: string)
    requires BeginningsApart(T) && (v != "" ==> v[0] == 't')
    ensures !Valid(T, Meant(T), Primitive("integer"), v)
  {
  }

  lemma FirstMember(T: Table, M: Sense, req: seq<string>)
    requires RequiredMembers(T, M, TAKING, 0, req)
    ensures req != [] && Member(T, M, TAKING, 1, req[0])
  {
    assert RequiredMembers(T, M, TAKING, 1, req);
  }

  lemma NoMembers(T: Table, inner: string)
    requires BeginningsApart(T) && inner <= MEMBER
    ensures !ObjectMembers(T, Meant(T), TAKING, inner)
  {
    forall req, opt | RequiredMembers(T, Meant(T), TAKING, 0, req)
      ensures !Joined(req + opt, inner, COMMA, Builtin(T))
    {
      FirstMember(T, Meant(T), req);
      if req[0] <= inner { MemberRejected(T, req[0]); }
      assert (req + opt)[0] == req[0];
    }
  }

  lemma ShippedAccepts(rules: RuleMap)
    requires GoodTable(PrimitiveTable()) && Inv(PrimitiveTable(), rules, FinalNames(PrimitiveTable(), TAKING))
    ensures Valid(PrimitiveTable(), Emits(rules), TAKING, ACCEPTED)
  {
    ShippedTakes();
    TakenIsInteger(rules, FinalNames(PrimitiveTable(), TAKING));
    BlankIsApart();
    BracedMember();
    MembersAccepted(PrimitiveTable(), Emits(rules));
    BracesAccepted(PrimitiveTable(), Emits(rules), TAKING, MEMBER);
  }

  lemma NoneBegin(T: Table, inner: string)
    requires BeginningsApart(T) && inner == MEMBER
    ensures forall j :: 0 < j <= |inner| ==> !ObjectMembers(T, Meant(T), TAKING, inner[..j])
  {
    forall j | 0 < j <= |inner| ensures !ObjectMembers(T, Meant(T), TAKING, inner[..j]) { NoMembers(T, inner[..j]); }
  }

  lemma Rejects(T: Table)
    requires BeginningsApart(T)
    ensures !Valid(T, Meant(T), TAKING, ACCEPTED)
  {
    BracedMember();
    NoneBegin(T, MEMBER);
    BracesRejected(T, Meant(T), TAKING, MEMBER);
  }

  /** The grammar made for that schema accepts an object whose integer is the constant; the schema does not. */
  method TakenName() returns (rules: RuleMap)
    ensures Derives(rules, "root", ACCEPTED)
    ensures !Valid(PrimitiveTable(), Meant(PrimitiveTable()), TAKING, ACCEPTED)
  {
    PrimitivesAreGood();
    TableHolds("integer");
    TakingSupported(PrimitiveTable());
    rules := Convert(PrimitiveTable(), TAKING);
    ShippedAccepts(rules);
    ShippedBeginnings();
    Rejects(PrimitiveTable());
  }
}
