/** Property names that the converter takes for something else. */
module OddNames {
  import opened Options
  import opened Gbnf
  import opened Rules
  import opened Symbols
  import opened Repetition
  import opened Schemas
  import opened Shapes
  import opened Tables
  import opened Naming
  import opened Growth
  import opened Converter

  /** A property without a name, at the root: its schema is visited first and takes the name `root`. Whatever rule is
      made for the object is stored elsewhere, so the root derives what the property's schema emits. */
  method NamelessProperty(T: Builtins, sc: Schema, objectRule: seq<Tok>) returns (rules: RuleMap)
    requires Supported(T, sc) && RootNames(sc, "")
    ensures "root" in rules && forall s :: Derives(rules, "root", s) <==> Valid(T, Emits(rules), sc, s)
  {
    var c := new SchemaConverter(T);
    var owner := Object([Prop("", sc)], {}, NoMore);
    assert Sub("", "") == "";
    var value := c.Visit(sc, Sub("", ""));
    ghost var visited, st := c.rules, c.names;
    ghost var alts := MemberRule(T, owner, 0, value, visited);
    SuffixIsSafe(T, "", "-kv");
    var kv := c.AddOwnRule(Sub("", "") + "-kv",
                           [TLit(Quoted("")), TRef("space"), TLit(":"), TRef("space"), TRef(value)], alts);
    var key := c.AddRule("root", objectRule);
    rules := c.rules;
    RootKept(T, sc, visited, rules, st);
  }

  lemma RootKept(T: Builtins, sc: Schema, older: RuleMap, newer: RuleMap, st: Names)
    requires Supported(T, sc) && st == After(T, sc, "", START)
    requires Inv(T, older, st) && Extends(newer, older) && "root" in older && KeyMeans(T, sc, "root", older)
    requires KindsIn(T, sc, st.present) || sc.Primitive?
    ensures forall s :: Derives(newer, "root", s) <==> Valid(T, Emits(newer), sc, s)
  {
    if sc.Primitive? {
      PrimitiveKept(T, sc, older, newer, st);
    } else {
      MeansLater(T, sc, "root", older, newer, st);
    }
  }

  lemma PrimedRefs(T: Builtins, kind: string, older: RuleMap, st: Names)
    requires kind in T.rules && st == PrimedAll(T, T.rules[kind].deps, START) && Shaped(T, older, st)
    ensures AltsRefsIn(T.rules[kind].body, older.Keys)
  {
    var r := T.rules[kind];
    assert GoodRule(T, kind);
    forall n | n in WithSpace(r.deps) ensures n in older.Keys { }
    RefsWiden(r.body, WithSpace(r.deps), older.Keys);
  }

  lemma BodyKept(T: Builtins, body: seq<Body>, key: string, older: RuleMap, newer: RuleMap)
    requires Closed(older) && Extends(newer, older) && key in older && AltsRefsIn(body, older.Keys)
    requires forall s :: Derives(older, key, s) <==> MatchesAlts(body, s, Lang(older))
    ensures forall s :: Derives(newer, key, s) <==> MatchesAlts(body, s, Lang(newer))
  {
    LangStable(older, newer);
    forall s ensures Derives(newer, key, s) <==> MatchesAlts(body, s, Lang(newer)) {
      assert Derives(older, key, s) <==> MatchesAlts(body, s, Lang(older));
      AltsSameUnder(body, s, Lang(older), Lang(newer), older.Keys);
    }
  }

  lemma PrimitiveKept(T: Builtins, sc: Schema, older: RuleMap, newer: RuleMap, st: Names)
    requires sc.Primitive? && sc.kind in T.rules && st == After(T, sc, "", START)
    requires Inv(T, older, st) && Extends(newer, older) && "root" in older && KeyMeans(T, sc, "root", older)
    ensures forall s :: Derives(newer, "root", s) <==> Valid(T, Emits(newer), sc, s)
  {
    PrimedRefs(T, sc.kind, older, st);
    forall s ensures Derives(older, "root", s) <==> MatchesAlts(T.rules[sc.kind].body, s, Lang(older)) {
      assert Derives(older, "root", s) <==> Valid(T, Emits(older), sc, s);
    }
    BodyKept(T, T.rules[sc.kind].body, "root", older, newer);
  }

  /** The object with one property named "*"; the converter takes the name for "any other property" if that one is
      optional. */
  function StarOwner(sc: Schema): Schema { Object([Prop("*", sc)], {"*"}, NoMore) }

  /** An optional property named "*": the rule made for it accepts the member twice. */
  method StarProperty(T: Builtins, sc: Schema, name: string, m: string) returns (rules: RuleMap, alternatives: seq<Tok>)
    requires Supported(T, sc) && name != ""
    ensures Parse(alternatives).Some?
    ensures Member(T, Emits(rules), StarOwner(sc), 0, m) && Blank(T, "") ==>
              MatchesAlts(Parse(alternatives).value, m, Lang(rules))
              && MatchesAlts(Parse(alternatives).value, m + "," + m, Lang(rules))
  {
    var c := new SchemaConverter(T);
    assert GoodName(StarOwner(sc), "*");
    var kv := c.VisitProperty(StarOwner(sc), 0, name);
    ghost var visited, st := c.rules, c.names;
    ghost var alts;
    alternatives, alts := c.OptionalAlternatives(["*"], map["*" := kv], name);
    rules := c.rules;
    ShowThenParse(alts);
    assert KvsOf(["*"], map["*" := kv]) == [kv];
    StarRepeats(T, sc, kv, m, visited, rules, st, alts);
  }

  lemma StarRepeats(T: Builtins, sc: Schema, kv: string, m: string, older: RuleMap, rules: RuleMap, st: Names,
                    alts: seq<Body>)
    requires Inv(T, older, st) && Extends(rules, older) && PropThere(T, StarOwner(sc), 0, kv, older, st.present)
    requires SpaceThere(T, rules)
    requires forall s :: MatchesAlts(alts, s, Lang(rules)) <==> SomePicked([kv], true, s, Lang(rules))
    ensures Member(T, Emits(rules), StarOwner(sc), 0, m) && Blank(T, "") ==>
              MatchesAlts(alts, m, Lang(rules)) && MatchesAlts(alts, m + "," + m, Lang(rules))
  {
    PropGrows(T, StarOwner(sc), 0, kv, older, rules, st);
    BlankEverywhere(T, rules);
    if Member(T, Emits(rules), StarOwner(sc), 0, m) && Blank(T, "") {
      assert Derives(rules, kv, m);
      Repeats(T, kv, m, Lang(rules));
    }
  }

  /** One member and two of them are selections from one repeated name. */
  lemma Repeats(T: Table, kv: string, m: string, I: Interp)
    requires (kv, m) in I && Blank(T, "") && SpaceOk(T, I)
    ensures SomePicked([kv], true, m, I) && SomePicked([kv], true, m + "," + m, I)
  {
    TwoJoined(T, m, I);
    assert [m][1..] == [] && m[|m|..] == "";
    assert Pick([kv], true, [m], I) && Pick([kv], true, [m, m], I);
  }

  lemma TwoJoined(T: Table, m: string, I: Interp)
    requires Blank(T, "") && SpaceOk(T, I)
    ensures Joined([m, m], m + "," + m, COMMA, I)
  {
    var s := m + "," + m;
    var t := s[|m|..];
    assert t == "," + m && t[..1] == "," && t[1..] == m && t[0..1] == ",";
    assert [m, m][1..] == [m] && [m][1..] == [];
    CommaOnly(T, I);
    assert t[1..|t|] == m;
    assert Step([m][0], t, 1, |t|, COMMA, I);
    assert t[|t|..] == "" && Tail([m][1..], t[|t|..], COMMA, I);
  }

  lemma CommaOnly(T: Table, I: Interp)
    requires Blank(T, "") && SpaceOk(T, I)
    ensures MatchesSyms(COMMA, ",", I)
  {
    LiteralSpace(T, ",", ",", I);
  }
}
