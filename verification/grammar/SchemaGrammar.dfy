/** The whole conversion, with the built-in rules the program ships. */
module SchemaGrammar {
  import opened Gbnf
  import opened Rules
  import opened Symbols
  import opened Schemas
  import opened Tables
  import opened Naming
  import opened Growth
  import opened Converter
  import Primitives

  function PrimitiveTable(): Table {
    Table(map k | k in Primitives.KINDS :: BuiltinRule(Primitives.BodyOf(k), Primitives.Deps(k)),
          Primitives.SPACE_BODY, Primitives.FORMATS)
  }

  // ---------------------------------------------------------------------------------------------
  // The shipped table is a good one
  // ---------------------------------------------------------------------------------------------

  predicate LastIs(s: string, cs: string) { s != "" && s[|s| - 1] in cs }

  lemma KindNames(k: string)
    requires k in Primitives.KINDS
    ensures AllNameChars(k) && |k| >= 4 && LastIs(k, "ntryedgl") && (LastIs(k, "t") ==> k[|k| - 2] in "rc")
  {
    KindChars(k);
    if k == "decimal-part" || k == "integral-part" { assert k[|k| - 2] == 'r'; }
    else if k == "object" { assert k[|k| - 2] == 'c'; }
  }

  lemma KindChars(k: string)
    requires k in Primitives.KINDS
    ensures AllNameChars(k) && |k| >= 4
  {
  }

  lemma EndChar(s: string, t: string, j: nat)
    ensures EndsWith(s, t) && 1 <= j <= |t| ==> s[|s| - j] == t[|t| - j]
  {
    if EndsWith(s, t) && 1 <= j <= |t| { assert s[|s| - |t|..][|t| - j] == s[|s| - j]; }
  }

  lemma NotMadeUp(k: string)
    requires |k| >= 4 && LastIs(k, "ntryedgl") && (LastIs(k, "t") ==> k[|k| - 2] in "rc")
    ensures !MadeUp(k)
  {
    EndChar(k, "-kv", 1);
    EndChar(k, "-k", 1);
    EndChar(k, "-", 1);
    EndChar(k, "-rest", 1);
    EndChar(k, "-rest", 2);
  }

  lemma TableHolds(k: string)
    requires k in Primitives.KINDS
    ensures k in PrimitiveTable().rules
    ensures PrimitiveTable().rules[k] == BuiltinRule(Primitives.BodyOf(k), Primitives.Deps(k))
  {
  }

  lemma KindNameIsGood(k: string)
    requires k in Primitives.KINDS
    ensures Esc(k) == k && !MadeUp(k)
  {
    KindNames(k);
    NotMadeUp(k);
    EscKeeps(k);
  }

  lemma KindIsGood(k: string)
    requires k in Primitives.KINDS
    ensures k in PrimitiveTable().rules && GoodRule(PrimitiveTable(), k)
  {
    TableHolds(k);
    KindNameIsGood(k);
    Primitives.BuiltinOk(k);
    Primitives.DepsCover(k);
    if '-' in k { DashedKinds(k); }
    var deps := Primitives.Deps(k);
    forall i | 0 <= i < |deps| ensures deps[i] in PrimitiveTable().rules { TableHolds(deps[i]); }
  }

  /** The two rules with a dash in their names are leaves that begin with a class. */
  lemma DashedKinds(k: string)
    requires k in Primitives.KINDS && '-' in k
    ensures Primitives.Deps(k) == [] && BeginsWithClass(ShowAlts(Primitives.BodyOf(k)))
  {
    if k == "integral-part" {
      ShowOne(Class("0"));
    } else if k == "decimal-part" {
      ShowOne(Primitives.BodyOf(k)[0].syms[0]);
    } else {
      OtherKindsHaveNoDash(k);
    }
  }

  lemma OtherKindsHaveNoDash(k: string)
    requires k in Primitives.KINDS && k != "integral-part" && k != "decimal-part"
    ensures '-' !in k
  {
  }

  lemma ReservedNames()
    ensures "space" !in PrimitiveTable().rules && "root" !in PrimitiveTable().rules && !IsReserved(PrimitiveTable(), "")
  {
  }

  lemma SpaceBodyGood()
    ensures OkAlts(Primitives.SPACE_BODY) && AltsRefsIn(Primitives.SPACE_BODY, {})
  {
    Primitives.SpaceOk();
  }

  lemma PrimitivesAreGood()
    ensures GoodTable(PrimitiveTable())
  {
    ReservedNames();
    SpaceBodyGood();
    forall k | k in PrimitiveTable().rules ensures GoodRule(PrimitiveTable(), k) { KindIsGood(k); }
  }

  // ---------------------------------------------------------------------------------------------
  // Built-in rules that mean what they mean on their own
  // ---------------------------------------------------------------------------------------------

  /** The built-in rules that kept their names, and white space. */
  function Kept(st: Names): set<string> { st.present - st.taken.Keys + {"space"} }

  /** What a kept rule refers to is kept, if nothing it depends on is taken. */
  lemma KeptRefs(T: Builtins, rules: RuleMap, st: Names, n: string)
    requires Inv(T, rules, st) && Harmless(T, st) && n in Kept(st)
    ensures n in Base(T) && rules[n] == Base(T)[n] && ToksRefsIn(rules[n], Kept(st))
  {
    if n == "space" {
      SpaceRefs(T);
    } else {
      assert HasBody(T, rules, st, n) && GoodRule(T, n);
      ShowAltsRefs(T.rules[n].body, WithSpace(T.rules[n].deps));
      assert ToksRefsIn(rules[n], rules.Keys);
    }
  }

  /** The body of a built-in rule refers to kept rules only. */
  lemma BodyRefsKept(T: Builtins, rules: RuleMap, st: Names, k: string)
    requires Inv(T, rules, st) && Harmless(T, st) && k in st.present
    ensures AltsRefsIn(T.rules[k].body, Kept(st))
  {
    assert HasBody(T, rules, st, k) && GoodRule(T, k);
    ShowThenParse(T.rules[k].body);
    if k in st.taken {
      ContentRefs(T, k, Kept(st));
    } else {
      KeptRefs(T, rules, st, k);
    }
    ParseAltsRefs(Content(T, k), Kept(st));
  }

  lemma KeptMeanTheSame(T: Builtins, rules: RuleMap, st: Names)
    requires Inv(T, rules, st) && Harmless(T, st)
    ensures AgreeOn(Lang(rules), Builtin(T), Kept(st))
  {
    forall n | n in Kept(st)
      ensures n in rules && n in Base(T) && rules[n] == Base(T)[n] && ToksRefsIn(rules[n], Kept(st))
    {
      KeptRefs(T, rules, st, n);
    }
    LangSame(rules, Base(T), Kept(st));
  }

  /** Every built-in rule that the schema is made with means what it means on its own. */
  lemma SameAsBuiltin(T: Builtins, rules: RuleMap, st: Names)
    requires Inv(T, rules, st) && Harmless(T, st)
    ensures SameKinds(T, st.present, Lang(rules), Builtin(T))
  {
    KeptMeanTheSame(T, rules, st);
    forall k, s | k in st.present && k in T.rules
      ensures MatchesAlts(T.rules[k].body, s, Lang(rules)) <==> MatchesAlts(T.rules[k].body, s, Builtin(T))
    {
      BodyRefsKept(T, rules, st, k);
      AltsSameUnder(T.rules[k].body, s, Lang(rules), Builtin(T), Kept(st));
    }
    forall k, s | k in {"object", "value"} && k in st.present ensures (k, s) in Lang(rules) <==> (k, s) in Builtin(T) {
      assert '-' !in "object" && '-' !in "value";
      assert HasBody(T, rules, st, k);
      assert k in Kept(st);
    }
  }

  /** The root of a primitive schema is no name of its own: nothing is taken, and all its dependencies are there. */
  lemma PrimitiveRoot(T: Builtins, rules: RuleMap, sc: Schema)
    requires sc.Primitive? && sc.kind in T.rules && Inv(T, rules, FinalNames(T, sc))
    ensures forall s :: Valid(T, Emits(rules), sc, s) <==> Valid(T, Emitting(Builtin(T)), sc, s)
  {
    var st, r := FinalNames(T, sc), T.rules[sc.kind];
    assert st == PrimedAll(T, r.deps, START) && st.taken == map[];
    KeptMeanTheSame(T, rules, st);
    assert GoodRule(T, sc.kind);
    forall n | n in WithSpace(r.deps) ensures n in Kept(st) { }
    RefsWiden(r.body, WithSpace(r.deps), Kept(st));
    forall s ensures Valid(T, Emits(rules), sc, s) <==> Valid(T, Emitting(Builtin(T)), sc, s) {
      AltsSameUnder(r.body, s, Lang(rules), Builtin(T), Kept(st));
    }
  }

  /** Nothing that was taken matters to the schema. */
  lemma HarmlessIsExact(T: Builtins, sc: Schema, rules: RuleMap)
    requires Supported(T, sc) && Inv(T, rules, FinalNames(T, sc)) && Harmless(T, FinalNames(T, sc))
    requires KindsIn(T, sc, FinalNames(T, sc).present) || sc.Primitive?
    ensures forall s :: Valid(T, Emits(rules), sc, s) <==> Valid(T, Emitting(Builtin(T)), sc, s)
  {
    if sc.Primitive? {
      PrimitiveRoot(T, rules, sc);
    } else {
      SameAsBuiltin(T, rules, FinalNames(T, sc));
      ValidSame(T, sc, FinalNames(T, sc).present, Emits(rules), Emitting(Builtin(T)));
    }
  }

  lemma {:induction false} SupportedKinds(T: Table, sc: Schema)
    requires Supported(T, sc)
    ensures KindsIn(T, sc, T.rules.Keys)
    decreases sc
  {
    match sc
    case AnyOf(alts) =>
      forall i | 0 <= i < |alts| ensures KindsIn(T, alts[i], T.rules.Keys) { SupportedKinds(T, alts[i]); }
    case Tuple(items) =>
      forall i | 0 <= i < |items| ensures KindsIn(T, items[i], T.rules.Keys) { SupportedKinds(T, items[i]); }
    case List(item, _, _) => SupportedKinds(T, item);
    case Object(props, _, additional) =>
      forall i | 0 <= i < |props| ensures KindsIn(T, props[i].schema, T.rules.Keys) {
        SupportedKinds(T, props[i].schema);
      }
      if additional.MoreOf? { SupportedKinds(T, additional.schema); }
    case _ =>
  }

  /** Where no object with declared properties allows others and no list has its minimum above its maximum, schemas
      are what the grammars written for them read as. */
  lemma SettledIsMeant(T: Builtins, sc: Schema)
    requires Supported(T, sc) && Settled(sc)
    ensures forall s :: Valid(T, Emitting(Builtin(T)), sc, s) <==> Valid(T, Meant(T), sc, s)
  {
    SupportedKinds(T, sc);
    ValidSame(T, sc, T.rules.Keys, Emitting(Builtin(T)), Meant(T));
  }

  // ---------------------------------------------------------------------------------------------
  // The conversion
  // ---------------------------------------------------------------------------------------------

  /** The grammar of a schema: it reads, all its references are defined, and its root derives exactly the texts that
      the schema emits, with the built-in rules as they are in this grammar. A built-in rule has its built-in body
      exactly if its name was not taken; a taken name derives the texts of the schema that took it. If no built-in
      rule depends on a taken name, the built-in rules mean what they mean on their own; in a settled schema that is
      what it stands for. */
  method Convert(T: Builtins, sc: Schema) returns (rules: RuleMap)
    requires Supported(T, sc) && RootNames(sc, "")
    ensures "root" in rules && Inv(T, rules, FinalNames(T, sc))
    ensures forall s :: Derives(rules, "root", s) <==> Valid(T, Emits(rules), sc, s)
    ensures forall k :: k in rules && k in T.rules ==>
                          (rules[k] == Content(T, k) <==> k !in FinalNames(T, sc).taken)
    ensures Harmless(T, FinalNames(T, sc)) ==>
            forall s :: Derives(rules, "root", s) <==> Valid(T, Emitting(Builtin(T)), sc, s)
    ensures Harmless(T, FinalNames(T, sc)) && Settled(sc) ==>
            forall s :: Derives(rules, "root", s) <==> Valid(T, Meant(T), sc, s)
  {
    var c := new SchemaConverter(T);
    var key := c.Visit(sc, "");
    rules := c.rules;
    ghost var st := FinalNames(T, sc);
    forall k | k in rules && k in T.rules ensures rules[k] == Content(T, k) <==> k !in st.taken {
      TakenIsOther(T, rules, st, k);
    }
    if Harmless(T, st) { HarmlessIsExact(T, sc, rules); }
    if Settled(sc) { SettledIsMeant(T, sc); }
  }

  /** The same for the shipped built-in rules and property names made of letters, digits and dashes. */
  method ConvertShipped(sc: Schema) returns (rules: RuleMap)
    requires Supported(PrimitiveTable(), sc) && RootNames(sc, "") && PropsUseNameChars(sc)
    ensures "root" in rules && Closed(rules) && AllParse(rules)
    ensures forall s :: Derives(rules, "root", s) <==>
                        Valid(PrimitiveTable(), Emitting(Builtin(PrimitiveTable())), sc, s)
    ensures Settled(sc) ==>
            forall s :: Derives(rules, "root", s) <==> Valid(PrimitiveTable(), Meant(PrimitiveTable()), sc, s)
  {
    PrimitivesAreGood();
    NameCharsAreHarmless(PrimitiveTable(), sc);
    rules := Convert(PrimitiveTable(), sc);
  }
}
