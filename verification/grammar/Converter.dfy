/** The schema converter: rules are collected under names that are never rebound. */
module Converter {
  import opened Options
  import opened Gbnf
  import opened Rules
  import opened Symbols
  import opened Decimal
  import opened IntRange
  import opened IntBounds
  import opened MinMaxInt
  import opened Repetition
  import opened NotStrings
  import opened Schemas
  import opened Shapes
  import opened Tables
  import opened Naming
  import opened Growth

  // ---------------------------------------------------------------------------------------------
  // Numbered names
  // ---------------------------------------------------------------------------------------------

  lemma NumberedIsMadeUp(base: string, i: nat)
    ensures EndsInDigit(base + ToString(i))
  {
    var k := base + ToString(i);
    assert k[|k| - 1] == ToString(i)[|ToString(i)| - 1];
  }

  /** The keys tried so far when a name is taken. */
  function Tried(base: string, n: nat): set<string> { set i | 0 <= i < n :: base + ToString(i) }

  lemma NotTried(base: string, n: nat)
    ensures base + ToString(n) !in Tried(base, n)
    ensures Tried(base, n + 1) == Tried(base, n) + {base + ToString(n)}
  {
    if base + ToString(n) in Tried(base, n) {
      var i :| 0 <= i < n && base + ToString(i) == base + ToString(n);
      assert (base + ToString(i))[|base|..] == ToString(i) && (base + ToString(n))[|base|..] == ToString(n);
      ToStringInjective(i, n);
    }
  }

  lemma OneMoreTried(base: string, n: nat, keys: set<string>)
    requires base + ToString(n) in keys && Tried(base, n) <= keys
    ensures Tried(base, n + 1) <= keys && |keys - Tried(base, n + 1)| < |keys - Tried(base, n)|
  {
    NotTried(base, n);
    assert keys - Tried(base, n + 1) == keys - Tried(base, n) - {base + ToString(n)};
  }

  /** What the lemmas about single rules need of a grammar. */
  predicate Sound(T: Builtins, rules: RuleMap) { SpaceThere(T, rules) && Closed(rules) && AllParse(rules) }

  predicate SameRoot(newer: RuleMap, older: RuleMap) { "root" in newer <==> "root" in older }

  // ---------------------------------------------------------------------------------------------
  // The languages of the simple cases
  // ---------------------------------------------------------------------------------------------

  lemma LiteralSpace(T: Table, text: string, s: string, I: Interp)
    requires SpaceOk(T, I)
    ensures MatchesSyms([Lit(text), SP], s, I) <==> text <= s && Blank(T, s[|text|..])
  {
    assert [Lit(text)] + [SP] == [Lit(text), SP];
    LitThen(text, [SP], s, I);
    if |s| >= |text| { MatchesOne(SP, s[|text|..], I); }
  }

  /** One alternative for each literal. */
  function Literals(texts: seq<string>): (alts: seq<Body>)
    ensures |alts| == |texts| && forall i :: 0 <= i < |alts| ==> alts[i] == Body([Lit(texts[i])])
  {
    seq(|texts|, i requires 0 <= i < |texts| => Body([Lit(texts[i])]))
  }

  lemma LiteralsSnoc(texts: seq<string>, i: nat)
    requires i < |texts|
    ensures ShowAlts(Literals(texts[..i + 1])) ==
            (if i > 0 then ShowAlts(Literals(texts[..i])) + [TBar] else []) + [TLit(texts[i])]
  {
    var last := [Body([Lit(texts[i])])];
    ShowOne(Lit(texts[i]));
    assert Literals(texts[..i + 1]) == Literals(texts[..i]) + last;
    if i > 0 { ShowAltsConcat(Literals(texts[..i]), last); }
  }

  lemma EnumSyms(texts: seq<string>, N: set<string>) returns (xs: seq<Sym>)
    requires texts != [] && "space" in N
    ensures xs == [Group(Literals(texts)), SP] && OkSyms(xs) && SymsRefsIn(xs, N)
    ensures ShowSyms(xs) == [TOpen] + ShowAlts(Literals(texts)) + [TClose, TRef("space")]
  {
    var g := Group(Literals(texts));
    xs := [g, SP];
    ShowTwo(g, SP);
    forall i | 0 <= i < |texts| ensures OkSyms(Literals(texts)[i].syms) && SymsRefsIn(Literals(texts)[i].syms, N) { }
  }

  /** A symbol up to i, then white space. */
  ghost predicate ThenBlank(T: Table, x: Sym, s: string, i: nat, I: Interp) {
    i <= |s| && Matches(x, s[..i], I) && Blank(T, s[i..])
  }

  lemma SymSpace(T: Table, x: Sym, s: string, I: Interp)
    requires SpaceOk(T, I)
    ensures MatchesSyms([x, SP], s, I) <==> exists i: nat :: ThenBlank(T, x, s, i, I)
  {
    var xs := [x, SP];
    assert xs[1..] == [SP];
    if MatchesSyms(xs, s, I) {
      var i :| 0 <= i <= |s| && Matches(xs[0], s[..i], I) && MatchesSyms(xs[1..], s[i..], I);
      MatchesOne(SP, s[i..], I);
      assert ThenBlank(T, x, s, i, I);
    }
    if i: nat :| ThenBlank(T, x, s, i, I) {
      MatchesOne(SP, s[i..], I);
    }
  }

  lemma EnumMeans(T: Table, sc: Schema, s: string, I: Interp)
    requires sc.Enumeration? && SpaceOk(T, I)
    ensures MatchesSyms([Group(Literals(sc.texts)), SP], s, I) <==> Valid(T, Emitting(I), sc, s)
  {
    var texts, alts := sc.texts, Literals(sc.texts);
    SymSpace(T, Group(alts), s, I);
    if i: nat :| ThenBlank(T, Group(alts), s, i, I) { EnumThere(T, texts, s, i, I); }
    if j :| 0 <= j < |texts| && texts[j] <= s && Blank(T, s[|texts[j]|..]) { EnumFrom(T, texts, s, j, I); }
  }

  lemma EnumThere(T: Table, texts: seq<string>, s: string, i: nat, I: Interp)
    requires ThenBlank(T, Group(Literals(texts)), s, i, I)
    ensures exists j :: 0 <= j < |texts| && texts[j] <= s && Blank(T, s[|texts[j]|..])
  {
    LiteralsMean(texts, s[..i], I);
    var j :| 0 <= j < |texts| && s[..i] == texts[j];
    assert |s[..i]| == i && s[..i] <= s;
  }

  lemma EnumFrom(T: Table, texts: seq<string>, s: string, j: nat, I: Interp)
    requires j < |texts| && texts[j] <= s && Blank(T, s[|texts[j]|..])
    ensures ThenBlank(T, Group(Literals(texts)), s, |texts[j]|, I)
  {
    assert s[..|texts[j]|] == texts[j];
    LiteralsMean(texts, texts[j], I);
  }

  lemma LiteralsMean(texts: seq<string>, t: string, I: Interp)
    ensures Matches(Group(Literals(texts)), t, I) <==> exists j :: 0 <= j < |texts| && t == texts[j]
  {
    var alts := Literals(texts);
    assert Matches(Group(alts), t, I) <==> MatchesAlts(alts, t, I);
    forall j | 0 <= j < |texts| ensures MatchesSyms(alts[j].syms, t, I) <==> t == texts[j] {
      MatchesOne(Lit(texts[j]), t, I);
    }
  }

  lemma IntegerMeans(T: Table, sc: Schema, alts: seq<Body>, s: string, I: Interp)
    requires sc.Integer? && SpaceOk(T, I) && Supported(T, sc)
    requires DenotesAlts(alts, NumeralP(LowerBound(sc), UpperBound(sc)))
    ensures MatchesSyms([Group(alts), SP], s, I) <==> Valid(T, Emitting(I), sc, s)
  {
    SymSpace(T, Group(alts), s, I);
    forall i: nat | i <= |s| ensures Matches(Group(alts), s[..i], I) <==> IntegerText(Emitted, sc, s[..i]) {
      NumeralMeans(sc, alts, s[..i], I);
    }
    if i: nat :| ThenBlank(T, Group(alts), s, i, I) {
      assert IntegerText(Emitted, sc, s[..i]);
    }
    if i :| 0 <= i <= |s| && IntegerText(Emitted, sc, s[..i]) && Blank(T, s[i..]) {
      assert ThenBlank(T, Group(alts), s, i, I);
    }
  }

  lemma IntegersMean(T: Table, sc: Schema, alts: seq<Body>, I: Interp)
    requires sc.Integer? && SpaceOk(T, I) && Supported(T, sc)
    requires DenotesAlts(alts, NumeralP(LowerBound(sc), UpperBound(sc)))
    ensures forall s :: MatchesSyms([Group(alts), SP], s, I) <==> Valid(T, Emitting(I), sc, s)
  {
    forall s ensures MatchesSyms([Group(alts), SP], s, I) <==> Valid(T, Emitting(I), sc, s) {
      IntegerMeans(T, sc, alts, s, I);
    }
  }

  lemma NumeralMeans(sc: Schema, alts: seq<Body>, t: string, I: Interp)
    requires sc.Integer? && InRange(sc)
    requires DenotesAlts(alts, NumeralP(LowerBound(sc), UpperBound(sc)))
    ensures Matches(Group(alts), t, I) <==> IntegerText(Emitted, sc, t)
  {
    assert Matches(Group(alts), t, I) <==> MatchesAlts(alts, t, I);
    assert MatchesAlts(alts, t, I) <==> NumeralP(LowerBound(sc), UpperBound(sc))(t);
    IntegerTextIs(sc, t);
  }

  /** A text without references reads back without references. */
  lemma NoRefs(alts: seq<Body>, N: set<string>, ts: seq<PlainTok>)
    requires OkAlts(alts) && ts == ShowAlts(alts)
    ensures AltsRefsIn(alts, N)
  {
    ShowThenParse(alts);
    ParseAltsRefs(ts, N);
  }

  lemma IntegersShown(alts: seq<Body>, N: set<string>, ts: seq<PlainTok>)
    requires OkAlts(alts) && ts == ShowAlts(alts) && "space" in N
    ensures ShowSyms([Group(alts), SP]) == [TOpen] + ts + [TClose, TRef("space")]
    ensures OkSyms([Group(alts), SP]) && SymsRefsIn([Group(alts), SP], N)
    ensures !BeginsWithClass([TOpen] + ts + [TClose, TRef("space")])
  {
    ShowTwo(Group(alts), SP);
    NoRefs(alts, N, ts);
  }

  /** The text `( ... ) space` for integers with bounds. */
  method IntegerRuleText(T: Table, sc: Schema, ghost rules: RuleMap) returns (rule: seq<Tok>, ghost xs: seq<Sym>)
    requires sc.Integer? && Supported(T, sc) && SpaceOk(T, Lang(rules)) && "space" in rules
    ensures rule == ShowSyms(xs) && OkSyms(xs) && SymsRefsIn(xs, rules.Keys) && !BeginsWithClass(rule)
    ensures forall s :: MatchesSyms(xs, s, Lang(rules)) <==> Valid(T, Emits(rules), sc, s)
  {
    var out := new Text<PlainTok>();
    ghost var alts;
    var ok;
    var minValue, maxValue := INT_MIN, INT_MAX;
    if sc.minimum.Some? {
      minValue := sc.minimum.value;
    } else if sc.exclusiveMinimum.Some? {
      minValue := sc.exclusiveMinimum.value + 1;
    }
    if sc.maximum.Some? {
      maxValue := sc.maximum.value;
    } else if sc.exclusiveMaximum.Some? {
      maxValue := sc.exclusiveMaximum.value - 1;
    }
    ok, alts := BuildMinMaxInt(minValue, maxValue, out, 16, true);
    rule := [TOpen] + out.toks + [TClose, TRef("space")];
    xs := [Group(alts), SP];
    IntegersShown(alts, rules.Keys, out.toks);
    IntegersMean(T, sc, alts, Lang(rules));
  }

  // ---------------------------------------------------------------------------------------------
  // Lists of keys
  // ---------------------------------------------------------------------------------------------

  /** The keys derive the texts of the schemas, one by one. */
  ghost predicate KeysMean(T: Table, scs: seq<Schema>, keys: seq<string>, rules: RuleMap, P: set<string>) {
    && |keys| == |scs|
    && forall i :: 0 <= i < |keys| ==> KeyThere(T, scs[i], keys[i], rules, P)
  }

  ghost predicate KeyThere(T: Table, sc: Schema, key: string, rules: RuleMap, P: set<string>) {
    key in rules && KeyMeans(T, sc, key, rules) && KindsIn(T, sc, P)
  }

  lemma KeysGrow(T: Builtins, scs: seq<Schema>, i: nat, keys: seq<string>, k: string, older: RuleMap, newer: RuleMap,
                 st: Names, st': Names)
    requires Inv(T, older, st) && Extends(newer, older) && i < |scs| && KeysMean(T, scs[..i], keys, older, st.present)
    requires st.present <= st'.present && KeyThere(T, scs[i], k, newer, st'.present)
    ensures KeysMean(T, scs[..i + 1], keys + [k], newer, st'.present)
  {
    forall j | 0 <= j < i ensures KeyThere(T, scs[j], keys[j], newer, st'.present) {
      assert KeyThere(T, scs[..i][j], keys[j], older, st.present);
      MeansLater(T, scs[j], keys[j], older, newer, st);
      KindsMore(T, scs[j], st.present, st'.present);
    }
  }

  /** One alternative for each key. */
  function Refs(keys: seq<string>): (alts: seq<Body>)
    ensures |alts| == |keys| && forall i :: 0 <= i < |alts| ==> alts[i] == Body([Ref(keys[i])])
  {
    seq(|keys|, i requires 0 <= i < |keys| => Body([Ref(keys[i])]))
  }

  lemma RefsSnoc(keys: seq<string>, i: nat)
    requires i < |keys|
    ensures ShowAlts(Refs(keys[..i + 1])) ==
            (if i > 0 then ShowAlts(Refs(keys[..i])) + [TBar] else []) + [TRef(keys[i])]
  {
    var last := [Body([Ref(keys[i])])];
    ShowOne(Ref(keys[i]));
    assert Refs(keys[..i + 1]) == Refs(keys[..i]) + last;
    if i > 0 { ShowAltsConcat(Refs(keys[..i]), last); }
  }

  lemma RefsMean(T: Builtins, sc: Schema, keys: seq<string>, rules: RuleMap, P: set<string>)
    requires sc.AnyOf? && sc.alts != [] && KeysMean(T, sc.alts, keys, rules, P)
    ensures OkAlts(Refs(keys)) && AltsRefsIn(Refs(keys), rules.Keys)
    ensures forall s :: MatchesAlts(Refs(keys), s, Lang(rules)) <==> Valid(T, Emits(rules), sc, s)
  {
    var alts := Refs(keys);
    forall s ensures MatchesAlts(alts, s, Lang(rules)) <==> Valid(T, Emits(rules), sc, s) {
      if j :| 0 <= j < |alts| && MatchesSyms(alts[j].syms, s, Lang(rules)) {
        MatchesOne(Ref(keys[j]), s, Lang(rules));
        assert KeyThere(T, sc.alts[j], keys[j], rules, P);
      }
      if j :| 0 <= j < |sc.alts| && Valid(T, Emits(rules), sc.alts[j], s) {
        assert KeyThere(T, sc.alts[j], keys[j], rules, P);
        MatchesOne(Ref(keys[j]), s, Lang(rules));
        assert MatchesSyms(alts[j].syms, s, Lang(rules));
      }
    }
  }

  // ---------------------------------------------------------------------------------------------
  // Tuples and lists
  // ---------------------------------------------------------------------------------------------

  lemma RefListSnoc(keys: seq<string>, i: nat)
    requires i < |keys|
    ensures ShowSyms(RefList(keys[..i + 1])) ==
            ShowSyms(RefList(keys[..i])) + (if i > 0 then [TLit(","), TRef("space")] else []) + [TRef(keys[i])]
  {
    var u := keys[..i + 1];
    assert u[..i] == keys[..i];
    ShowOne(Ref(keys[i]));
    if i > 0 {
      ShowTwo(Lit(","), SP);
      ShowSymsConcat(RefList(keys[..i]), COMMA);
      ShowSymsConcat(RefList(keys[..i]) + COMMA, [Ref(keys[i])]);
    }
  }

  lemma TupleMeans(T: Builtins, sc: Schema, keys: seq<string>, s: string, rules: RuleMap, P: set<string>)
    requires sc.Tuple? && KeysMean(T, sc.items, keys, rules, P) && SpaceOk(T, Lang(rules))
    ensures MatchesSyms(Bracketed('[', ']', RefList(keys)), s, Lang(rules)) <==> Valid(T, Emits(rules), sc, s)
  {
    var I := Lang(rules);
    BracketedMeans(T, '[', ']', RefList(keys), s, I);
    forall i: nat, j: nat | Enclosed(T, '[', ']', s, i, j)
      ensures MatchesSyms(RefList(keys), s[i..j], I) <==> TupleItems(T, Emits(rules), sc, s[i..j])
    {
      RefListMeans(keys, s[i..j], I);
      TupleInner(T, sc, keys, s[i..j], rules, P);
    }
  }

  lemma TupleInner(T: Builtins, sc: Schema, keys: seq<string>, t: string, rules: RuleMap, P: set<string>)
    requires sc.Tuple? && KeysMean(T, sc.items, keys, rules, P) && SpaceOk(T, Lang(rules))
    ensures RefListOf(keys, t, Lang(rules)) <==> TupleItems(T, Emits(rules), sc, t)
  {
    var I := Lang(rules);
    forall vs: seq<string> | |vs| == |keys|
      ensures EachDerives(keys, vs, I) <==> forall i :: 0 <= i < |vs| ==> Valid(T, Emits(rules), sc.items[i], vs[i])
      ensures Joined(vs, t, COMMA, I) <==> Joined(vs, t, COMMA, Builtin(T))
    {
      forall i | 0 <= i < |vs| ensures (keys[i], vs[i]) in I <==> Valid(T, Emits(rules), sc.items[i], vs[i]) {
        assert KeyThere(T, sc.items[i], keys[i], rules, P);
        assert Derives(rules, keys[i], vs[i]) <==> Valid(T, Emits(rules), sc.items[i], vs[i]);
      }
      JoinedSame(T, vs, t, I);
    }
    if RefListOf(keys, t, I) {
      var vs :| EachDerives(keys, vs, I) && Joined(vs, t, COMMA, I);
      assert |vs| == |sc.items|;
    }
    if TupleItems(T, Emits(rules), sc, t) {
      var vs :| |vs| == |sc.items| && (forall i :: 0 <= i < |vs| ==> Valid(T, Emits(rules), sc.items[i], vs[i]))
                && Joined(vs, t, COMMA, Builtin(T));
      assert EachDerives(keys, vs, I);
    }
  }

  lemma ListMeans(T: Builtins, sc: Schema, key: string, s: string, rules: RuleMap)
    requires sc.List? && 1 <= sc.maxItems <= INT_MAX
    requires KeyMeans(T, sc.item, key, rules) && SpaceOk(T, Lang(rules))
    ensures MatchesSyms(Bracketed('[', ']', RepetitionSyms(Ref(key), sc.minItems, sc.maxItems, COMMA)), s, Lang(rules))
            <==> Valid(T, Emits(rules), sc, s)
  {
    var I := Lang(rules);
    var xs := RepetitionSyms(Ref(key), sc.minItems, sc.maxItems, COMMA);
    BracketedMeans(T, '[', ']', xs, s, I);
    forall i: nat, j: nat | Enclosed(T, '[', ']', s, i, j)
      ensures MatchesSyms(xs, s[i..j], I) <==> ListItems(T, Emits(rules), sc, s[i..j])
    {
      ListBetween(T, sc, key, s[i..j], rules);
    }
  }

  lemma ListBetween(T: Builtins, sc: Schema, key: string, t: string, rules: RuleMap)
    requires sc.List? && 1 <= sc.maxItems <= INT_MAX
    requires KeyMeans(T, sc.item, key, rules) && SpaceOk(T, Lang(rules))
    ensures MatchesSyms(RepetitionSyms(Ref(key), sc.minItems, sc.maxItems, COMMA), t, Lang(rules)) <==>
            ListItems(T, Emits(rules), sc, t)
  {
    RepetitionUnrolls(Ref(key), sc.minItems, sc.maxItems, COMMA, t, Lang(rules));
    ListInner(T, sc, key, t, rules);
  }

  lemma ListInner(T: Builtins, sc: Schema, key: string, t: string, rules: RuleMap)
    requires sc.List? && 1 <= sc.maxItems <= INT_MAX
    requires KeyMeans(T, sc.item, key, rules) && SpaceOk(T, Lang(rules))
    ensures UnrolledList(Ref(key), sc.minItems, MaxOf(sc.maxItems), COMMA, t, Lang(rules)) <==>
            ListItems(T, Emits(rules), sc, t)
  {
    var I := Lang(rules);
    forall vs: seq<string>
      ensures EachMatches(Ref(key), vs, I) <==> forall i :: 0 <= i < |vs| ==> Valid(T, Emits(rules), sc.item, vs[i])
      ensures Joined(vs, t, COMMA, I) <==> Joined(vs, t, COMMA, Builtin(T))
    {
      forall i | 0 <= i < |vs| ensures Matches(Ref(key), vs[i], I) <==> Valid(T, Emits(rules), sc.item, vs[i]) {
        assert Derives(rules, key, vs[i]) <==> Valid(T, Emits(rules), sc.item, vs[i]);
      }
      JoinedSame(T, vs, t, I);
    }
  }

  lemma RepetitionRefs(key: string, minItems: nat, maxItems: int, N: set<string>)
    requires maxItems >= 1 && key in N && "space" in N
    ensures SymsRefsIn(RepetitionSyms(Ref(key), minItems, maxItems, COMMA), N)
  {
    var body := COMMA + [Ref(key)];
    assert SymsRefsIn(body, N);
    assert RefsIn(Group([Body(body)]), N);
    var more := Rep(Group([Body(body)]), if minItems == 0 then 0 else minItems - 1,
                    if maxItems == INT_MAX then None else Some(maxItems - 1));
    assert SymsRefsIn([Ref(key), more], N);
    assert RefsIn(Group([Body([Ref(key), more])]), N);
  }

  /** The text between the brackets. */
  lemma ListText(key: string, minItems: nat, maxItems: int)
    requires 1 <= maxItems <= INT_MAX
    ensures var ys := RepetitionSyms(Ref(key), minItems, maxItems, COMMA);
            OkSyms(ys)
            && ShowSyms(ys) == BuildRepetition([TRef(key)], minItems, maxItems, [TLit(","), TRef("space")])
  {
    ShowTwo(Lit(","), SP);
    RepetitionReads(Ref(key), minItems, maxItems, COMMA);
  }

  lemma ListSyms(T: Builtins, key: string, sc: Schema, N: set<string>) returns (xs: seq<Sym>)
    requires sc.List? && 1 <= sc.maxItems <= INT_MAX && key in N && "space" in N
    ensures xs == Bracketed('[', ']', RepetitionSyms(Ref(key), sc.minItems, sc.maxItems, COMMA))
    ensures OkSyms(xs) && SymsRefsIn(xs, N)
    ensures ShowSyms(xs) == [TLit(['[']), TRef("space")]
                            + BuildRepetition([TRef(key)], sc.minItems, sc.maxItems, [TLit(","), TRef("space")])
                            + [TLit([']']), TRef("space")]
  {
    var ys := RepetitionSyms(Ref(key), sc.minItems, sc.maxItems, COMMA);
    ListText(key, sc.minItems, sc.maxItems);
    RepetitionRefs(key, sc.minItems, sc.maxItems, N);
    BracketedText('[', ']', ys);
    BracketedRefs('[', ']', ys, N);
    xs := Bracketed('[', ']', ys);
  }

  // ---------------------------------------------------------------------------------------------
  // Objects
  // ---------------------------------------------------------------------------------------------

  /** The rule names of properties. */
  function KvsOf(ks: seq<string>, kvNames: map<string, string>): (kvs: seq<string>)
    requires forall i :: 0 <= i < |ks| ==> ks[i] in kvNames
    ensures |kvs| == |ks| && forall i :: 0 <= i < |ks| ==> kvs[i] == kvNames[ks[i]]
  {
    seq(|ks|, i requires 0 <= i < |ks| => kvNames[ks[i]])
  }

  /** "*" stands for any other property; it may only come last. */
  predicate StarLast(ks: seq<string>) { forall i :: 0 <= i < |ks| - 1 ==> ks[i] != "*" }

  predicate HasStar(ks: seq<string>) { ks != [] && ks[|ks| - 1] == "*" }

  /** All names are known and their rules are there. */
  predicate KvsThere(ks: seq<string>, kvNames: map<string, string>, rules: RuleMap) {
    forall i :: 0 <= i < |ks| ==> ks[i] in kvNames && kvNames[ks[i]] in rules
  }

  /** The names of the required properties from i on, and of the others. */
  function RequiredNames(sc: Schema, i: nat): seq<string>
    requires sc.Object? && i <= |sc.props|
    decreases |sc.props| - i
  {
    if i == |sc.props| then []
    else (if sc.props[i].name in sc.required then [sc.props[i].name] else []) + RequiredNames(sc, i + 1)
  }

  function OptionalNames(sc: Schema, i: nat): seq<string>
    requires sc.Object? && i <= |sc.props|
    decreases |sc.props| - i
  {
    if i == |sc.props| then []
    else (if sc.props[i].name in sc.required then [] else [sc.props[i].name]) + OptionalNames(sc, i + 1)
  }

  /** The name table after all properties: each name leads to the rule of its property. */
  predicate NamesTo(sc: Schema, kvs: seq<string>, kvNames: map<string, string>)
    requires sc.Object?
  {
    |kvs| <= |sc.props| && forall j :: 0 <= j < |kvs| ==>
        sc.props[j].name in kvNames && kvNames[sc.props[j].name] == kvs[j]
  }

  lemma {:induction false} KvsOfNames(sc: Schema, kvs: seq<string>, kvNames: map<string, string>, i: nat)
    requires sc.Object? && |kvs| == |sc.props| && NamesTo(sc, kvs, kvNames) && i <= |kvs|
    ensures forall k :: k in RequiredNames(sc, i) || k in OptionalNames(sc, i) ==> k in kvNames
    ensures KvsOf(RequiredNames(sc, i), kvNames) == RequiredKvs(sc, kvs, i)
    ensures KvsOf(OptionalNames(sc, i), kvNames) == OptionalKvs(sc, kvs, i, [])
    decreases |kvs| - i
  {
    if i < |kvs| {
      KvsOfNames(sc, kvs, kvNames, i + 1);
      if sc.props[i].name in sc.required {
        KvsOfCons(sc.props[i].name, RequiredNames(sc, i + 1), kvNames);
      } else {
        KvsOfCons(sc.props[i].name, OptionalNames(sc, i + 1), kvNames);
      }
    }
  }

  lemma KvsOfCons(k: string, ks: seq<string>, kvNames: map<string, string>)
    requires k in kvNames && forall i :: 0 <= i < |ks| ==> ks[i] in kvNames
    ensures KvsOf([k] + ks, kvNames) == [kvNames[k]] + KvsOf(ks, kvNames)
  {
  }

  lemma {:induction false} OptionalKvsMore(sc: Schema, kvs: seq<string>, i: nat, more: seq<string>)
    requires sc.Object? && |kvs| == |sc.props| && i <= |kvs|
    ensures OptionalKvs(sc, kvs, i, more) == OptionalKvs(sc, kvs, i, []) + more
    decreases |kvs| - i
  {
    if i < |kvs| { OptionalKvsMore(sc, kvs, i + 1, more); }
  }

  /** Property rules so far. */
  ghost predicate PropsMean(T: Table, sc: Schema, kvs: seq<string>, rules: RuleMap, P: set<string>)
    requires sc.Object?
  {
    |kvs| <= |sc.props| && forall j :: 0 <= j < |kvs| ==> PropThere(T, sc, j, kvs[j], rules, P)
  }

  ghost predicate PropThere(T: Table, sc: Schema, j: nat, kv: string, rules: RuleMap, P: set<string>)
    requires sc.Object? && j < |sc.props|
  {
    kv in rules && PropMeans(T, sc, j, kv, rules) && KindsIn(T, sc.props[j].schema, P)
  }

  ghost predicate PropMeans(T: Table, sc: Schema, j: nat, kv: string, rules: RuleMap)
    requires sc.Object? && j < |sc.props|
  {
    forall m :: Derives(rules, kv, m) <==> Member(T, Emits(rules), sc, j, m)
  }

  /** A member means the same in a larger grammar. */
  lemma MemberLater(T: Builtins, sc: Schema, j: nat, older: RuleMap, newer: RuleMap, st: Names)
    requires sc.Object? && j < |sc.props| && KindsIn(T, sc.props[j].schema, st.present)
    requires Inv(T, older, st) && Extends(newer, older)
    ensures forall m :: Member(T, Emits(older), sc, j, m) <==> Member(T, Emits(newer), sc, j, m)
  {
    ValidLater(T, sc.props[j].schema, older, newer, st);
  }

  lemma PropsGrow(T: Builtins, sc: Schema, kvs: seq<string>, older: RuleMap, newer: RuleMap, st: Names, st': Names)
    requires sc.Object? && Inv(T, older, st) && Extends(newer, older) && PropsMean(T, sc, kvs, older, st.present)
    requires st.present <= st'.present
    ensures PropsMean(T, sc, kvs, newer, st'.present)
  {
    forall j | 0 <= j < |kvs| ensures PropThere(T, sc, j, kvs[j], newer, st'.present) {
      assert PropThere(T, sc, j, kvs[j], older, st.present);
      PropGrows(T, sc, j, kvs[j], older, newer, st);
      KindsMore(T, sc.props[j].schema, st.present, st'.present);
    }
  }

  lemma PropGrows(T: Builtins, sc: Schema, j: nat, kv: string, older: RuleMap, newer: RuleMap, st: Names)
    requires sc.Object? && j < |sc.props| && PropThere(T, sc, j, kv, older, st.present)
    requires Inv(T, older, st) && Extends(newer, older)
    ensures PropMeans(T, sc, j, kv, newer)
  {
    Keeps(older, newer, kv);
    MemberLater(T, sc, j, older, newer, st);
    forall m ensures Derives(newer, kv, m) <==> Member(T, Emits(newer), sc, j, m) {
      assert Derives(older, kv, m) <==> Member(T, Emits(older), sc, j, m);
    }
  }

  lemma PropsAreKvs(T: Builtins, sc: Schema, kvs: seq<string>, rules: RuleMap, P: set<string>)
    requires sc.Object? && |kvs| == |sc.props| && PropsMean(T, sc, kvs, rules, P)
    ensures KvsMean(T, sc, kvs, Lang(rules)) && NamesIn(kvs, rules.Keys)
  {
    forall j | 0 <= j < |kvs| ensures kvs[j] in rules && PropMeans(T, sc, j, kvs[j], rules) {
      assert PropThere(T, sc, j, kvs[j], rules, P);
    }
    forall j, m | 0 <= j < |kvs| ensures (kvs[j], m) in Lang(rules) <==> Member(T, Emits(rules), sc, j, m) {
      assert PropMeans(T, sc, j, kvs[j], rules);
      assert Derives(rules, kvs[j], m) <==> Member(T, Emits(rules), sc, j, m);
    }
  }

  lemma MemberRule(T: Builtins, sc: Schema, j: nat, value: string, rules: RuleMap) returns (alts: seq<Body>)
    requires sc.Object? && j < |sc.props| && Sound(T, rules) && value in rules
             && KeyMeans(T, sc.props[j].schema, value, rules)
    ensures alts == [Body(MemberSyms(sc.props[j].name, value))] && OkAlts(alts) && AltsRefsIn(alts, rules.Keys)
    ensures ShowAlts(alts) == [TLit(Quoted(sc.props[j].name)), TRef("space"), TLit(":"), TRef("space"), TRef(value)]
    ensures forall m :: MatchesAlts(alts, m, Lang(rules)) <==> Member(T, Emits(rules), sc, j, m)
  {
    var name, I := sc.props[j].name, Lang(rules);
    var xs := MemberSyms(name, value);
    alts := [Body(xs)];
    MemberText(name, value);
    BlankEverywhere(T, rules);
    forall m ensures MatchesAlts(alts, m, I) <==> Member(T, Emits(rules), sc, j, m) {
      MatchesAltsOne(xs, m, I);
      MemberMeans(T, name, value, m, I);
      forall c: nat | c <= |m| ensures (value, m[c..]) in I <==> Valid(T, Emits(rules), sc.props[j].schema, m[c..]) {
        assert Derives(rules, value, m[c..]) <==> Valid(T, Emits(rules), sc.props[j].schema, m[c..]);
      }
    }
  }

  lemma MemberText(name: string, value: string)
    ensures ShowSyms(MemberSyms(name, value)) ==
            [TLit(Quoted(name)), TRef("space"), TLit(":"), TRef("space"), TRef(value)]
  {
    var a, b := [Lit(Quoted(name)), SP], [Lit(":"), SP];
    ShowTwo(a[0], SP);
    ShowTwo(b[0], SP);
    ShowOne(Ref(value));
    ShowSymsConcat(a, b);
    ShowSymsConcat(a + b, [Ref(value)]);
    assert a + b + [Ref(value)] == MemberSyms(name, value);
  }

  lemma PropsStep(T: Builtins, sc: Schema, kvs: seq<string>, kv: string, kvNames: map<string, string>,
                  older: RuleMap, newer: RuleMap, st: Names, st': Names)
    requires sc.Object? && |kvs| < |sc.props| && Supported(T, sc) && Inv(T, older, st) && Extends(newer, older)
    requires PropsMean(T, sc, kvs, older, st.present) && NamesTo(sc, kvs, kvNames) && st.present <= st'.present
    requires PropThere(T, sc, |kvs|, kv, newer, st'.present)
    ensures PropsMean(T, sc, kvs + [kv], newer, st'.present)
    ensures NamesTo(sc, kvs + [kv], kvNames[sc.props[|kvs|].name := kv])
  {
    PropsGrow(T, sc, kvs, older, newer, st, st');
    var all := kvs + [kv];
    forall j | 0 <= j < |all| ensures PropThere(T, sc, j, all[j], newer, st'.present) {
      if j < |kvs| { assert PropThere(T, sc, j, kvs[j], newer, st'.present); }
    }
  }

  lemma NamesStep(sc: Schema, req: seq<string>, opt: seq<string>, i: nat)
    requires sc.Object? && i < |sc.props|
    ensures req + RequiredNames(sc, i) ==
            (if sc.props[i].name in sc.required then req + [sc.props[i].name] else req) + RequiredNames(sc, i + 1)
    ensures opt + OptionalNames(sc, i) ==
            (if sc.props[i].name in sc.required then opt else opt + [sc.props[i].name]) + OptionalNames(sc, i + 1)
  {
  }

  lemma NamesEnd(sc: Schema, req: seq<string>, opt: seq<string>)
    requires sc.Object?
    ensures req + RequiredNames(sc, |sc.props|) == req && opt + OptionalNames(sc, |sc.props|) == opt
  {
  }

  /** The rule of `_not_strings`; only `char` and `space` matter for its meaning. */
  lemma OtherKeyRule(T: Builtins, names: seq<string>, alts: seq<Body>, rules: RuleMap, st: Names)
    requires names != [] && Inv(T, rules, st) && "char" in rules && "char" in T.rules
    requires AltsRefsIn(alts, {"char", "space"})
    requires forall s, I :: MatchesAlts(alts, s, I) <==> TextPasses(names, s, "char", I)
    ensures AltsRefsIn(alts, rules.Keys)
    ensures forall k :: MatchesAlts(alts, k, Lang(rules)) <==> OtherKey(T, Emitted, names, k)
  {
    RefsWiden(alts, {"char", "space"}, rules.Keys);
    KeysEverywhere(T, rules, st);
    assert "char" in KEY_RULES && "space" in KEY_RULES;
    forall k ensures MatchesAlts(alts, k, Lang(rules)) <==> OtherKey(T, Emitted, names, k) {
      AltsSameUnder(alts, k, Lang(rules), Builtin(T), {"char", "space"});
    }
  }

  ghost predicate MoreValueMeans(T: Table, sc: Schema, value: string, rules: RuleMap)
    requires sc.Object?
  {
    forall v :: Derives(rules, value, v) <==>
      match sc.additional
      case NoMore => false
      case AnyMore => ("value", v) in Lang(rules)
      case MoreOf(more) => Valid(T, Emits(rules), more, v)
  }

  ghost predicate MoreKinds(T: Table, sc: Schema, P: set<string>)
    requires sc.Object?
  {
    (sc.additional.MoreOf? ==> KindsIn(T, sc.additional.schema, P)) && (sc.additional.AnyMore? ==> "value" in P)
  }

  lemma MoreValueLater(T: Builtins, sc: Schema, value: string, older: RuleMap, newer: RuleMap, st: Names)
    requires sc.Object? && Inv(T, older, st) && Extends(newer, older) && value in older && MoreKinds(T, sc, st.present)
    requires MoreValueMeans(T, sc, value, older)
    ensures MoreValueMeans(T, sc, value, newer)
  {
    Keeps(older, newer, value);
    if sc.additional.MoreOf? { ValidLater(T, sc.additional.schema, older, newer, st); }
    if sc.additional.AnyMore? { Keeps(older, newer, "value"); }
    forall v
      ensures Derives(newer, value, v) <==>
        match sc.additional
        case NoMore => false
        case AnyMore => ("value", v) in Lang(newer)
        case MoreOf(more) => Valid(T, Emits(newer), more, v)
    {
      assert Derives(older, value, v) <==> Derives(newer, value, v);
      if sc.additional.AnyMore? { assert Derives(older, "value", v) <==> Derives(newer, "value", v); }
    }
  }

  lemma AdditionalRule(T: Builtins, sc: Schema, key: string, value: string, rules: RuleMap) returns (alts: seq<Body>)
    requires sc.Object? && Sound(T, rules) && value in rules && key in rules && MoreValueMeans(T, sc, value, rules)
    requires forall k :: Derives(rules, key, k) <==> OtherKey(T, Emitted, PropNames(sc.props), k)
    ensures OkAlts(alts) && AltsRefsIn(alts, rules.Keys)
    ensures ShowAlts(alts) == [TRef(key), TLit(":"), TRef("space"), TRef(value)]
    ensures forall m :: MatchesAlts(alts, m, Lang(rules)) <==> AdditionalMember(T, Emits(rules), sc, m)
  {
    var I := Lang(rules);
    var xs := AdditionalSyms(key, value);
    alts := [Body(xs)];
    AdditionalText(key, value);
    BlankEverywhere(T, rules);
    forall m ensures MatchesAlts(alts, m, I) <==> AdditionalMember(T, Emitting(I), sc, m) {
      MatchesAltsOne(xs, m, I);
      AdditionalMeans(T, key, value, m, I);
      AdditionalPoint(T, sc, key, value, m, rules);
    }
  }

  lemma AdditionalPoint(T: Builtins, sc: Schema, key: string, value: string, m: string, rules: RuleMap)
    requires sc.Object? && MoreValueMeans(T, sc, value, rules)
    requires forall k :: Derives(rules, key, k) <==> OtherKey(T, Emitted, PropNames(sc.props), k)
    ensures AdditionalMember(T, Emits(rules), sc, m) <==>
            exists b: nat, c: nat :: ColonValue(T, m, b, c, value, Lang(rules)) && (key, m[..b]) in Lang(rules)
  {
    var I := Lang(rules);
    forall b: nat, c: nat | b < c <= |m|
      ensures (key, m[..b]) in I <==> OtherKey(T, Emitted, PropNames(sc.props), m[..b])
      ensures (value, m[c..]) in I <==>
              match sc.additional
              case NoMore => false
              case AnyMore => ("value", m[c..]) in Lang(rules)
              case MoreOf(more) => Valid(T, Emits(rules), more, m[c..])
    {
      assert Derives(rules, key, m[..b]) <==> OtherKey(T, Emitted, PropNames(sc.props), m[..b]);
      assert Derives(rules, value, m[c..]) <==> (value, m[c..]) in I;
    }
    if b: nat, c: nat :| ColonValue(T, m, b, c, value, I) && (key, m[..b]) in I {
      assert b < c <= |m| && OtherKey(T, Emitted, PropNames(sc.props), m[..b]) && m[b] == ':' && Blank(T, m[b + 1..c]);
    }
    if AdditionalMember(T, Emits(rules), sc, m) {
      var b: nat, c: nat :| b < c <= |m| && OtherKey(T, Emitted, PropNames(sc.props), m[..b]) && m[b] == ':'
          && Blank(T, m[b + 1..c]) &&
        match sc.additional
        case NoMore => false
        case AnyMore => ("value", m[c..]) in Lang(rules)
        case MoreOf(more) => Valid(T, Emits(rules), more, m[c..]);
      assert ColonValue(T, m, b, c, value, I);
    }
  }

  lemma AdditionalText(key: string, value: string)
    ensures ShowSyms(AdditionalSyms(key, value)) == [TRef(key), TLit(":"), TRef("space"), TRef(value)]
  {
    var a, b := [Ref(key), Lit(":")], [SP, Ref(value)];
    ShowTwo(a[0], a[1]);
    ShowTwo(SP, Ref(value));
    ShowSymsConcat(a, b);
    assert a + b == AdditionalSyms(key, value);
  }

  /** What the references written for the optional names accept. */
  ghost predicate RefsMeanMembers(kvs: seq<string>, star: bool, firstIsOptional: bool, xs: seq<Sym>, I: Interp)
    requires kvs != []
  {
    forall s :: MatchesSyms(xs, s, I) <==>
        if firstIsOptional then OptTail(kvs, star, s, I) else OptHead(kvs, star, s, I)
  }

  lemma OneBody(xs: seq<Sym>, N: set<string>)
    requires OkSyms(xs) && SymsRefsIn(xs, N)
    ensures OkAlts([Body(xs)]) && AltsRefsIn([Body(xs)], N) && ShowAlts([Body(xs)]) == ShowSyms(xs)
  {
  }

  lemma KvsTail(ks: seq<string>, kvNames: map<string, string>, rules: RuleMap)
    requires |ks| > 1 && StarLast(ks) && KvsThere(ks, kvNames, rules)
    ensures StarLast(ks[1..]) && KvsThere(ks[1..], kvNames, rules)
    ensures HasStar(ks[1..]) == HasStar(ks) && ks[0] != "*"
    ensures KvsOf(ks, kvNames)[1..] == KvsOf(ks[1..], kvNames)
  {
  }

  /** The rest rule derives what may follow, also in the final rules. */
  lemma RestMeans(T: Builtins, ks: seq<string>, kvNames: map<string, string>, restXs: seq<Sym>, rest: string,
                  start: RuleMap, before: RuleMap, rules: RuleMap)
    requires |ks| > 1 && StarLast(ks) && KvsThere(ks, kvNames, start)
    requires Sound(T, before) && Sound(T, rules) && Extends(before, start) && Extends(rules, before)
    requires RefsMeanMembers(KvsOf(ks[1..], kvNames), HasStar(ks[1..]), true, restXs, Lang(before))
    requires forall s :: Derives(rules, rest, s) <==> MatchesAlts([Body(restXs)], s, Lang(before))
    ensures forall v :: (rest, v) in Lang(rules) <==> OptTail(KvsOf(ks, kvNames)[1..], HasStar(ks), v, Lang(rules))
  {
    KvsTail(ks, kvNames, start);
    BlankEverywhere(T, before);
    BlankEverywhere(T, rules);
    LangStable(before, rules);
    var kvs := KvsOf(ks[1..], kvNames);
    forall v ensures (rest, v) in Lang(rules) <==> OptTail(kvs, HasStar(ks), v, Lang(rules)) {
      assert Derives(rules, rest, v) <==> MatchesAlts([Body(restXs)], v, Lang(before));
      MatchesAltsOne(restXs, v, Lang(before));
      OptTailAgree(T, kvs, HasStar(ks), v, Lang(before), Lang(rules), before.Keys);
    }
  }

  lemma CommaRefText(kv: string, N: set<string>)
    requires kv in N && "space" in N
    ensures Show(CommaRef(kv)) == [TOpen, TLit(","), TRef("space"), TRef(kv), TClose]
    ensures Ok(CommaRef(kv)) && RefsIn(CommaRef(kv), N)
  {
    var body := COMMA + [Ref(kv)];
    ShowTwo(Lit(","), SP);
    ShowOne(Ref(kv));
    ShowSymsConcat(COMMA, [Ref(kv)]);
    OneBody(body, N);
    assert Show(CommaRef(kv)) == [TOpen] + ([TLit(","), TRef("space")] + [TRef(kv)]) + [TClose];
  }

  /** Symbols for more than one name. */
  lemma MoreNames(T: Builtins, ks: seq<string>, kvNames: map<string, string>, firstIsOptional: bool, rest: string,
                  rules: RuleMap) returns (xs: seq<Sym>)
    requires |ks| > 1 && StarLast(ks) && KvsThere(ks, kvNames, rules) && Sound(T, rules) && rest in rules
    requires forall v :: (rest, v) in Lang(rules) <==> OptTail(KvsOf(ks, kvNames)[1..], HasStar(ks), v, Lang(rules))
    ensures OkSyms(xs) && SymsRefsIn(xs, rules.Keys)
    ensures var kv := kvNames[ks[0]];
            ShowSyms(xs) == (if firstIsOptional then [TOpen, TLit(","), TRef("space"), TRef(kv), TClose] + [OPT]
                else [TRef(kv)])
                            + [TRef(rest)]
    ensures RefsMeanMembers(KvsOf(ks, kvNames), HasStar(ks), firstIsOptional, xs, Lang(rules))
  {
    var kvs, star, I := KvsOf(ks, kvNames), HasStar(ks), Lang(rules);
    var kv := kvs[0];
    CommaRefText(kv, rules.Keys);
    if firstIsOptional {
      xs := [Opt(CommaRef(kv)), Ref(rest)];
      ShowTwo(Opt(CommaRef(kv)), Ref(rest));
      forall s ensures MatchesSyms(xs, s, I) <==> OptTail(kvs, star, s, I) { OptionalThenRest(kvs, star, rest, s, I); }
    } else {
      xs := [Ref(kv), Ref(rest)];
      ShowTwo(Ref(kv), Ref(rest));
      forall s ensures MatchesSyms(xs, s, I) <==> OptHead(kvs, star, s, I) { FirstThenRest(kvs, star, rest, s, I); }
    }
  }

  /** Symbols for a single name. */
  lemma LastName(T: Builtins, ks: seq<string>, kvNames: map<string, string>, firstIsOptional: bool, rules: RuleMap)
    returns (xs: seq<Sym>)
    requires |ks| == 1 && KvsThere(ks, kvNames, rules) && Sound(T, rules)
    ensures OkSyms(xs) && SymsRefsIn(xs, rules.Keys)
    ensures var kv := kvNames[ks[0]];
            var comma := [TOpen, TLit(","), TRef("space"), TRef(kv), TClose];
            ShowSyms(xs) == if firstIsOptional then comma + (if ks[0] == "*" then [STAR] else [OPT])
                            else [TRef(kv)] + (if ks[0] == "*" then comma + [STAR] else [])
    ensures RefsMeanMembers(KvsOf(ks, kvNames), HasStar(ks), firstIsOptional, xs, Lang(rules))
  {
    var kv, star, I := kvNames[ks[0]], HasStar(ks), Lang(rules);
    assert KvsOf(ks, kvNames) == [kv];
    CommaRefText(kv, rules.Keys);
    if firstIsOptional {
      var x := if star then Star(CommaRef(kv)) else Opt(CommaRef(kv));
      xs := [x];
      ShowOne(x);
      forall s ensures MatchesSyms(xs, s, I) <==> OptTail([kv], star, s, I) { LastOptional(kv, star, s, I); }
    } else {
      xs := if star then [Ref(kv), Star(CommaRef(kv))] else [Ref(kv)];
      ShowOne(Ref(kv));
      ShowTwo(Ref(kv), Star(CommaRef(kv)));
      forall s ensures MatchesSyms(xs, s, I) <==> OptHead([kv], star, s, I) { LastFirst(kv, star, s, I); }
    }
  }

  // ---------------------------------------------------------------------------------------------
  // The alternatives for the optional members
  // ---------------------------------------------------------------------------------------------

  ghost predicate AlternativesMean(opt: seq<string>, kvNames: map<string, string>, n: nat, res: seq<Tok>,
                                   alts: seq<Body>, rules: RuleMap)
  {
    && n <= |opt| && KvsThere(opt, kvNames, rules) && (n == 0 <==> alts == [])
    && res == ShowAlts(alts) && (alts != [] ==> OkAlts(alts)) && AltsRefsIn(alts, rules.Keys)
    && forall s :: MatchesAlts(alts, s, Lang(rules)) <==>
        HeadsUpTo(KvsOf(opt, kvNames), HasStar(opt), n, s, Lang(rules))
  }

  lemma KvsSuffix(opt: seq<string>, i: nat, kvNames: map<string, string>, rules: RuleMap)
    requires i < |opt| && StarLast(opt) && KvsThere(opt, kvNames, rules)
    ensures opt[i..] != [] && StarLast(opt[i..]) && KvsThere(opt[i..], kvNames, rules)
            && HasStar(opt[i..]) == HasStar(opt)
    ensures KvsOf(opt[i..], kvNames) == KvsOf(opt, kvNames)[i..]
  {
  }

  lemma OneMoreAlternative(T: Builtins, opt: seq<string>, kvNames: map<string, string>, i: nat, was: seq<Tok>,
                           alts: seq<Body>,
                           one: seq<Tok>, xs: seq<Sym>, older: RuleMap, newer: RuleMap) returns (more: seq<Body>)
    requires i < |opt| && StarLast(opt) && AlternativesMean(opt, kvNames, i, was, alts, older)
    requires Sound(T, older) && Sound(T, newer) && Extends(newer, older) && KvsThere(opt[i..], kvNames, older)
    requires one == ShowSyms(xs) && OkSyms(xs) && SymsRefsIn(xs, newer.Keys)
    requires RefsMeanMembers(KvsOf(opt[i..], kvNames), HasStar(opt[i..]), false, xs, Lang(newer))
    ensures AlternativesMean(opt, kvNames, i + 1, (if i > 0 then was + [TBar] else was) + one, more, newer)
  {
    KvsSuffix(opt, i, kvNames, older);
    more := alts + [Body(xs)];
    MoreText(alts, xs, older.Keys, newer.Keys);
    var kvs, star := KvsOf(opt, kvNames), HasStar(opt);
    forall s ensures MatchesAlts(more, s, Lang(newer)) <==> HeadsUpTo(kvs, star, i + 1, s, Lang(newer)) {
      assert MatchesAlts(alts, s, Lang(older)) <==> HeadsUpTo(kvs, star, i, s, Lang(older));
      MoreMatches(T, kvs, star, i, alts, xs, s, older, newer);
    }
  }

  lemma MoreText(alts: seq<Body>, xs: seq<Sym>, N: set<string>, M: set<string>)
    requires (alts != [] ==> OkAlts(alts)) && AltsRefsIn(alts, N) && N <= M && OkSyms(xs) && SymsRefsIn(xs, M)
    ensures OkAlts(alts + [Body(xs)]) && AltsRefsIn(alts + [Body(xs)], M)
    ensures ShowAlts(alts + [Body(xs)]) == (if alts == [] then [] else ShowAlts(alts) + [TBar]) + ShowSyms(xs)
  {
    RefsWiden(alts, N, M);
    OneBody(xs, M);
    if alts != [] {
      ShowAltsConcat(alts, [Body(xs)]);
    } else {
      assert alts + [Body(xs)] == [Body(xs)];
    }
  }

  lemma MoreMatches(T: Builtins, kvs: seq<string>, star: bool, i: nat, alts: seq<Body>, xs: seq<Sym>, s: string,
                    older: RuleMap, newer: RuleMap)
    requires Sound(T, older) && Sound(T, newer) && Extends(newer, older) && AltsRefsIn(alts, older.Keys)
    requires i < |kvs| && NamesIn(kvs, older.Keys)
    requires MatchesAlts(alts, s, Lang(older)) <==> HeadsUpTo(kvs, star, i, s, Lang(older))
    requires MatchesSyms(xs, s, Lang(newer)) <==> OptHead(kvs[i..], star, s, Lang(newer))
    ensures MatchesAlts(alts + [Body(xs)], s, Lang(newer)) <==> HeadsUpTo(kvs, star, i + 1, s, Lang(newer))
  {
    AlternativesStable(T, kvs, star, i, alts, s, older, newer);
    MatchesAltsConcat(alts, [Body(xs)], s, Lang(newer));
    MatchesAltsOne(xs, s, Lang(newer));
  }

  /** What the alternatives so far accept does not change when rules are added. */
  lemma AlternativesStable(T: Builtins, kvs: seq<string>, star: bool, i: nat, alts: seq<Body>, s: string,
                           older: RuleMap, newer: RuleMap)
    requires Sound(T, older) && Sound(T, newer) && Extends(newer, older) && AltsRefsIn(alts, older.Keys)
    requires i <= |kvs| && NamesIn(kvs, older.Keys)
    ensures MatchesAlts(alts, s, Lang(older)) <==> MatchesAlts(alts, s, Lang(newer))
    ensures HeadsUpTo(kvs, star, i, s, Lang(older)) <==> HeadsUpTo(kvs, star, i, s, Lang(newer))
  {
    LangStable(older, newer);
    BlankEverywhere(T, older);
    BlankEverywhere(T, newer);
    if MatchesAlts(alts, s, Lang(older)) { AltsAgree(alts, s, Lang(older), Lang(newer), older.Keys); }
    if MatchesAlts(alts, s, Lang(newer)) { AltsAgree(alts, s, Lang(newer), Lang(older), older.Keys); }
    HeadsAgree(T, kvs, star, i, s, Lang(older), Lang(newer), older.Keys);
  }

  lemma AllAlternatives(opt: seq<string>, kvNames: map<string, string>, alts: seq<Body>, rules: RuleMap)
    requires opt != [] && AlternativesMean(opt, kvNames, |opt|, ShowAlts(alts), alts, rules)
    ensures forall s :: MatchesAlts(alts, s, Lang(rules)) <==>
            SomePicked(KvsOf(opt, kvNames), HasStar(opt), s, Lang(rules))
  {
    forall s ensures MatchesAlts(alts, s, Lang(rules)) <==>
        SomePicked(KvsOf(opt, kvNames), HasStar(opt), s, Lang(rules)) {
      SomePickedByHead(KvsOf(opt, kvNames), HasStar(opt), s, Lang(rules));
    }
  }

  // ---------------------------------------------------------------------------------------------
  // The whole object rule
  // ---------------------------------------------------------------------------------------------

  function AllOptional(sc: Schema): seq<string>
    requires sc.Object?
  {
    OptionalNames(sc, 0) + (if sc.additional.NoMore? then [] else ["*"])
  }

  /** What is known of the names once all members have their rules. */
  ghost predicate ObjectKvs(T: Table, sc: Schema, kvs: seq<string>, kvNames: map<string, string>, more: seq<string>,
                            rules: RuleMap)
    requires sc.Object?
  {
    var req, opt := RequiredNames(sc, 0), AllOptional(sc);
    && |kvs| == |sc.props| && KvsThere(req, kvNames, rules) && KvsThere(opt, kvNames, rules)
    && NamesIn(kvs, rules.Keys) && NamesIn(more, rules.Keys) && StarLast(opt) && HasStar(opt) == (more != [])
    && KvsOf(req, kvNames) == RequiredKvs(sc, kvs, 0) && KvsOf(opt, kvNames) == OptionalKvs(sc, kvs, 0, more)
    && KvsMean(T, sc, kvs, Lang(rules)) && MoreMeans(T, sc, more, Lang(rules))
  }

  lemma {:induction false} NoStarNames(T: Table, sc: Schema, i: nat)
    requires sc.Object? && Supported(T, sc) && i <= |sc.props|
    ensures "*" !in OptionalNames(sc, i)
    ensures forall k :: k in RequiredNames(sc, i) || k in OptionalNames(sc, i) ==>
            exists j :: 0 <= j < |sc.props| && sc.props[j].name == k
    decreases |sc.props| - i
  {
    if i < |sc.props| { NoStarNames(T, sc, i + 1); }
  }

  lemma ObjectNames(T: Builtins, sc: Schema, kvs: seq<string>, kvNames: map<string, string>, more: seq<string>,
                    older: RuleMap, rules: RuleMap, st: Names)
    requires sc.Object? && Supported(T, sc) && Inv(T, older, st) && Sound(T, rules) && Extends(rules, older)
    requires |kvs| == |sc.props| && PropsMean(T, sc, kvs, older, st.present) && NamesTo(sc, kvs, kvNames)
    requires MoreNamed(sc, kvNames, more, rules)
    requires more != [] ==> forall m :: Derives(rules, more[0], m) <==> AdditionalMember(T, Emits(rules), sc, m)
    ensures ObjectKvs(T, sc, kvs, kvNames, more, rules)
  {
    PropsGrow(T, sc, kvs, older, rules, st, st);
    PropsAreKvs(T, sc, kvs, rules, st.present);
    MoreIs(T, sc, more, rules);
    NamesThere(T, sc, kvs, kvNames, rules);
    OptionalThere(T, sc, kvs, kvNames, more, rules);
  }

  /** "*" is a name exactly if additional members are allowed. */
  predicate MoreNamed(sc: Schema, kvNames: map<string, string>, more: seq<string>, rules: RuleMap)
    requires sc.Object?
  {
    if sc.additional.NoMore? then more == []
    else |more| == 1 && "*" in kvNames && kvNames["*"] == more[0] && more[0] in rules
  }

  lemma NamesThere(T: Builtins, sc: Schema, kvs: seq<string>, kvNames: map<string, string>, rules: RuleMap)
    requires sc.Object? && Supported(T, sc) && |kvs| == |sc.props| && NamesTo(sc, kvs, kvNames)
             && NamesIn(kvs, rules.Keys)
    ensures KvsThere(RequiredNames(sc, 0), kvNames, rules) && KvsThere(OptionalNames(sc, 0), kvNames, rules)
    ensures KvsOf(RequiredNames(sc, 0), kvNames) == RequiredKvs(sc, kvs, 0)
    ensures KvsOf(OptionalNames(sc, 0), kvNames) == OptionalKvs(sc, kvs, 0, [])
  {
    NoStarNames(T, sc, 0);
    KvsOfNames(sc, kvs, kvNames, 0);
    forall k | k in RequiredNames(sc, 0) || k in OptionalNames(sc, 0) ensures k in kvNames && kvNames[k] in rules {
      var j :| 0 <= j < |sc.props| && sc.props[j].name == k;
      assert kvNames[k] == kvs[j];
    }
  }

  lemma OptionalThere(T: Builtins, sc: Schema, kvs: seq<string>, kvNames: map<string, string>, more: seq<string>,
                      rules: RuleMap)
    requires sc.Object? && Supported(T, sc) && |kvs| == |sc.props| && MoreNamed(sc, kvNames, more, rules)
    requires KvsThere(OptionalNames(sc, 0), kvNames, rules)
    requires KvsOf(OptionalNames(sc, 0), kvNames) == OptionalKvs(sc, kvs, 0, [])
    ensures KvsThere(AllOptional(sc), kvNames, rules) && StarLast(AllOptional(sc))
            && HasStar(AllOptional(sc)) == (more != [])
    ensures KvsOf(AllOptional(sc), kvNames) == OptionalKvs(sc, kvs, 0, more)
  {
    NoStarNames(T, sc, 0);
    OptionalKvsMore(sc, kvs, 0, more);
    StarBehind(OptionalNames(sc, 0), if sc.additional.NoMore? then [] else ["*"], kvNames, rules);
  }

  lemma StarBehind(names: seq<string>, star: seq<string>, kvNames: map<string, string>, rules: RuleMap)
    requires "*" !in names && star <= ["*"] && KvsThere(names, kvNames, rules) && KvsThere(star, kvNames, rules)
    ensures KvsThere(names + star, kvNames, rules) && StarLast(names + star)
            && HasStar(names + star) == (star != [])
    ensures KvsOf(names + star, kvNames) == KvsOf(names, kvNames) + KvsOf(star, kvNames)
  {
    KvsOfConcat(names, star, kvNames);
  }

  lemma NamesToStar(T: Builtins, sc: Schema, kvs: seq<string>, kvNames: map<string, string>, kv: string)
    requires sc.Object? && Supported(T, sc) && NamesTo(sc, kvs, kvNames) && !sc.additional.NoMore?
    ensures NamesTo(sc, kvs, kvNames["*" := kv])
  {
    forall j | 0 <= j < |sc.props| ensures sc.props[j].name != "*" { assert GoodName(sc, sc.props[j].name); }
  }

  lemma MoreIs(T: Builtins, sc: Schema, more: seq<string>, rules: RuleMap)
    requires sc.Object? && (sc.additional.NoMore? <==> more == []) && |more| <= 1
    requires more != [] ==> forall m :: Derives(rules, more[0], m) <==> AdditionalMember(T, Emits(rules), sc, m)
    ensures MoreMeans(T, sc, more, Lang(rules))
  {
    if more != [] {
      forall m ensures (more[0], m) in Lang(rules) <==> AdditionalMember(T, Emits(rules), sc, m) {
        assert Derives(rules, more[0], m) <==> AdditionalMember(T, Emits(rules), sc, m);
      }
    }
  }

  lemma KvsOfConcat(a: seq<string>, b: seq<string>, kvNames: map<string, string>)
    requires (forall i :: 0 <= i < |a| ==> a[i] in kvNames) && forall i :: 0 <= i < |b| ==> b[i] in kvNames
    ensures forall i :: 0 <= i < |a + b| ==> (a + b)[i] in kvNames
    ensures KvsOf(a + b, kvNames) == KvsOf(a, kvNames) + KvsOf(b, kvNames)
  {
  }

  lemma KvsNamesIn(ks: seq<string>, kvNames: map<string, string>, rules: RuleMap)
    requires KvsThere(ks, kvNames, rules)
    ensures NamesIn(KvsOf(ks, kvNames), rules.Keys)
  {
  }

  /** An object without optional or additional members. */
  lemma ObjectWithoutOptional(T: Builtins, sc: Schema, kvs: seq<string>, kvNames: map<string, string>,
                              more: seq<string>, rules: RuleMap)
    returns (xs: seq<Sym>)
    requires sc.Object? && Sound(T, rules) && ObjectKvs(T, sc, kvs, kvNames, more, rules) && AllOptional(sc) == []
    ensures OkSyms(xs) && SymsRefsIn(xs, rules.Keys)
    ensures ShowSyms(xs) == [TLit(['{']), TRef("space")] + ShowSyms(RefList(KvsOf(RequiredNames(sc, 0), kvNames)))
                            + [TLit(['}']), TRef("space")]
    ensures forall s :: MatchesSyms(xs, s, Lang(rules)) <==> Valid(T, Emits(rules), sc, s)
  {
    var req, I := KvsOf(RequiredNames(sc, 0), kvNames), Lang(rules);
    var ys := RefList(req);
    RefListOk(req, rules.Keys);
    BlankEverywhere(T, rules);
    xs := Bracketed('{', '}', ys);
    BracketedText('{', '}', ys);
    BracketedRefs('{', '}', ys, rules.Keys);
    forall s ensures MatchesSyms(xs, s, I) <==> Valid(T, Emits(rules), sc, s) {
      forall t ensures MatchesSyms(ys, t, I) <==> ObjectMembers(T, Emitting(I), sc, t) {
        InnerNoOptional(req, t, I);
        InnerIsMembers(T, sc, kvs, more, t, I);
      }
      BracesMean(T, sc, ys, s, I);
    }
  }

  lemma BracesMean(T: Builtins, sc: Schema, ys: seq<Sym>, s: string, I: Interp)
    requires sc.Object? && SpaceOk(T, I) && forall t :: MatchesSyms(ys, t, I) <==> ObjectMembers(T, Emitting(I), sc, t)
    ensures MatchesSyms(Bracketed('{', '}', ys), s, I) <==> Valid(T, Emitting(I), sc, s)
  {
    var Q := MembersOf(T, I, sc);
    forall t ensures MatchesSyms(ys, t, I) <==> Q(t) { }
    BracesAround(T, ys, Q, s, I);
    ValidObject(T, I, sc, s);
  }

  ghost function MembersOf(T: Table, I: Interp, sc: Schema): string -> bool
    requires sc.Object?
  {
    t => ObjectMembers(T, Emitting(I), sc, t)
  }

  ghost predicate Encloses(T: Table, Q: string -> bool, s: string, i: nat, j: nat) {
    Enclosed(T, '{', '}', s, i, j) && Q(s[i..j])
  }

  lemma BracesAround(T: Builtins, ys: seq<Sym>, Q: string -> bool, s: string, I: Interp)
    requires SpaceOk(T, I) && forall t :: MatchesSyms(ys, t, I) <==> Q(t)
    ensures MatchesSyms(Bracketed('{', '}', ys), s, I) <==> exists i: nat, j: nat :: Encloses(T, Q, s, i, j)
  {
    SymsBetween(T, ys, s, I);
    SameBetween(T, TextsOf(ys, I), Q, s);
  }

  ghost function TextsOf(ys: seq<Sym>, I: Interp): string -> bool { t => MatchesSyms(ys, t, I) }

  lemma SymsBetween(T: Builtins, ys: seq<Sym>, s: string, I: Interp)
    requires SpaceOk(T, I)
    ensures MatchesSyms(Bracketed('{', '}', ys), s, I) <==>
            exists i: nat, j: nat :: Encloses(T, TextsOf(ys, I), s, i, j)
  {
    BracketedMeans(T, '{', '}', ys, s, I);
    if i: nat, j: nat :| Enclosed(T, '{', '}', s, i, j) && MatchesSyms(ys, s[i..j], I) {
      assert Encloses(T, TextsOf(ys, I), s, i, j);
    }
  }

  lemma SameBetween(T: Builtins, P: string -> bool, Q: string -> bool, s: string)
    requires forall t :: P(t) <==> Q(t)
    ensures (exists i: nat, j: nat :: Encloses(T, P, s, i, j)) <==> (exists i: nat, j: nat :: Encloses(T, Q, s, i, j))
  {
    if i: nat, j: nat :| Encloses(T, P, s, i, j) { assert Encloses(T, Q, s, i, j); }
    if i: nat, j: nat :| Encloses(T, Q, s, i, j) { assert Encloses(T, P, s, i, j); }
  }

  lemma ValidObject(T: Table, I: Interp, sc: Schema, s: string)
    requires sc.Object?
    ensures Valid(T, Emitting(I), sc, s) <==> exists i: nat, j: nat :: Encloses(T, MembersOf(T, I, sc), s, i, j)
  {
    if Valid(T, Emitting(I), sc, s) {
      var i: nat, j: nat :| Enclosed(T, '{', '}', s, i, j) && ObjectMembers(T, Emitting(I), sc, s[i..j]);
      assert Encloses(T, MembersOf(T, I, sc), s, i, j);
    }
    if i: nat, j: nat :| Encloses(T, MembersOf(T, I, sc), s, i, j) {
      assert Enclosed(T, '{', '}', s, i, j) && ObjectMembers(T, Emitting(I), sc, s[i..j]);
    }
  }

  /** An object with optional or additional members. */
  lemma ObjectWithOptional(T: Builtins, sc: Schema, kvs: seq<string>, kvNames: map<string, string>, more: seq<string>,
                           alts: seq<Body>, older: RuleMap, rules: RuleMap, st: Names) returns (xs: seq<Sym>)
    requires sc.Object? && Inv(T, older, st) && KindsIn(T, sc, st.present) && Sound(T, rules) && Extends(rules, older)
    requires ObjectKvs(T, sc, kvs, kvNames, more, older) && OkAlts(alts) && AltsRefsIn(alts, rules.Keys)
    requires forall s :: MatchesAlts(alts, s, Lang(rules)) <==>
                         SomePicked(KvsOf(AllOptional(sc), kvNames), HasStar(AllOptional(sc)), s, Lang(rules))
    ensures OkSyms(xs) && SymsRefsIn(xs, rules.Keys)
    ensures var req := KvsOf(RequiredNames(sc, 0), kvNames);
            ShowSyms(xs) == [TLit(['{']), TRef("space")] + ShowSyms(RefList(req)) + OptionalText(req == [],
                ShowAlts(alts))
                            + [TLit(['}']), TRef("space")]
    ensures forall s :: MatchesSyms(xs, s, Lang(rules)) <==> Valid(T, Emits(rules), sc, s)
  {
    var req := KvsOf(RequiredNames(sc, 0), kvNames);
    var part := OptionalPart(req, alts);
    var ys := RefList(req) + part;
    KvsNamesIn(RequiredNames(sc, 0), kvNames, older);
    xs := Bracketed('{', '}', ys);
    ObjectText(req, alts, rules.Keys);
    forall s ensures MatchesSyms(xs, s, Lang(rules)) <==> Valid(T, Emits(rules), sc, s) {
      ObjectMeans(T, sc, kvs, kvNames, more, alts, s, older, rules, st);
    }
  }

  lemma ObjectText(req: seq<string>, alts: seq<Body>, N: set<string>)
    requires NamesIn(req, N) && OkAlts(alts) && AltsRefsIn(alts, N) && "space" in N
    ensures var xs := Bracketed('{', '}', RefList(req) + OptionalPart(req, alts));
            OkSyms(xs) && SymsRefsIn(xs, N)
            && ShowSyms(xs) == [TLit(['{']), TRef("space")] + ShowSyms(RefList(req)) + OptionalText(req == [],
                ShowAlts(alts))
                               + [TLit(['}']), TRef("space")]
  {
    var part := OptionalPart(req, alts);
    var ys := RefList(req) + part;
    RefListOk(req, N);
    OptionalPartText(req, alts, N);
    ShowSymsConcat(RefList(req), part);
    BracketedText('{', '}', ys);
    BracketedRefs('{', '}', ys, N);
    Regroup([TLit(['{']), TRef("space")], ShowSyms(RefList(req)), ShowSyms(part), [TLit(['}']), TRef("space")]);
  }

  lemma Regroup(a: seq<Tok>, b: seq<Tok>, c: seq<Tok>, d: seq<Tok>)
    ensures a + (b + c) + d == a + b + c + d
  {
  }

  lemma ObjectMeans(T: Builtins, sc: Schema, kvs: seq<string>, kvNames: map<string, string>, more: seq<string>,
                    alts: seq<Body>, s: string, older: RuleMap, rules: RuleMap, st: Names)
    requires sc.Object? && Inv(T, older, st) && KindsIn(T, sc, st.present) && Sound(T, rules) && Extends(rules, older)
    requires ObjectKvs(T, sc, kvs, kvNames, more, older)
    requires forall t :: MatchesAlts(alts, t, Lang(rules)) <==>
                         SomePicked(KvsOf(AllOptional(sc), kvNames), HasStar(AllOptional(sc)), t, Lang(rules))
    ensures var req := KvsOf(RequiredNames(sc, 0), kvNames);
            MatchesSyms(Bracketed('{', '}', RefList(req) + OptionalPart(req, alts)), s, Lang(rules)) <==>
                Valid(T, Emits(rules), sc, s)
  {
    var req, opt, star, I := RequiredKvs(sc, kvs, 0), OptionalKvs(sc, kvs, 0, more), more != [], Lang(rules);
    var part := OptionalPart(req, alts);
    var ys := RefList(req) + part;
    BlankEverywhere(T, rules);
    KvsStable(T, sc, kvs, kvNames, more, older, rules, st);
    forall t ensures MatchesSyms(ys, t, I) <==> ObjectMembers(T, Emitting(I), sc, t) {
      if req == [] {
        assert RefList(req) + part == part;
        InnerNoRequired(opt, star, alts, t, I);
      } else {
        InnerBoth(req, opt, star, alts, t, I);
      }
      InnerIsMembers(T, sc, kvs, more, t, I);
    }
    BracesMean(T, sc, ys, s, I);
  }

  /** The text behind the required members. */
  function OptionalText(noRequired: bool, alternatives: seq<Tok>): seq<Tok> {
    [TOpen] + (if noRequired then [] else [TLit(","), TRef("space"), TOpen]) + alternatives
    + (if noRequired then [] else [TClose]) + [TClose, OPT]
  }

  lemma OptionalPartText(req: seq<string>, alts: seq<Body>, N: set<string>)
    requires OkAlts(alts) && AltsRefsIn(alts, N) && "space" in N
    ensures ShowSyms(OptionalPart(req, alts)) == OptionalText(req == [], ShowAlts(alts))
    ensures OkSyms(OptionalPart(req, alts)) && SymsRefsIn(OptionalPart(req, alts), N)
  {
    var g := Group(alts);
    if req == [] {
      OptionalGroupText(alts, N);
    } else {
      CommaGroupText(g, N);
      OptionalGroupText([Body(COMMA + [g])], N);
    }
  }

  lemma OptionalGroupText(alts: seq<Body>, N: set<string>)
    requires OkAlts(alts) && AltsRefsIn(alts, N)
    ensures ShowSyms([Opt(Group(alts))]) == [TOpen] + ShowAlts(alts) + [TClose, OPT]
    ensures OkSyms([Opt(Group(alts))]) && SymsRefsIn([Opt(Group(alts))], N)
  {
    ShowOne(Opt(Group(alts)));
  }

  lemma CommaGroupText(g: Sym, N: set<string>)
    requires Ok(g) && RefsIn(g, N) && "space" in N
    ensures ShowAlts([Body(COMMA + [g])]) == [TLit(","), TRef("space")] + Show(g)
    ensures OkAlts([Body(COMMA + [g])]) && AltsRefsIn([Body(COMMA + [g])], N)
  {
    var body := COMMA + [g];
    ShowTwo(Lit(","), SP);
    ShowOne(g);
    ShowSymsConcat(COMMA, [g]);
    assert OkSyms(body) && SymsRefsIn(body, N);
    OneBody(body, N);
  }

  lemma KvsStable(T: Builtins, sc: Schema, kvs: seq<string>, kvNames: map<string, string>, more: seq<string>,
                  older: RuleMap, rules: RuleMap, st: Names)
    requires sc.Object? && Inv(T, older, st) && KindsIn(T, sc, st.present) && Extends(rules, older)
    requires ObjectKvs(T, sc, kvs, kvNames, more, older)
    ensures KvsMean(T, sc, kvs, Lang(rules)) && MoreMeans(T, sc, more, Lang(rules))
  {
    forall j, m | 0 <= j < |kvs| ensures (kvs[j], m) in Lang(rules) <==> Member(T, Emits(rules), sc, j, m) {
      KvStable(T, sc, j, kvs, m, older, rules, st);
    }
    if more != [] { MoreStable(T, sc, more, older, rules, st); }
  }

  lemma KvStable(T: Builtins, sc: Schema, j: nat, kvs: seq<string>, m: string, older: RuleMap, rules: RuleMap,
                 st: Names)
    requires sc.Object? && j < |sc.props| && Inv(T, older, st) && KindsIn(T, sc, st.present) && Extends(rules, older)
    requires KvsMean(T, sc, kvs, Lang(older)) && NamesIn(kvs, older.Keys)
    ensures (kvs[j], m) in Lang(rules) <==> Member(T, Emits(rules), sc, j, m)
  {
    LangStable(older, rules);
    MemberLater(T, sc, j, older, rules, st);
    assert (kvs[j], m) in Lang(older) <==> Member(T, Emits(older), sc, j, m);
  }

  lemma MoreStable(T: Builtins, sc: Schema, more: seq<string>, older: RuleMap, rules: RuleMap, st: Names)
    requires sc.Object? && Inv(T, older, st) && KindsIn(T, sc, st.present) && Extends(rules, older)
    requires more != [] && NamesIn(more, older.Keys) && MoreMeans(T, sc, more, Lang(older))
    ensures MoreMeans(T, sc, more, Lang(rules))
  {
    AdditionalLater(T, sc, older, rules, st);
    forall m ensures (more[0], m) in Lang(rules) <==> AdditionalMember(T, Emits(rules), sc, m) {
      DerivedStable(older, rules, more[0], m);
      assert (more[0], m) in Lang(older) <==> AdditionalMember(T, Emits(older), sc, m);
    }
  }

  lemma DerivedStable(older: RuleMap, rules: RuleMap, key: string, s: string)
    requires Closed(older) && Extends(rules, older) && key in older
    ensures (key, s) in Lang(older) <==> (key, s) in Lang(rules)
  {
    LangStable(older, rules);
  }

  lemma AdditionalLater(T: Builtins, sc: Schema, older: RuleMap, rules: RuleMap, st: Names)
    requires sc.Object? && Inv(T, older, st) && MoreKinds(T, sc, st.present) && Extends(rules, older)
    ensures forall m :: AdditionalMember(T, Emits(older), sc, m) <==> AdditionalMember(T, Emits(rules), sc, m)
  {
    if sc.additional.MoreOf? { ValidLater(T, sc.additional.schema, older, rules, st); }
    if sc.additional.AnyMore? { Keeps(older, rules, "value"); }
    forall v | sc.additional.AnyMore? ensures ("value", v) in Lang(older) <==> ("value", v) in Lang(rules) {
      assert Derives(older, "value", v) <==> Derives(rules, "value", v);
    }
  }

  // ---------------------------------------------------------------------------------------------
  // One step of the converter
  // ---------------------------------------------------------------------------------------------

  /** The rule of a schema under a name that is not built in, or under one that is there already. */
  lemma FinishedMeans(T: Builtins, older: RuleMap, newer: RuleMap, st: Names, sc: Schema, k: string, key: string,
                      alts: seq<Body>)
    requires Inv(T, older, st) && KindsIn(T, sc, st.present) && (k in T.rules ==> k in st.present)
    requires newer == older[key := ShowAlts(alts)] && (key in older ==> older[key] == ShowAlts(alts))
    requires key == k || EndsInDigit(key)
    requires OkAlts(alts) && AltsRefsIn(alts, older.Keys)
    requires forall s :: MatchesAlts(alts, s, Lang(older)) <==> Valid(T, Emits(older), sc, s)
    ensures Inv(T, newer, st) && Extends(newer, older) && KeyMeans(T, sc, key, newer)
  {
    assert key in T.rules ==> GoodRule(T, key);
    AddKeepsInv(T, older, newer, st, key, alts);
    ValidLater(T, sc, older, newer, st);
    forall s ensures Derives(newer, key, s) <==> Valid(T, Emits(newer), sc, s) {
      assert Derives(newer, key, s) <==> MatchesAlts(alts, s, Lang(older));
      assert MatchesAlts(alts, s, Lang(older)) <==> Valid(T, Emits(older), sc, s);
    }
  }

  lemma AnyOfKinds(T: Builtins, sc: Schema, keys: seq<string>, rules: RuleMap, P: set<string>)
    requires sc.AnyOf? && KeysMean(T, sc.alts, keys, rules, P)
    ensures KindsIn(T, sc, P)
  {
    forall i | 0 <= i < |sc.alts| ensures KindsIn(T, sc.alts[i], P) {
      assert KeyThere(T, sc.alts[i], keys[i], rules, P);
    }
  }

  lemma TupleSyms(T: Builtins, sc: Schema, keys: seq<string>, rules: RuleMap, P: set<string>) returns (xs: seq<Sym>)
    requires sc.Tuple? && KeysMean(T, sc.items, keys, rules, P) && "space" in rules
    ensures KindsIn(T, sc, P) && xs == Bracketed('[', ']', RefList(keys))
    ensures OkSyms(xs) && SymsRefsIn(xs, rules.Keys)
    ensures ShowSyms(xs) ==
            [TLit(['[']), TRef("space")] + ShowSyms(RefList(keys)) + [TLit([']']), TRef("space")]
  {
    forall i | 0 <= i < |sc.items| ensures KindsIn(T, sc.items[i], P) && keys[i] in rules {
      assert KeyThere(T, sc.items[i], keys[i], rules, P);
    }
    RefListOk(keys, rules.Keys);
    BracketedText('[', ']', RefList(keys));
    BracketedRefs('[', ']', RefList(keys), rules.Keys);
    xs := Bracketed('[', ']', RefList(keys));
  }

  lemma MemberAdded(T: Builtins, sc: Schema, j: nat, kv: string, alts: seq<Body>, older: RuleMap, newer: RuleMap,
                    st: Names)
    requires sc.Object? && j < |sc.props| && Inv(T, older, st) && Extends(newer, older) && kv in newer
    requires KindsIn(T, sc.props[j].schema, st.present)
    requires forall m :: MatchesAlts(alts, m, Lang(older)) <==> Member(T, Emits(older), sc, j, m)
    requires forall m :: Derives(newer, kv, m) <==> MatchesAlts(alts, m, Lang(older))
    ensures PropThere(T, sc, j, kv, newer, st.present)
  {
    MemberLater(T, sc, j, older, newer, st);
  }

  lemma AdditionalAdded(T: Builtins, sc: Schema, kv: string, alts: seq<Body>, older: RuleMap, newer: RuleMap,
                        st: Names)
    requires sc.Object? && Inv(T, older, st) && Extends(newer, older) && MoreKinds(T, sc, st.present)
    requires forall m :: MatchesAlts(alts, m, Lang(older)) <==> AdditionalMember(T, Emits(older), sc, m)
    requires forall m :: Derives(newer, kv, m) <==> MatchesAlts(alts, m, Lang(older))
    ensures forall m :: Derives(newer, kv, m) <==> AdditionalMember(T, Emits(newer), sc, m)
  {
    AdditionalLater(T, sc, older, newer, st);
    forall m ensures Derives(newer, kv, m) <==> AdditionalMember(T, Emits(newer), sc, m) {
      assert Derives(newer, kv, m) <==> MatchesAlts(alts, m, Lang(older));
      assert MatchesAlts(alts, m, Lang(older)) <==> AdditionalMember(T, Emits(older), sc, m);
    }
  }

  lemma MoreKindsLater(T: Table, sc: Schema, P: set<string>, Q: set<string>)
    requires sc.Object? && MoreKinds(T, sc, P) && P <= Q
    ensures MoreKinds(T, sc, Q)
  {
    if sc.additional.MoreOf? { KindsMore(T, sc.additional.schema, P, Q); }
  }

  lemma ObjectKinds(T: Builtins, sc: Schema, kvs: seq<string>, older: RuleMap, P: set<string>, Q: set<string>)
    requires sc.Object? && |kvs| == |sc.props| && PropsMean(T, sc, kvs, older, P) && P <= Q && MoreKinds(T, sc, Q)
    ensures KindsIn(T, sc, Q)
  {
    forall j | 0 <= j < |kvs| ensures KindsIn(T, sc.props[j].schema, Q) {
      assert PropThere(T, sc, j, kvs[j], older, P);
      KindsMore(T, sc.props[j].schema, P, Q);
    }
  }

  lemma StringKeys(T: Builtins, rules: RuleMap, st: Names)
    requires Inv(T, rules, st) && "string" in rules && "string" in T.rules
    ensures forall k :: Derives(rules, "string", k) <==> ("string", k) in Builtin(T)
  {
    KeysEverywhere(T, rules, st);
    assert "string" in KEY_RULES;
  }

  // ---------------------------------------------------------------------------------------------
  // The converter
  // ---------------------------------------------------------------------------------------------

  /** What a visit comes to: the key derives the schema's texts, and the built-in names are there as foretold. */
  ghost predicate Visited(T: Builtins, sc: Schema, name: string, key: string, older: RuleMap, rules: RuleMap,
                          st: Names, st': Names)
  {
    && Inv(T, rules, st') && Extends(rules, older) && key in rules && KeyMeans(T, sc, key, rules)
    && st' == After(T, sc, name, st) && (KindsIn(T, sc, st'.present) || (name == "" && sc.Primitive?))
    && (if name == "" then key == "root" else SameRoot(rules, older))
  }

  class SchemaConverter {
    const T: Builtins
    var rules: RuleMap
    /** The built-in names among the rules. */
    ghost var names: Names

    constructor (T: Builtins)
      ensures this.T == T && rules == map["space" := ShowAlts(T.space)] && names == START && Inv(T, rules, names)
    {
      this.T := T;
      rules := map["space" := ShowAlts(T.space)];
      names := START;
      StartInv(T);
    }

    /** Stores a rule under its name, or under a numbered one when the name has another body. Nothing stored
        before is rebound. A built-in rule loses its name exactly if the name is built in, not there yet, and the
        body another one. */
    method AddRule(name: string, rule: seq<Tok>) returns (key: string)
      modifies this
      ensures rules == old(rules)[key := rule] && names == old(names)
      ensures key in old(rules) ==> old(rules)[key] == rule
      ensures if Esc(name) !in old(rules) || old(rules)[Esc(name)] == rule then key == Esc(name)
              else EndsInDigit(key) && exists i :: key == Esc(name) + ToString(i)
      ensures Intact(T, old(rules)) ==>
              (Intact(T, rules) <==>
               Esc(name) !in T.rules || Esc(name) in old(rules) || rule == Content(T, Esc(name)))
    {
      var escName := Esc(name);
      if escName !in rules || rules[escName] == rule {
        rules := rules[escName := rule];
        key := escName;
      } else {
        var i := 0;
        while escName + ToString(i) in rules && rules[escName + ToString(i)] != rule
          invariant Tried(escName, i) <= rules.Keys
          invariant rules == old(rules) && names == old(names)
          decreases |rules.Keys - Tried(escName, i)|
        {
          OneMoreTried(escName, i, rules.Keys);
          i := i + 1;
        }
        key := escName + ToString(i);
        NumberedIsMadeUp(escName, i);
        rules := rules[key := rule];
      }
      IntactStep(T, old(rules), rules, escName, key, rule);
    }

    /** Adds a built-in rule and, unless they are there, the built-in rules it refers to. */
    method AddPrimitive(name: string, kind: string) returns (n: string)
      requires Shaped(T, rules, names) && AllParse(rules) && kind in T.rules
      requires name == kind || (name == "root" && "root" !in rules)
      modifies this
      ensures Shaped(T, rules, names) && AllParse(rules) && Grown(T, rules, old(rules), {n})
      ensures n in rules && rules[n] == Content(T, kind)
      ensures if name == kind && kind in old(names).taken then EndsInDigit(n) else n == name
      ensures names == if name == kind then Primed(T, kind, old(names))
                       else PrimedAll(T, T.rules[kind].deps, old(names))
      decreases Absent(T, names), if kind in names.present || name == "root" then 1 else 0, 0
    {
      ghost var older := rules;
      n := AddContent(name, kind);
      ghost var added := rules;
      AddMissing(T.rules[kind].deps);
      ContentRefs(T, kind, rules.Keys);
      GrownWith(T, older, added, rules, n);
    }

    /** Stores the body of a built-in rule. */
    method AddContent(name: string, kind: string) returns (n: string)
      requires Shaped(T, rules, names) && AllParse(rules) && kind in T.rules
      requires name == kind || (name == "root" && "root" !in rules)
      modifies this
      ensures Shaped(T, rules, names) && AllParse(rules) && rules == old(rules)[n := Content(T, kind)]
      ensures Extends(rules, old(rules))
      ensures if name == kind && kind in old(names).taken then EndsInDigit(n) else n == name
      ensures names == if name == kind then old(names).(present := old(names).present + {kind}) else old(names)
      ensures Absent(T, names) <= Absent(T, old(names))
      ensures kind !in old(names).present && name == kind ==> Absent(T, names) < Absent(T, old(names))
      ensures forall i :: 0 <= i < |T.rules[kind].deps| ==> T.rules[kind].deps[i] in T.rules
    {
      ghost var older, st := rules, names;
      ContentParses(T, kind);
      RootKeepsItsName();
      StoredUnder(T, older, st, kind);
      n := AddRule(name, ShowAlts(T.rules[kind].body));
      assert n in T.rules ==> GoodRule(T, n);
      StoreShaped(T, older, rules, st, n, kind);
      if name == kind {
        names := names.(present := names.present + {kind});
        if kind !in st.present { OneLessAbsent(T, st, kind); }
      }
      FewerAbsent(T, st, names);
    }

    /** The loop over the dependencies of a built-in rule. */
    method AddMissing(deps: seq<string>)
      requires Shaped(T, rules, names) && AllParse(rules) && forall i :: 0 <= i < |deps| ==> deps[i] in T.rules
      modifies this
      ensures Shaped(T, rules, names) && AllParse(rules) && Grown(T, rules, old(rules), {})
      ensures forall i :: 0 <= i < |deps| ==> deps[i] in rules
      ensures names == PrimedAll(T, deps, old(names))
      decreases Absent(T, names), 0, 2
    {
      for i := 0 to |deps|
        invariant Shaped(T, rules, names) && AllParse(rules) && Grown(T, rules, old(rules), {})
        invariant forall j :: 0 <= j < i ==> deps[j] in rules
        invariant old(names).present <= names.present
        invariant PrimedAll(T, deps[i..], names) == PrimedAll(T, deps, old(names))
      {
        ghost var before := rules;
        FewerAbsent(T, old(names), names);
        assert deps[i..][0] == deps[i] && deps[i..][1..] == deps[i + 1..];
        AddIfMissing(deps[i]);
        GrownTransitive(T, old(rules), before, rules);
      }
      assert deps[|deps|..] == [];
    }

    method AddIfMissing(dep: string)
      requires Shaped(T, rules, names) && AllParse(rules) && dep in T.rules
      modifies this
      ensures Shaped(T, rules, names) && AllParse(rules) && Grown(T, rules, old(rules), {}) && dep in rules
      ensures names == if dep in old(names).present then old(names) else Primed(T, dep, old(names))
      decreases Absent(T, names), 0, 1
    {
      if dep !in rules {
        var _ := AddPrimitive(dep, dep);
      }
    }

    /** `AddRule` for a rule that is not built in. */
    method AddOwnRule(name: string, rule: seq<Tok>, ghost alts: seq<Body>) returns (key: string)
      requires Inv(T, rules, names) && Esc(name) !in T.rules
      requires rule == ShowAlts(alts) && OkAlts(alts) && AltsRefsIn(alts, rules.Keys)
      modifies this
      ensures Inv(T, rules, names) && Extends(rules, old(rules)) && key in rules && names == old(names)
      ensures forall s :: Derives(rules, key, s) <==> MatchesAlts(alts, s, old(Lang(rules)))
      ensures Esc(name) != "root" ==> SameRoot(rules, old(rules))
    {
      ghost var older := rules;
      key := AddRule(name, rule);
      assert key in T.rules ==> GoodRule(T, key);
      AddKeepsInv(T, older, rules, names, key, alts);
    }

    // -------------------------------------------------------------------------------------------
    // visit
    // -------------------------------------------------------------------------------------------

    /** Adds the rules for a schema; the rule at the answered key derives exactly the schema's texts. */
    method Visit(sc: Schema, name: string) returns (key: string)
      requires Inv(T, rules, names) && Supported(T, sc) && (name == "" ==> "root" !in rules)
      requires RootNames(sc, name)
      modifies this
      ensures Visited(T, sc, name, key, old(rules), rules, old(names), names)
      decreases sc, 10
    {
      match sc
      case Primitive(kind) => key := VisitPrimitive(sc, name);
      case Constant(text) => key := VisitConstant(sc, name);
      case Enumeration(texts) => key := VisitEnumeration(sc, name);
      case AnyOf(alts) => key := VisitAnyOf(sc, name);
      case Integer(_, _, _, _) => key := VisitInteger(sc, name);
      case AnyObject => key := VisitAnyObject(sc, name);
      case Tuple(items) => key := VisitTuple(sc, name);
      case List(item, _, _) => key := VisitList(sc, name);
      case Object(_, _, _) => key := VisitObject(sc, name);
    }

    /** Stores the rule of a schema once its alternatives are known to accept the schema's texts. */
    method Finish(ghost sc: Schema, name: string, rule: seq<Tok>, ghost alts: seq<Body>) returns (key: string)
      requires Inv(T, rules, names) && KindsIn(T, sc, names.present) && (name == "" ==> "root" !in rules)
      requires rule == ShowAlts(alts) && OkAlts(alts) && AltsRefsIn(alts, rules.Keys) && !BeginsWithClass(rule)
      requires forall s :: MatchesAlts(alts, s, Lang(rules)) <==> Valid(T, Emits(rules), sc, s)
      modifies this
      ensures Inv(T, rules, names) && Extends(rules, old(rules)) && key in rules && KeyMeans(T, sc, key, rules)
      ensures names == Named(T, sc, name, old(names)) && KindsIn(T, sc, names.present)
      ensures if name == "" then key == "root" else SameRoot(rules, old(rules))
    {
      ghost var older, st := rules, names;
      ghost var k := Esc(RuleName(T, name));
      RuleNameTakes(T, name);
      key := AddRule(RuleName(T, name), rule);
      KindsMore(T, sc, st.present, Named(T, sc, name, st).present);
      if k in T.rules && k !in st.present {
        TakeKeepsInv(T, older, rules, st, sc, k, alts);
        names := Names(st.present + {k}, st.taken[k := sc]);
      } else {
        FinishedMeans(T, older, rules, st, sc, k, key, alts);
      }
    }

    /** The same for a rule that is one sequence of symbols. */
    method FinishSyms(ghost sc: Schema, name: string, rule: seq<Tok>, ghost xs: seq<Sym>) returns (key: string)
      requires Inv(T, rules, names) && KindsIn(T, sc, names.present) && (name == "" ==> "root" !in rules)
      requires rule == ShowSyms(xs) && OkSyms(xs) && SymsRefsIn(xs, rules.Keys) && !BeginsWithClass(rule)
      requires forall s :: MatchesSyms(xs, s, Lang(rules)) <==> Valid(T, Emits(rules), sc, s)
      modifies this
      ensures Inv(T, rules, names) && Extends(rules, old(rules)) && key in rules && KeyMeans(T, sc, key, rules)
      ensures names == Named(T, sc, name, old(names)) && KindsIn(T, sc, names.present)
      ensures if name == "" then key == "root" else SameRoot(rules, old(rules))
    {
      forall s ensures MatchesAlts([Body(xs)], s, Lang(rules)) <==> Valid(T, Emits(rules), sc, s) {
        MatchesAltsOne(xs, s, Lang(rules));
      }
      key := Finish(sc, name, rule, [Body(xs)]);
    }

    /** A built-in rule under its own name, under a numbered one if that is taken, or as the root. */
    method AddBuiltin(name: string, kind: string) returns (key: string)
      requires Inv(T, rules, names) && kind in T.rules && (name == kind || (name == "root" && "root" !in rules))
      modifies this
      ensures Inv(T, rules, names) && Extends(rules, old(rules)) && key in rules
      ensures forall s :: Derives(rules, key, s) <==> MatchesAlts(T.rules[kind].body, s, Lang(rules))
      ensures names == if name == kind then Primed(T, kind, old(names))
                       else PrimedAll(T, T.rules[kind].deps, old(names))
      ensures '-' !in kind || name == "root" ==> key == name
      ensures name == kind ==> kind in names.present && SameRoot(rules, old(rules))
    {
      ghost var older, st := rules, names;
      assert kind in st.taken ==> HasBody(T, older, st, kind);
      ContentParses(T, kind);
      key := AddPrimitive(name, kind);
      GrownKeepsInv(T, older, rules, st, names, key);
      ContentMeaning(T, rules, key, kind);
    }

    method VisitPrimitive(sc: Schema, name: string) returns (key: string)
      requires sc.Primitive? && Inv(T, rules, names) && Supported(T, sc) && (name == "" ==> "root" !in rules)
      modifies this
      ensures Visited(T, sc, name, key, old(rules), rules, old(names), names)
    {
      ContentParses(T, sc.kind);
      RuleNameRoot(T, name);
      if RuleName(T, name) == "root" {
        key := AddBuiltin("root", sc.kind);
      } else {
        key := AddBuiltin(sc.kind, sc.kind);
      }
    }

    method VisitConstant(sc: Schema, name: string) returns (key: string)
      requires sc.Constant? && Inv(T, rules, names) && (name == "" ==> "root" !in rules)
      modifies this
      ensures Visited(T, sc, name, key, old(rules), rules, old(names), names)
    {
      BlankEverywhere(T, rules);
      ghost var xs := [Lit(sc.text), SP];
      ShowTwo(Lit(sc.text), SP);
      forall s ensures MatchesSyms(xs, s, Lang(rules)) <==> Valid(T, Emits(rules), sc, s) {
        LiteralSpace(T, sc.text, s, Lang(rules));
      }
      key := FinishSyms(sc, name, [TLit(sc.text), TRef("space")], xs);
    }

    method VisitEnumeration(sc: Schema, name: string) returns (key: string)
      requires sc.Enumeration? && Inv(T, rules, names) && Supported(T, sc) && (name == "" ==> "root" !in rules)
      modifies this
      ensures Visited(T, sc, name, key, old(rules), rules, old(names), names)
    {
      BlankEverywhere(T, rules);
      var out := JoinLiterals(sc.texts);
      ghost var xs := EnumSyms(sc.texts, rules.Keys);
      forall s ensures MatchesSyms(xs, s, Lang(rules)) <==> Valid(T, Emits(rules), sc, s) {
        EnumMeans(T, sc, s, Lang(rules));
      }
      key := FinishSyms(sc, name, [TOpen] + out + [TClose, TRef("space")], xs);
    }

    /** `string_join(enum_values, " | ")` */
    method JoinLiterals(texts: seq<string>) returns (out: seq<Tok>)
      requires texts != []
      ensures out == ShowAlts(Literals(texts))
    {
      out := [];
      for i := 0 to |texts|
        invariant i > 0 ==> out == ShowAlts(Literals(texts[..i]))
        invariant i == 0 ==> out == []
      {
        LiteralsSnoc(texts, i);
        out := (if i > 0 then out + [TBar] else []) + [TLit(texts[i])];
      }
      assert texts[..|texts|] == texts;
    }

    /** One schema of a list, after those before it. */
    method VisitNext(schemas: seq<Schema>, i: nat, name: string, keys: seq<string>) returns (more: seq<string>)
      requires i < |schemas| && Inv(T, rules, names) && Supported(T, schemas[i]) && name != ""
      requires KeysMean(T, schemas[..i], keys, rules, names.present)
      modifies this
      ensures Inv(T, rules, names) && Extends(rules, old(rules)) && SameRoot(rules, old(rules))
      ensures KeysMean(T, schemas[..i + 1], more, rules, names.present)
      ensures names == After(T, schemas[i], name, old(names))
      decreases schemas[i], 11
    {
      ghost var before, st := rules, names;
      var k := Visit(schemas[i], name);
      KeysGrow(T, schemas, i, keys, k, before, rules, st, names);
      more := keys + [k];
    }

    /** The loop over the alternatives. */
    method VisitAlternatives(sc: Schema, name: string) returns (keys: seq<string>)
      requires sc.AnyOf? && Inv(T, rules, names) && Supported(T, sc)
      modifies this
      ensures Inv(T, rules, names) && Extends(rules, old(rules)) && SameRoot(rules, old(rules))
      ensures KeysMean(T, sc.alts, keys, rules, names.present)
      ensures names == AfterAlts(T, sc, name, |sc.alts|, old(names))
      decreases sc, 7
    {
      keys := [];
      for i := 0 to |sc.alts|
        invariant Inv(T, rules, names) && Extends(rules, old(rules)) && SameRoot(rules, old(rules))
        invariant KeysMean(T, sc.alts[..i], keys, rules, names.present)
        invariant names == AfterAlts(T, sc, name, i, old(names))
      {
        keys := VisitNext(sc.alts, i, AltName(name, i), keys);
      }
      assert sc.alts[..|sc.alts|] == sc.alts;
    }

    method VisitAnyOf(sc: Schema, name: string) returns (key: string)
      requires sc.AnyOf? && Inv(T, rules, names) && Supported(T, sc) && (name == "" ==> "root" !in rules)
      modifies this
      ensures Visited(T, sc, name, key, old(rules), rules, old(names), names)
      decreases sc, 8
    {
      var keys := VisitAlternatives(sc, name);
      ghost var alts := Refs(keys);
      RefsMean(T, sc, keys, rules, names.present);
      AnyOfKinds(T, sc, keys, rules, names.present);
      var rule := JoinWithBars(keys);
      key := Finish(sc, name, rule, alts);
    }

    /** `string_join(rules, " | ")` */
    method JoinWithBars(keys: seq<string>) returns (rule: seq<Tok>)
      requires keys != []
      ensures rule == ShowAlts(Refs(keys)) && !BeginsWithClass(rule)
    {
      rule := [];
      for i := 0 to |keys|
        invariant i == 0 ==> rule == []
        invariant i > 0 ==> rule == ShowAlts(Refs(keys[..i])) && rule != [] && rule[0] == TRef(keys[0])
      {
        RefsSnoc(keys, i);
        rule := (if i > 0 then rule + [TBar] else []) + [TRef(keys[i])];
      }
      assert keys[..|keys|] == keys;
    }

    method VisitInteger(sc: Schema, name: string) returns (key: string)
      requires sc.Integer? && Inv(T, rules, names) && Supported(T, sc) && (name == "" ==> "root" !in rules)
      modifies this
      ensures Visited(T, sc, name, key, old(rules), rules, old(names), names)
    {
      BlankEverywhere(T, rules);
      var rule, xs := IntegerRuleText(T, sc, rules);
      key := FinishSyms(sc, name, rule, xs);
    }

    method VisitAnyObject(sc: Schema, name: string) returns (key: string)
      requires sc.AnyObject? && Inv(T, rules, names) && Supported(T, sc) && (name == "" ==> "root" !in rules)
      modifies this
      ensures Visited(T, sc, name, key, old(rules), rules, old(names), names)
    {
      assert '-' !in "object";
      var ref := AddBuiltin("object", "object");
      ghost var xs := [Ref(ref)];
      ShowOne(xs[0]);
      forall s ensures MatchesSyms(xs, s, Lang(rules)) <==> Valid(T, Emits(rules), sc, s) {
        MatchesOne(xs[0], s, Lang(rules));
      }
      key := FinishSyms(sc, name, [TRef(ref)], xs);
    }

    /** The loop over the items. */
    method VisitItems(sc: Schema, name: string) returns (keys: seq<string>)
      requires sc.Tuple? && Inv(T, rules, names) && Supported(T, sc)
      modifies this
      ensures Inv(T, rules, names) && Extends(rules, old(rules)) && SameRoot(rules, old(rules))
      ensures KeysMean(T, sc.items, keys, rules, names.present)
      ensures names == AfterItems(T, sc, name, |sc.items|, old(names))
      decreases sc, 7
    {
      keys := [];
      for i := 0 to |sc.items|
        invariant Inv(T, rules, names) && Extends(rules, old(rules)) && SameRoot(rules, old(rules))
        invariant KeysMean(T, sc.items[..i], keys, rules, names.present)
        invariant names == AfterItems(T, sc, name, i, old(names))
      {
        keys := VisitNext(sc.items, i, Sub(name, "tuple-" + ToString(i)), keys);
      }
      assert sc.items[..|sc.items|] == sc.items;
    }

    method VisitTuple(sc: Schema, name: string) returns (key: string)
      requires sc.Tuple? && Inv(T, rules, names) && Supported(T, sc) && (name == "" ==> "root" !in rules)
      modifies this
      ensures Visited(T, sc, name, key, old(rules), rules, old(names), names)
      decreases sc, 8
    {
      var keys := VisitItems(sc, name);
      BlankEverywhere(T, rules);
      var inner := JoinWithCommas(keys);
      ghost var xs := TupleSyms(T, sc, keys, rules, names.present);
      forall s ensures MatchesSyms(xs, s, Lang(rules)) <==> Valid(T, Emits(rules), sc, s) {
        TupleMeans(T, sc, keys, s, rules, names.present);
      }
      key := FinishSyms(sc, name, [TLit(['[']), TRef("space")] + inner + [TLit([']']), TRef("space")], xs);
    }

    /** The keys with a comma and white space between neighbours. */
    method JoinWithCommas(keys: seq<string>) returns (rule: seq<Tok>)
      ensures rule == ShowSyms(RefList(keys))
    {
      rule := [];
      for i := 0 to |keys|
        invariant rule == ShowSyms(RefList(keys[..i]))
      {
        RefListSnoc(keys, i);
        rule := rule + (if i > 0 then [TLit(","), TRef("space")] else []) + [TRef(keys[i])];
      }
      assert keys[..|keys|] == keys;
    }

    method VisitList(sc: Schema, name: string) returns (key: string)
      requires sc.List? && Inv(T, rules, names) && Supported(T, sc) && (name == "" ==> "root" !in rules)
      modifies this
      ensures Visited(T, sc, name, key, old(rules), rules, old(names), names)
      decreases sc, 8
    {
      var item := Visit(sc.item, Sub(name, "item"));
      BlankEverywhere(T, rules);
      var inner := BuildRepetition([TRef(item)], sc.minItems, sc.maxItems, [TLit(","), TRef("space")]);
      ghost var xs := ListSyms(T, item, sc, rules.Keys);
      forall s ensures MatchesSyms(xs, s, Lang(rules)) <==> Valid(T, Emits(rules), sc, s) {
        ListMeans(T, sc, item, s, rules);
      }
      key := FinishSyms(sc, name, [TLit(['[']), TRef("space")] + inner + [TLit([']']), TRef("space")], xs);
    }

    /** The rule `name space ":" space value` of property i. */
    method VisitProperty(sc: Schema, i: nat, name: string) returns (kv: string)
      requires sc.Object? && i < |sc.props| && Inv(T, rules, names) && Supported(T, sc)
      requires RootNames(sc, name)
      modifies this
      ensures Inv(T, rules, names) && Extends(rules, old(rules)) && SameRoot(rules, old(rules))
      ensures names == After(T, sc.props[i].schema, Sub(name, sc.props[i].name), old(names))
      ensures PropThere(T, sc, i, kv, rules, names.present)
      decreases sc, 5
    {
      var prop := sc.props[i];
      var value := Visit(prop.schema, Sub(name, prop.name));
      ghost var before := rules;
      ghost var alts := MemberRule(T, sc, i, value, before);
      SuffixIsSafe(T, Sub(name, prop.name), "-kv");
      kv := AddOwnRule(Sub(name, prop.name) + "-kv",
                       [TLit(Quoted(prop.name)), TRef("space"), TLit(":"), TRef("space"), TRef(value)], alts);
      MemberAdded(T, sc, i, kv, alts, before, rules, names);
    }

    /** The loop over the properties. */
    method VisitProperties(sc: Schema, name: string)
      returns (req: seq<string>, opt: seq<string>, kvNames: map<string, string>, ghost kvs: seq<string>)
      requires sc.Object? && Inv(T, rules, names) && Supported(T, sc)
      requires RootNames(sc, name)
      modifies this
      ensures Inv(T, rules, names) && Extends(rules, old(rules)) && SameRoot(rules, old(rules))
      ensures names == AfterProps(T, sc, name, |sc.props|, old(names))
      ensures |kvs| == |sc.props| && PropsMean(T, sc, kvs, rules, names.present) && NamesTo(sc, kvs, kvNames)
      ensures req == RequiredNames(sc, 0) && opt == OptionalNames(sc, 0)
      decreases sc, 6
    {
      req, opt, kvNames, kvs := [], [], map[], [];
      for i := 0 to |sc.props|
        invariant Inv(T, rules, names) && Extends(rules, old(rules)) && SameRoot(rules, old(rules))
        invariant names == AfterProps(T, sc, name, i, old(names))
        invariant |kvs| == i && PropsMean(T, sc, kvs, rules, names.present) && NamesTo(sc, kvs, kvNames)
        invariant req + RequiredNames(sc, i) == RequiredNames(sc, 0)
        invariant opt + OptionalNames(sc, i) == OptionalNames(sc, 0)
      {
        ghost var before, st := rules, names;
        var kv := VisitProperty(sc, i, name);
        PropsStep(T, sc, kvs, kv, kvNames, before, rules, st, names);
        NamesStep(sc, req, opt, i);
        kvNames := kvNames[sc.props[i].name := kv];
        kvs := kvs + [kv];
        if sc.props[i].name in sc.required {
          req := req + [sc.props[i].name];
        } else {
          opt := opt + [sc.props[i].name];
        }
      }
      NamesEnd(sc, req, opt);
    }

    /** The rule body of `_not_strings` for the declared names. */
    method NotStringsRule(sc: Schema) returns (rule: seq<Tok>, ghost alts: seq<Body>)
      requires sc.Object? && Inv(T, rules, names) && Supported(T, sc) && !sc.additional.NoMore? && sc.props != []
      modifies this
      ensures Inv(T, rules, names) && Extends(rules, old(rules)) && SameRoot(rules, old(rules))
      ensures names == Primed(T, "char", old(names))
      ensures rule == ShowAlts(alts) && OkAlts(alts) && AltsRefsIn(alts, rules.Keys)
      ensures forall k :: MatchesAlts(alts, k, Lang(rules)) <==> OtherKey(T, Emitted, PropNames(sc.props), k)
    {
      assert '-' !in "char";
      var charRule := AddBuiltin("char", "char");
      var declared := PropNames(sc.props);
      rule := Exclude(declared, charRule);
      alts := Parse(rule).value;
      OtherKeyRule(T, declared, alts, rules, names);
    }

    /** The rule for keys that no property has. */
    method VisitKey(sc: Schema, name: string) returns (key: string)
      requires sc.Object? && Inv(T, rules, names) && Supported(T, sc) && !sc.additional.NoMore?
      modifies this
      ensures Inv(T, rules, names) && Extends(rules, old(rules)) && SameRoot(rules, old(rules)) && key in rules
      ensures names == PrimedIf(T, if sc.props == [] then "string" else "char", old(names))
      ensures forall k :: Derives(rules, key, k) <==> OtherKey(T, Emitted, PropNames(sc.props), k)
    {
      if sc.props == [] {
        assert '-' !in "string";
        key := AddBuiltin("string", "string");
        StringKeys(T, rules, names);
      } else {
        var rule;
        ghost var alts;
        rule, alts := NotStringsRule(sc);
        SuffixIsSafe(T, Sub(name, "additional"), "-k");
        key := AddOwnRule(Sub(name, "additional") + "-k", rule, alts);
      }
    }

    method VisitMoreValue(sc: Schema, name: string) returns (value: string)
      requires sc.Object? && Inv(T, rules, names) && Supported(T, sc) && !sc.additional.NoMore?
      modifies this
      ensures Inv(T, rules, names) && Extends(rules, old(rules)) && SameRoot(rules, old(rules)) && value in rules
      ensures names == AfterValue(T, sc, name, old(names))
      ensures MoreValueMeans(T, sc, value, rules) && MoreKinds(T, sc, names.present)
      decreases sc, 5
    {
      if sc.additional.MoreOf? {
        value := Visit(sc.additional.schema, Sub(name, "additional") + "-value");
      } else {
        assert '-' !in "value";
        value := AddBuiltin("value", "value");
      }
    }

    /** The rule for additional members. */
    method VisitAdditional(sc: Schema, name: string) returns (kv: string)
      requires sc.Object? && Inv(T, rules, names) && Supported(T, sc) && !sc.additional.NoMore?
      modifies this
      ensures Inv(T, rules, names) && Extends(rules, old(rules)) && SameRoot(rules, old(rules)) && kv in rules
      ensures names == AfterMore(T, sc, name, old(names)) && MoreKinds(T, sc, names.present)
      ensures forall m :: Derives(rules, kv, m) <==> AdditionalMember(T, Emits(rules), sc, m)
      decreases sc, 6
    {
      var value := VisitMoreValue(sc, name);
      ghost var before, st := rules, names;
      var key := VisitKey(sc, name);
      MoreValueLater(T, sc, value, before, rules, st);
      ghost var keyed := rules;
      MoreKindsLater(T, sc, st.present, names.present);
      ghost var alts := AdditionalRule(T, sc, key, value, keyed);
      SuffixIsSafe(T, Sub(name, "additional"), "-kv");
      kv := AddOwnRule(Sub(name, "additional") + "-kv", [TRef(key), TLit(":"), TRef("space"), TRef(value)], alts);
      AdditionalAdded(T, sc, kv, alts, keyed, rules, names);
    }

    /** `get_recursive_refs`: the members may begin with the first of the names, or behind other members with a
        comma and one of them. The possible continuations become rules of their own. */
    method RecursiveRefs(ks: seq<string>, kvNames: map<string, string>, firstIsOptional: bool, name: string)
      returns (res: seq<Tok>, ghost xs: seq<Sym>)
      requires Inv(T, rules, names) && ks != [] && StarLast(ks) && KvsThere(ks, kvNames, rules)
      modifies this
      ensures Inv(T, rules, names) && Extends(rules, old(rules)) && SameRoot(rules, old(rules)) && names == old(names)
      ensures res == ShowSyms(xs) && OkSyms(xs) && SymsRefsIn(xs, rules.Keys)
      ensures RefsMeanMembers(KvsOf(ks, kvNames), HasStar(ks), firstIsOptional, xs, Lang(rules))
      decreases |ks|
    {
      var k := ks[0];
      var kv := kvNames[k];
      var commaRef := [TOpen, TLit(","), TRef("space"), TRef(kv), TClose];
      if firstIsOptional {
        res := commaRef + (if k == "*" then [STAR] else [OPT]);
      } else {
        res := [TRef(kv)] + (if k == "*" then commaRef + [STAR] else []);
      }
      if |ks| > 1 {
        ghost var start := rules;
        KvsTail(ks, kvNames, rules);
        var restRes;
        ghost var restXs;
        restRes, restXs := RecursiveRefs(ks[1..], kvNames, true, name);
        ghost var before := rules;
        SuffixIsSafe(T, Sub(name, k), "-rest");
        OneBody(restXs, rules.Keys);
        var rest := AddOwnRule(Sub(name, k) + "-rest", restRes, [Body(restXs)]);
        RestMeans(T, ks, kvNames, restXs, rest, start, before, rules);
        res := res + [TRef(rest)];
        xs := MoreNames(T, ks, kvNames, firstIsOptional, rest, rules);
      } else {
        xs := LastName(T, ks, kvNames, firstIsOptional, rules);
      }
    }

    /** One alternative for each optional name the members may begin with. */
    method OptionalAlternatives(opt: seq<string>, kvNames: map<string, string>, name: string)
      returns (res: seq<Tok>, ghost alts: seq<Body>)
      requires Inv(T, rules, names) && opt != [] && StarLast(opt) && KvsThere(opt, kvNames, rules)
      modifies this
      ensures Inv(T, rules, names) && Extends(rules, old(rules)) && SameRoot(rules, old(rules)) && names == old(names)
      ensures res == ShowAlts(alts) && OkAlts(alts) && AltsRefsIn(alts, rules.Keys)
      ensures forall s :: MatchesAlts(alts, s, Lang(rules)) <==>
                          SomePicked(KvsOf(opt, kvNames), HasStar(opt), s, Lang(rules))
    {
      res, alts := [], [];
      for i := 0 to |opt|
        invariant Inv(T, rules, names) && Extends(rules, old(rules)) && SameRoot(rules, old(rules))
        invariant names == old(names) && AlternativesMean(opt, kvNames, i, res, alts, rules)
      {
        ghost var before := rules;
        ghost var was := res;
        if i > 0 {
          res := res + [TBar];
        }
        KvsSuffix(opt, i, kvNames, rules);
        var one;
        ghost var xs;
        one, xs := RecursiveRefs(opt[i..], kvNames, false, name);
        alts := OneMoreAlternative(T, opt, kvNames, i, was, alts, one, xs, before, rules);
        res := res + one;
      }
      AllAlternatives(opt, kvNames, alts, rules);
    }

    /** The rules of all members, first the declared ones. */
    method VisitMembers(sc: Schema, name: string)
      returns (req: seq<string>, opt: seq<string>, kvNames: map<string, string>,
               ghost kvs: seq<string>, ghost more: seq<string>)
      requires sc.Object? && Inv(T, rules, names) && Supported(T, sc)
      requires RootNames(sc, name)
      modifies this
      ensures Inv(T, rules, names) && Extends(rules, old(rules)) && SameRoot(rules, old(rules))
      ensures names == AfterMore(T, sc, name, AfterProps(T, sc, name, |sc.props|, old(names)))
      ensures ObjectKvs(T, sc, kvs, kvNames, more, rules) && KindsIn(T, sc, names.present)
      ensures req == RequiredNames(sc, 0) && opt == AllOptional(sc)
      decreases sc, 7
    {
      req, opt, kvNames, kvs := VisitProperties(sc, name);
      more := [];
      ghost var before, st := rules, names;
      if !sc.additional.NoMore? {
        var kv := VisitAdditional(sc, name);
        NamesToStar(T, sc, kvs, kvNames, kv);
        kvNames := kvNames["*" := kv];
        opt := opt + ["*"];
        more := [kv];
      }
      ObjectNames(T, sc, kvs, kvNames, more, before, rules, st);
      ObjectKinds(T, sc, kvs, before, st.present, names.present);
    }

    /** `_build_object_rule` */
    method BuildObjectRule(sc: Schema, name: string) returns (rule: seq<Tok>, ghost xs: seq<Sym>)
      requires sc.Object? && Inv(T, rules, names) && Supported(T, sc)
      requires RootNames(sc, name)
      modifies this
      ensures Inv(T, rules, names) && Extends(rules, old(rules)) && SameRoot(rules, old(rules))
      ensures names == AfterMore(T, sc, name, AfterProps(T, sc, name, |sc.props|, old(names)))
      ensures KindsIn(T, sc, names.present) && !BeginsWithClass(rule)
      ensures rule == ShowSyms(xs) && OkSyms(xs) && SymsRefsIn(xs, rules.Keys)
      ensures forall s :: MatchesSyms(xs, s, Lang(rules)) <==> Valid(T, Emits(rules), sc, s)
      decreases sc, 8
    {
      var req, opt, kvNames;
      ghost var kvs, more;
      req, opt, kvNames, kvs, more := VisitMembers(sc, name);
      var required := JoinWithCommas(KvsOf(req, kvNames));
      rule := [TLit(['{']), TRef("space")] + required;
      if opt != [] {
        ghost var before := rules;
        var alternatives;
        ghost var alts;
        alternatives, alts := OptionalAlternatives(opt, kvNames, name);
        rule := rule + OptionalText(req == [], alternatives);
        xs := ObjectWithOptional(T, sc, kvs, kvNames, more, alts, before, rules, names);
      } else {
        xs := ObjectWithoutOptional(T, sc, kvs, kvNames, more, rules);
      }
      rule := rule + [TLit(['}']), TRef("space")];
    }

    method VisitObject(sc: Schema, name: string) returns (key: string)
      requires sc.Object? && Inv(T, rules, names) && Supported(T, sc) && (name == "" ==> "root" !in rules)
      requires RootNames(sc, name)
      modifies this
      ensures Visited(T, sc, name, key, old(rules), rules, old(names), names)
      decreases sc, 9
    {
      var rule;
      ghost var xs;
      rule, xs := BuildObjectRule(sc, name);
      key := FinishSyms(sc, name, rule, xs);
    }
  }
}
