/** What holds of the rules at every step of a conversion, and what a step does to it. */
module Growth {
  import opened Options
  import opened Gbnf
  import opened Rules
  import opened Symbols
  import opened Decimal
  import opened Schemas
  import opened Tables
  import opened Naming

  // ---------------------------------------------------------------------------------------------
  // The invariant
  // ---------------------------------------------------------------------------------------------

  predicate AllParse(rules: RuleMap) { forall n {:trigger Parse(rules[n])} :: n in rules ==> Parse(rules[n]).Some? }

  predicate SpaceThere(T: Builtins, rules: RuleMap) { "space" in rules && rules["space"] == ShowAlts(T.space) }

  /** The built-in rules present have their built-in bodies. */
  predicate Intact(T: Builtins, rules: RuleMap) {
    SpaceThere(T, rules) && forall k :: k in rules && k in T.rules ==> rules[k] == Content(T, k)
  }

  /** The built-in names are there as recorded: with their built-in bodies, or taken. */
  predicate Shaped(T: Builtins, rules: RuleMap, st: Names) {
    && SpaceThere(T, rules)
    && st.present == rules.Keys * T.rules.Keys && st.taken.Keys <= st.present
    && forall k {:trigger HasBody(T, rules, st, k)} :: k in st.present ==> HasBody(T, rules, st, k)
  }

  /** A taken name has a dash, and its rule does not begin with a character class as the built-in one does. */
  predicate HasBody(T: Builtins, rules: RuleMap, st: Names, k: string)
    requires k in rules && k in T.rules
  {
    if k in st.taken then '-' in k && !BeginsWithClass(rules[k]) else rules[k] == Content(T, k)
  }

  /** The key derives exactly the texts of the schema. Its built-in parts mean what they mean in this grammar. */
  ghost predicate KeyMeans(T: Table, sc: Schema, key: string, rules: RuleMap) {
    forall s :: Derives(rules, key, s) <==> Valid(T, Emits(rules), sc, s)
  }

  /** A taken name derives the texts of the schema that took it. */
  ghost predicate TakenMean(T: Builtins, rules: RuleMap, st: Names) {
    forall k {:trigger KeyMeans(T, st.taken[k], k, rules)} ::
      k in st.taken ==> KindsIn(T, st.taken[k], st.present) && KeyMeans(T, st.taken[k], k, rules)
  }

  ghost predicate Inv(T: Builtins, rules: RuleMap, st: Names) {
    Shaped(T, rules, st) && Closed(rules) && AllParse(rules) && TakenMean(T, rules, st)
  }

  /** A rule stored under its name, or under a numbered one, keeps the built-in bodies exactly if its name is not
      built in, or is there already, or the body is the built-in one. */
  lemma IntactStep(T: Builtins, older: RuleMap, newer: RuleMap, name: string, key: string, rule: seq<Tok>)
    requires newer == older[key := rule] && (key in older ==> older[key] == rule)
    requires if name !in older || older[name] == rule then key == name else EndsInDigit(key)
    ensures Intact(T, older) ==>
            (Intact(T, newer) <==> name !in T.rules || name in older || rule == Content(T, name))
  {
    NumberedIsNew(T, key);
    if Intact(T, older) {
      StaysIntact(T, older, newer, key, rule);
      if name in T.rules && name !in older { assert newer[name] == rule; }
    }
  }

  lemma NumberedIsNew(T: Builtins, key: string)
    ensures EndsInDigit(key) ==> key !in T.rules
  {
    if key in T.rules { assert GoodRule(T, key); }
  }

  lemma StaysIntact(T: Builtins, older: RuleMap, newer: RuleMap, key: string, rule: seq<Tok>)
    requires Intact(T, older) && newer == older[key := rule] && (key in older ==> older[key] == rule)
    ensures key !in T.rules || rule == Content(T, key) || (key in older && older[key] == rule) ==> Intact(T, newer)
  {
  }

  /** Taken or not can be told from the body. */
  lemma TakenIsOther(T: Builtins, rules: RuleMap, st: Names, k: string)
    requires Shaped(T, rules, st) && k in st.present
    ensures rules[k] == Content(T, k) <==> k !in st.taken
  {
    assert HasBody(T, rules, st, k) && GoodRule(T, k);
  }

  // ---------------------------------------------------------------------------------------------
  // What means the same in every grammar
  // ---------------------------------------------------------------------------------------------

  /** White space does. */
  lemma BlankEverywhere(T: Builtins, rules: RuleMap)
    requires SpaceThere(T, rules)
    ensures forall s :: Derives(rules, "space", s) <==> Blank(T, s)
    ensures forall s :: ("space", s) in Lang(rules) <==> ("space", s) in Builtin(T)
  {
    SpaceRefs(T);
    assert ToksRefsIn(rules["space"], {"space"});
    LangSame(rules, Base(T), {"space"});
  }

  const KEY_RULES: set<string> := {"char", "string", "space"}

  /** So do keys. */
  lemma KeysEverywhere(T: Builtins, rules: RuleMap, st: Names)
    requires Shaped(T, rules, st) && Closed(rules)
    ensures AgreeOn(Lang(rules), Builtin(T), KEY_RULES * rules.Keys * Base(T).Keys)
  {
    var N := KEY_RULES * rules.Keys * Base(T).Keys;
    forall n | n in N ensures ToksRefsIn(rules[n], N) && rules[n] == Base(T)[n] {
      KeyRule(T, rules, st, n);
    }
    LangSame(rules, Base(T), N);
  }

  lemma KeyRule(T: Builtins, rules: RuleMap, st: Names, n: string)
    requires Shaped(T, rules, st) && Closed(rules) && n in KEY_RULES && n in rules && n in Base(T)
    ensures rules[n] == Base(T)[n] && ToksRefsIn(rules[n], KEY_RULES * rules.Keys * Base(T).Keys)
  {
    assert ToksRefsIn(rules[n], rules.Keys);
    if n == "space" {
      SpaceRefs(T);
    } else {
      assert '-' !in "char" && '-' !in "string";
      assert HasBody(T, rules, st, n) && GoodRule(T, n);
      ContentRefs(T, n, KEY_RULES);
      BaseRefs(T, n);
    }
  }

  lemma BaseRefs(T: Builtins, n: string)
    requires n in Base(T)
    ensures ToksRefsIn(Base(T)[n], Base(T).Keys)
  {
    BaseClosed(T);
  }

  /** A built-in body refers to rules that are there, if its name is. */
  lemma BodyRefs(T: Builtins, rules: RuleMap, st: Names, k: string)
    requires Shaped(T, rules, st) && Closed(rules) && k in st.present
    ensures AltsRefsIn(T.rules[k].body, rules.Keys)
  {
    assert HasBody(T, rules, st, k) && GoodRule(T, k);
    ShowThenParse(T.rules[k].body);
    if k in st.taken {
      ContentRefs(T, k, rules.Keys);
    } else {
      assert ToksRefsIn(rules[k], rules.Keys);
    }
    ParseAltsRefs(Content(T, k), rules.Keys);
  }

  lemma AltsSameUnder(alts: seq<Body>, s: string, I: Interp, J: Interp, N: set<string>)
    requires AltsRefsIn(alts, N) && AgreeOn(I, J, N)
    ensures MatchesAlts(alts, s, I) <==> MatchesAlts(alts, s, J)
  {
    if MatchesAlts(alts, s, I) { AltsAgree(alts, s, I, J, N); }
    if MatchesAlts(alts, s, J) { AltsAgree(alts, s, J, I, N); }
  }

  // ---------------------------------------------------------------------------------------------
  // What does not change when rules are added
  // ---------------------------------------------------------------------------------------------

  lemma KindsLater(T: Builtins, older: RuleMap, newer: RuleMap, st: Names)
    requires Shaped(T, older, st) && Closed(older) && Extends(newer, older)
    ensures SameKinds(T, st.present, Lang(older), Lang(newer))
  {
    LangStable(older, newer);
    forall k, s | k in st.present && k in T.rules
      ensures MatchesAlts(T.rules[k].body, s, Lang(older)) <==> MatchesAlts(T.rules[k].body, s, Lang(newer))
    {
      BodyRefs(T, older, st, k);
      AltsSameUnder(T.rules[k].body, s, Lang(older), Lang(newer), older.Keys);
    }
  }

  lemma SameKindsBack(T: Table, P: set<string>, I: Interp, J: Interp)
    requires SameKinds(T, P, I, J)
    ensures SameKinds(T, P, J, I)
  {
  }

  lemma ValidSame(T: Table, sc: Schema, P: set<string>, I: Sense, J: Sense)
    requires KindsIn(T, sc, P) && SameSense(T, P, sc, I, J)
    ensures forall s :: Valid(T, I, sc, s) <==> Valid(T, J, sc, s)
  {
    SameKindsBack(T, P, I.kinds, J.kinds);
    forall s ensures Valid(T, I, sc, s) <==> Valid(T, J, sc, s) {
      if Valid(T, I, sc, s) { ValidAgree(T, sc, s, P, I, J); }
      if Valid(T, J, sc, s) { ValidAgree(T, sc, s, P, J, I); }
    }
  }

  lemma ValidLater(T: Builtins, sc: Schema, older: RuleMap, newer: RuleMap, st: Names)
    requires Shaped(T, older, st) && Closed(older) && Extends(newer, older) && KindsIn(T, sc, st.present)
    ensures forall s :: Valid(T, Emits(older), sc, s) <==> Valid(T, Emits(newer), sc, s)
  {
    KindsLater(T, older, newer, st);
    ValidSame(T, sc, st.present, Emits(older), Emits(newer));
  }

  /** What a key derives does not change. */
  lemma Keeps(older: RuleMap, newer: RuleMap, key: string)
    requires Closed(older) && Extends(newer, older) && key in older
    ensures forall s :: Derives(older, key, s) <==> Derives(newer, key, s)
  {
    LangStable(older, newer);
  }

  lemma MeansLater(T: Builtins, sc: Schema, key: string, older: RuleMap, newer: RuleMap, st: Names)
    requires Shaped(T, older, st) && Closed(older) && Extends(newer, older) && KindsIn(T, sc, st.present)
    requires key in older && KeyMeans(T, sc, key, older)
    ensures KeyMeans(T, sc, key, newer)
  {
    ValidLater(T, sc, older, newer, st);
    Keeps(older, newer, key);
    forall s ensures Derives(newer, key, s) <==> Valid(T, Emits(newer), sc, s) {
      assert Derives(older, key, s) <==> Valid(T, Emits(older), sc, s);
    }
  }

  lemma TakenLater(T: Builtins, older: RuleMap, newer: RuleMap, st: Names, st': Names)
    requires Inv(T, older, st) && Extends(newer, older) && st'.taken == st.taken && st.present <= st'.present
    ensures TakenMean(T, newer, st')
  {
    forall k | k in st'.taken ensures KindsIn(T, st'.taken[k], st'.present) && KeyMeans(T, st'.taken[k], k, newer) {
      assert KeyMeans(T, st.taken[k], k, older);
      KindsMore(T, st.taken[k], st.present, st'.present);
      MeansLater(T, st.taken[k], k, older, newer, st);
    }
  }

  // ---------------------------------------------------------------------------------------------
  // Adding a rule
  // ---------------------------------------------------------------------------------------------

  lemma StartInv(T: Builtins)
    ensures Inv(T, map["space" := ShowAlts(T.space)], START)
  {
    ShowThenParse(T.space);
    SpaceRefs(T);
  }

  /** One more readable rule whose references are defined. */
  lemma AddMeaning(older: RuleMap, newer: RuleMap, key: string, alts: seq<Body>)
    requires Closed(older) && AllParse(older)
    requires newer == older[key := ShowAlts(alts)] && (key in older ==> older[key] == ShowAlts(alts))
    requires OkAlts(alts) && AltsRefsIn(alts, older.Keys)
    ensures Closed(newer) && AllParse(newer) && Extends(newer, older)
    ensures forall s :: Derives(newer, key, s) <==> MatchesAlts(alts, s, Lang(older))
  {
    ShowThenParse(alts);
    ShowAltsRefs(alts, older.Keys);
    forall n | n in newer ensures ToksRefsIn(newer[n], newer.Keys) {
      if n in older { assert ToksRefsIn(older[n], older.Keys); }
    }
    LangStable(older, newer);
    forall s ensures Derives(newer, key, s) <==> MatchesAlts(alts, s, Lang(older)) {
      LangFixpoint(newer, key, s);
      AltsSameUnder(alts, s, Lang(older), Lang(newer), older.Keys);
    }
  }

  /** A rule under a name that is not built in, or under one that is there already, keeps the invariant. */
  lemma AddKeepsInv(T: Builtins, older: RuleMap, newer: RuleMap, st: Names, key: string, alts: seq<Body>)
    requires Inv(T, older, st)
    requires newer == older[key := ShowAlts(alts)] && (key in older ==> older[key] == ShowAlts(alts))
    requires OkAlts(alts) && AltsRefsIn(alts, older.Keys) && (key in T.rules ==> key in older)
    ensures Inv(T, newer, st) && Extends(newer, older)
    ensures forall s :: Derives(newer, key, s) <==> MatchesAlts(alts, s, Lang(older))
  {
    AddMeaning(older, newer, key, alts);
    TakenLater(T, older, newer, st, st);
    forall k | k in st.present ensures HasBody(T, newer, st, k) { assert HasBody(T, older, st, k); }
  }

  /** The rule of a schema may take a built-in name with a dash that is not there yet. */
  lemma TakeKeepsInv(T: Builtins, older: RuleMap, newer: RuleMap, st: Names, sc: Schema, key: string, alts: seq<Body>)
    requires Inv(T, older, st) && newer == older[key := ShowAlts(alts)] && key !in older && key in T.rules
    requires OkAlts(alts) && AltsRefsIn(alts, older.Keys) && '-' in key && !BeginsWithClass(ShowAlts(alts))
    requires KindsIn(T, sc, st.present) && forall s :: MatchesAlts(alts, s, Lang(older)) <==>
             Valid(T, Emits(older), sc, s)
    ensures var st' := Names(st.present + {key}, st.taken[key := sc]); Inv(T, newer, st') && KeyMeans(T, sc, key, newer)
    ensures Extends(newer, older)
  {
    var st' := Names(st.present + {key}, st.taken[key := sc]);
    AddMeaning(older, newer, key, alts);
    ValidLater(T, sc, older, newer, st);
    forall s ensures Derives(newer, key, s) <==> Valid(T, Emits(newer), sc, s) {
      assert Derives(newer, key, s) <==> MatchesAlts(alts, s, Lang(older));
      assert MatchesAlts(alts, s, Lang(older)) <==> Valid(T, Emits(older), sc, s);
    }
    TakeShaped(T, older, newer, st, st', key);
    TakenLater(T, older, newer, st, st.(present := st'.present));
    KindsMore(T, sc, st.present, st'.present);
    forall k | k in st'.taken ensures KindsIn(T, st'.taken[k], st'.present) && KeyMeans(T, st'.taken[k], k, newer) {
      if k != key { assert KeyMeans(T, st.taken[k], k, newer); }
    }
  }

  lemma TakeShaped(T: Builtins, older: RuleMap, newer: RuleMap, st: Names, st': Names, key: string)
    requires Shaped(T, older, st) && key !in older && key in T.rules && Extends(newer, older)
             && newer.Keys == older.Keys + {key}
    requires '-' in key && !BeginsWithClass(newer[key])
    requires st'.present == st.present + {key} && st'.taken.Keys == st.taken.Keys + {key}
    ensures Shaped(T, newer, st')
  {
    forall k | k in st'.present ensures HasBody(T, newer, st', k) {
      if k != key { assert HasBody(T, older, st, k); }
    }
  }

  // ---------------------------------------------------------------------------------------------
  // Adding built-in rules with what they refer to
  // ---------------------------------------------------------------------------------------------

  /** The rules of `newer` that `older` has not are complete: their references are defined. */
  predicate NewOnesComplete(newer: RuleMap, older: RuleMap) {
    forall k :: k in newer && k !in older ==> ToksRefsIn(newer[k], newer.Keys)
  }

  /** `newer` came from `older` by adding built-in rules, with all they refer to, and perhaps a rule n. */
  predicate Grown(T: Builtins, newer: RuleMap, older: RuleMap, n: set<string>) {
    Extends(newer, older) && NewOnesComplete(newer, older) && newer.Keys <= older.Keys + T.rules.Keys + n
  }

  lemma GrownTransitive(T: Builtins, a: RuleMap, b: RuleMap, c: RuleMap)
    requires Grown(T, b, a, {}) && Grown(T, c, b, {})
    ensures Grown(T, c, a, {})
  {
  }

  lemma GrownWith(T: Builtins, older: RuleMap, added: RuleMap, newer: RuleMap, n: string)
    requires Extends(added, older) && added.Keys == older.Keys + {n} && Grown(T, newer, added, {})
    requires ToksRefsIn(newer[n], newer.Keys)
    ensures Grown(T, newer, older, {n})
  {
  }

  lemma GrownKeepsInv(T: Builtins, older: RuleMap, newer: RuleMap, st: Names, st': Names, n: string)
    requires Inv(T, older, st) && Grown(T, newer, older, {n}) && Shaped(T, newer, st') && AllParse(newer)
    requires st'.taken == st.taken && st.present <= st'.present
    ensures Inv(T, newer, st')
  {
    forall n | n in newer ensures ToksRefsIn(newer[n], newer.Keys) {
      if n in older { assert ToksRefsIn(older[n], older.Keys); }
    }
    TakenLater(T, older, newer, st, st');
  }

  lemma ContentParses(T: Builtins, kind: string)
    requires kind in T.rules
    ensures Parse(Content(T, kind)) == Some(T.rules[kind].body) && Esc(kind) == kind && kind != "root"
    ensures forall i :: 0 <= i < |T.rules[kind].deps| ==> T.rules[kind].deps[i] in T.rules
  {
    assert GoodRule(T, kind);
    ShowThenParse(T.rules[kind].body);
  }

  /** A built-in body means the same under whatever name it is stored. */
  lemma ContentMeaning(T: Builtins, rules: RuleMap, n: string, kind: string)
    requires kind in T.rules && n in rules && rules[n] == Content(T, kind)
    ensures forall s :: Derives(rules, n, s) <==> MatchesAlts(T.rules[kind].body, s, Lang(rules))
  {
    ContentParses(T, kind);
    forall s ensures Derives(rules, n, s) <==> MatchesAlts(T.rules[kind].body, s, Lang(rules)) {
      LangFixpoint(rules, n, s);
    }
  }

  /** Storing a built-in body under its own name, under a numbered one if the name is taken, or as the root. */
  lemma StoreShaped(T: Builtins, older: RuleMap, newer: RuleMap, st: Names, key: string, kind: string)
    requires Shaped(T, older, st) && AllParse(older) && kind in T.rules && newer == older[key := Content(T, kind)]
    requires (key in older ==> older[key] == Content(T, kind)) && (key == kind || key !in T.rules)
    ensures Shaped(T, newer, if key == kind then st.(present := st.present + {kind}) else st)
    ensures AllParse(newer) && Extends(newer, older)
  {
    ContentParses(T, kind);
    var st' := if key == kind then st.(present := st.present + {kind}) else st;
    forall k | k in st'.present ensures HasBody(T, newer, st', k) {
      if k in st.present {
        assert HasBody(T, older, st, k);
        TakenIsOther(T, older, st, k);
      }
    }
  }

  /** Under its own name a built-in body is stored exactly if the name is not taken. */
  lemma StoredUnder(T: Builtins, rules: RuleMap, st: Names, kind: string)
    requires Shaped(T, rules, st) && kind in T.rules
    ensures kind in rules && rules[kind] != Content(T, kind) <==> kind in st.taken
  {
    if kind in rules { TakenIsOther(T, rules, st, kind); }
  }
}
