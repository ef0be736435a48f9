/** A grammar: a map from rule names to rule bodies, and the language each name denotes.

    `Lang(rules)` is the least interpretation closed under the rules. The facts that matter to a
    converter that only ever adds rules: it is a fixpoint (`LangFixpoint`), and what a name denotes does
    not change when rules are added to a map in which every reference is defined (`LangStable`). */
module Rules {
  import opened Options
  import opened Gbnf

  type RuleMap = map<string, seq<Tok>>

  ghost predicate Produces(ts: seq<Tok>, s: string, I: Interp) {
    match Parse(ts)
    case Some(alts) => MatchesAlts(alts, s, I)
    case None => false
  }

  /** What can be derived in k unfoldings of rule names. */
  ghost function Level(rules: RuleMap, k: nat): Interp {
    if k == 0 then iset{}
    else iset p: (string, string) | p.0 in rules && Produces(rules[p.0], p.1, Level(rules, k - 1))
  }

  ghost predicate AtSomeLevel(rules: RuleMap, p: (string, string)) {
    exists k: nat :: p in Level(rules, k)
  }

  ghost function Lang(rules: RuleMap): Interp {
    iset p: (string, string) | AtSomeLevel(rules, p)
  }

  ghost predicate Derives(rules: RuleMap, name: string, s: string) {
    (name, s) in Lang(rules)
  }

  // ---------------------------------------------------------------------------------------------
  // Monotonicity
  // ---------------------------------------------------------------------------------------------

  lemma {:induction false} MatchesMono(x: Sym, s: string, I: Interp, J: Interp)
    requires I <= J && Matches(x, s, I)
    ensures Matches(x, s, J)
    decreases x, 0, 0
  {
    match x
    case Group(alts) => AltsMono(alts, s, I, J);
    case Rep(y, lo, hi) =>
      var k: nat :| RepCount(lo, hi, k) && MatchesTimes(y, k, s, I);
      TimesMono(y, k, s, I, J);
    case _ =>
  }

  lemma {:induction false} TimesMono(y: Sym, k: nat, s: string, I: Interp, J: Interp)
    requires I <= J && MatchesTimes(y, k, s, I)
    ensures MatchesTimes(y, k, s, J)
    decreases y, 1, k
  {
    if k > 0 {
      var i :| 0 <= i <= |s| && Matches(y, s[..i], I) && MatchesTimes(y, k - 1, s[i..], I);
      MatchesMono(y, s[..i], I, J);
      TimesMono(y, k - 1, s[i..], I, J);
      OneTimeMore(y, k, s, i, J);
    }
  }

  lemma OneTimeMore(y: Sym, k: nat, s: string, i: nat, J: Interp)
    requires k > 0 && i <= |s| && Matches(y, s[..i], J) && MatchesTimes(y, k - 1, s[i..], J)
    ensures MatchesTimes(y, k, s, J)
  {
  }

  lemma {:induction false} SymsMono(xs: seq<Sym>, s: string, I: Interp, J: Interp)
    requires I <= J && MatchesSyms(xs, s, I)
    ensures MatchesSyms(xs, s, J)
    decreases xs, 0, 0
  {
    if xs != [] {
      var i :| 0 <= i <= |s| && Matches(xs[0], s[..i], I) && MatchesSyms(xs[1..], s[i..], I);
      MatchesMono(xs[0], s[..i], I, J);
      SymsMono(xs[1..], s[i..], I, J);
    }
  }

  lemma {:induction false} AltsMono(alts: seq<Body>, s: string, I: Interp, J: Interp)
    requires I <= J && MatchesAlts(alts, s, I)
    ensures MatchesAlts(alts, s, J)
    decreases alts, 0, 0
  {
    var j :| 0 <= j < |alts| && MatchesSyms(alts[j].syms, s, I);
    SymsMono(alts[j].syms, s, I, J);
  }

  lemma ProducesMono(ts: seq<Tok>, s: string, I: Interp, J: Interp)
    requires I <= J && Produces(ts, s, I)
    ensures Produces(ts, s, J)
  {
    AltsMono(Parse(ts).value, s, I, J);
  }

  lemma {:induction false} LevelStep(rules: RuleMap, k: nat)
    ensures Level(rules, k) <= Level(rules, k + 1)
  {
    if k > 0 {
      LevelStep(rules, k - 1);
      forall p | p in Level(rules, k) ensures p in Level(rules, k + 1) {
        ProducesMono(rules[p.0], p.1, Level(rules, k - 1), Level(rules, k));
      }
    }
  }

  lemma {:induction false} LevelMono(rules: RuleMap, j: nat, k: nat)
    requires j <= k
    ensures Level(rules, j) <= Level(rules, k)
    decreases k
  {
    if j < k {
      LevelMono(rules, j, k - 1);
      LevelStep(rules, k - 1);
    }
  }

  lemma LevelBelowLang(rules: RuleMap, k: nat)
    ensures Level(rules, k) <= Lang(rules)
  {
  }

  // ---------------------------------------------------------------------------------------------
  // A match under the limit is a match at some level
  // ---------------------------------------------------------------------------------------------

  function Max(a: nat, b: nat): nat { if a < b then b else a }

  lemma {:induction false} MatchesAtLevel(x: Sym, s: string, rules: RuleMap) returns (k: nat)
    requires Matches(x, s, Lang(rules))
    ensures Matches(x, s, Level(rules, k))
    decreases x, 0, 0
  {
    k := 0;
    match x
    case Ref(n) => k :| (n, s) in Level(rules, k);
    case Group(alts) => k := AltsAtLevel(alts, s, rules);
    case Rep(y, lo, hi) =>
      var c: nat :| RepCount(lo, hi, c) && MatchesTimes(y, c, s, Lang(rules));
      k := TimesAtLevel(y, c, s, rules);
    case _ =>
  }

  lemma {:induction false} TimesAtLevel(y: Sym, c: nat, s: string, rules: RuleMap) returns (k: nat)
    requires MatchesTimes(y, c, s, Lang(rules))
    ensures MatchesTimes(y, c, s, Level(rules, k))
    decreases y, 1, c
  {
    k := 0;
    if c > 0 {
      var i :| 0 <= i <= |s| && Matches(y, s[..i], Lang(rules)) && MatchesTimes(y, c - 1, s[i..], Lang(rules));
      var a := MatchesAtLevel(y, s[..i], rules);
      var b := TimesAtLevel(y, c - 1, s[i..], rules);
      k := Max(a, b);
      LevelMono(rules, a, k);
      LevelMono(rules, b, k);
      MatchesMono(y, s[..i], Level(rules, a), Level(rules, k));
      TimesMono(y, c - 1, s[i..], Level(rules, b), Level(rules, k));
    }
  }

  lemma {:induction false} SymsAtLevel(xs: seq<Sym>, s: string, rules: RuleMap) returns (k: nat)
    requires MatchesSyms(xs, s, Lang(rules))
    ensures MatchesSyms(xs, s, Level(rules, k))
    decreases xs, 0, 0
  {
    k := 0;
    if xs != [] {
      var i :| 0 <= i <= |s| && Matches(xs[0], s[..i], Lang(rules)) && MatchesSyms(xs[1..], s[i..], Lang(rules));
      var a := MatchesAtLevel(xs[0], s[..i], rules);
      var b := SymsAtLevel(xs[1..], s[i..], rules);
      k := Max(a, b);
      LevelMono(rules, a, k);
      LevelMono(rules, b, k);
      MatchesMono(xs[0], s[..i], Level(rules, a), Level(rules, k));
      SymsMono(xs[1..], s[i..], Level(rules, b), Level(rules, k));
    }
  }

  lemma {:induction false} AltsAtLevel(alts: seq<Body>, s: string, rules: RuleMap) returns (k: nat)
    requires MatchesAlts(alts, s, Lang(rules))
    ensures MatchesAlts(alts, s, Level(rules, k))
    decreases alts, 0, 0
  {
    var j :| 0 <= j < |alts| && MatchesSyms(alts[j].syms, s, Lang(rules));
    k := SymsAtLevel(alts[j].syms, s, rules);
  }

  /** A name derives exactly what its body accepts when names mean what they derive. */
  lemma LangFixpoint(rules: RuleMap, name: string, s: string)
    ensures Derives(rules, name, s) <==> name in rules && Produces(rules[name], s, Lang(rules))
  {
    if Derives(rules, name, s) {
      var k: nat :| (name, s) in Level(rules, k);
      LevelBelowLang(rules, k - 1);
      ProducesMono(rules[name], s, Level(rules, k - 1), Lang(rules));
    }
    if name in rules && Produces(rules[name], s, Lang(rules)) {
      var k := AltsAtLevel(Parse(rules[name]).value, s, rules);
      assert (name, s) in Level(rules, k + 1);
    }
  }

  // ---------------------------------------------------------------------------------------------
  // Only the referenced names matter
  // ---------------------------------------------------------------------------------------------

  predicate RefsIn(x: Sym, N: set<string>)
    decreases x, 0
  {
    match x
    case Ref(n) => n in N
    case Group(alts) => AltsRefsIn(alts, N)
    case Rep(y, _, _) => RefsIn(y, N)
    case _ => true
  }

  predicate SymsRefsIn(xs: seq<Sym>, N: set<string>)
    decreases xs, 0
  {
    forall i :: 0 <= i < |xs| ==> RefsIn(xs[i], N)
  }

  predicate AltsRefsIn(alts: seq<Body>, N: set<string>)
    decreases alts, 0
  {
    forall i :: 0 <= i < |alts| ==> SymsRefsIn(alts[i].syms, N)
  }

  predicate ToksRefsIn(ts: seq<Tok>, N: set<string>) {
    forall i :: 0 <= i < |ts| && ts[i].TRef? ==> ts[i].name in N
  }

  lemma RefsWiden(alts: seq<Body>, N: set<string>, M: set<string>)
    requires AltsRefsIn(alts, N) && N <= M
    ensures AltsRefsIn(alts, M)
    decreases alts, 0
  {
    forall i | 0 <= i < |alts| ensures SymsRefsIn(alts[i].syms, M) { SymsRefsWiden(alts[i].syms, N, M); }
  }

  lemma SymsRefsWiden(xs: seq<Sym>, N: set<string>, M: set<string>)
    requires SymsRefsIn(xs, N) && N <= M
    ensures SymsRefsIn(xs, M)
    decreases xs, 0
  {
    forall i | 0 <= i < |xs| ensures RefsIn(xs[i], M) { RefWiden(xs[i], N, M); }
  }

  lemma RefWiden(x: Sym, N: set<string>, M: set<string>)
    requires RefsIn(x, N) && N <= M
    ensures RefsIn(x, M)
    decreases x, 0
  {
    match x
    case Group(alts) => RefsWiden(alts, N, M);
    case Rep(y, _, _) => RefWiden(y, N, M);
    case _ =>
  }

  lemma {:induction false} ParseSymsRefs(ts: seq<Tok>, acc: seq<Sym>, N: set<string>)
    requires ToksRefsIn(ts, N) && SymsRefsIn(acc, N)
    ensures var r := ParseSyms(ts, acc); r.Some? ==> SymsRefsIn(r.value.0, N) && ToksRefsIn(r.value.1, N)
    decreases |ts|, 0
  {
    if ts == [] || ts[0].TBar? || ts[0].TClose? {
    } else if ts[0].TOpen? {
      ParseAltsRefs(ts[1..], N);
      var r := ParseAlts(ts[1..]);
      if r.Some? && r.value.1 != [] && r.value.1[0].TClose? {
        ParseSymsRefs(r.value.1[1..], acc + [Group(r.value.0)], N);
      }
    } else if ts[0].TRep? {
      if acc != [] && ts[0].lo >= 0 && (ts[0].hi.Some? ==> ts[0].hi.value >= 0) {
        var h: Option<nat> := match ts[0].hi case None => None case Some(v) => Some(v);
        ParseSymsRefs(ts[1..], acc[..|acc| - 1] + [Rep(acc[|acc| - 1], ts[0].lo, h)], N);
      }
    } else {
      assert ts[0].TRef? ==> ts[0].name in N;
      var x := match ts[0] case TLit(t) => Lit(t) case TClass(b) => Class(b) case TRef(n) => Ref(n);
      ParseSymsRefs(ts[1..], acc + [x], N);
    }
  }

  lemma {:induction false} ParseAltsRefs(ts: seq<Tok>, N: set<string>)
    requires ToksRefsIn(ts, N)
    ensures var r := ParseAlts(ts); r.Some? ==> AltsRefsIn(r.value.0, N) && ToksRefsIn(r.value.1, N)
    decreases |ts|, 1
  {
    ParseSymsRefs(ts, [], N);
    var r := ParseSyms(ts, []);
    if r.Some? && r.value.1 != [] && r.value.1[0].TBar? {
      ParseAltsRefs(r.value.1[1..], N);
    }
  }

  lemma {:induction false} ShowRefs(x: Sym, N: set<string>)
    requires RefsIn(x, N)
    ensures ToksRefsIn(Show(x), N)
    decreases x, 0
  {
    match x
    case Group(alts) => ShowAltsRefs(alts, N);
    case Rep(y, _, _) => ShowRefs(y, N);
    case _ =>
  }

  lemma {:induction false} ShowSymsRefs(xs: seq<Sym>, N: set<string>)
    requires SymsRefsIn(xs, N)
    ensures ToksRefsIn(ShowSyms(xs), N)
    decreases xs, 0
  {
    if xs != [] {
      ShowRefs(xs[0], N);
      ShowSymsRefs(xs[1..], N);
    }
  }

  lemma {:induction false} ShowAltsRefs(alts: seq<Body>, N: set<string>)
    requires AltsRefsIn(alts, N)
    ensures ToksRefsIn(ShowAlts(alts), N)
    decreases alts, 0
  {
    if alts != [] {
      ShowSymsRefs(alts[0].syms, N);
      ShowAltsRefs(alts[1..], N);
    }
  }

  ghost predicate AgreeOn(I: Interp, J: Interp, N: set<string>) {
    forall n, s :: n in N ==> ((n, s) in I <==> (n, s) in J)
  }

  lemma {:induction false} MatchesAgree(x: Sym, s: string, I: Interp, J: Interp, N: set<string>)
    requires RefsIn(x, N) && AgreeOn(I, J, N) && Matches(x, s, I)
    ensures Matches(x, s, J)
    decreases x, 0, 0
  {
    match x
    case Group(alts) => AltsAgree(alts, s, I, J, N);
    case Rep(y, lo, hi) =>
      var k: nat :| RepCount(lo, hi, k) && MatchesTimes(y, k, s, I);
      TimesAgree(y, k, s, I, J, N);
    case _ =>
  }

  lemma {:induction false} TimesAgree(y: Sym, k: nat, s: string, I: Interp, J: Interp, N: set<string>)
    requires RefsIn(y, N) && AgreeOn(I, J, N) && MatchesTimes(y, k, s, I)
    ensures MatchesTimes(y, k, s, J)
    decreases y, 1, k
  {
    if k > 0 {
      var i :| 0 <= i <= |s| && Matches(y, s[..i], I) && MatchesTimes(y, k - 1, s[i..], I);
      MatchesAgree(y, s[..i], I, J, N);
      TimesAgree(y, k - 1, s[i..], I, J, N);
    }
  }

  lemma {:induction false} SymsAgree(xs: seq<Sym>, s: string, I: Interp, J: Interp, N: set<string>)
    requires SymsRefsIn(xs, N) && AgreeOn(I, J, N) && MatchesSyms(xs, s, I)
    ensures MatchesSyms(xs, s, J)
    decreases xs, 0, 0
  {
    if xs != [] {
      var i :| 0 <= i <= |s| && Matches(xs[0], s[..i], I) && MatchesSyms(xs[1..], s[i..], I);
      MatchesAgree(xs[0], s[..i], I, J, N);
      SymsAgree(xs[1..], s[i..], I, J, N);
    }
  }

  lemma {:induction false} AltsAgree(alts: seq<Body>, s: string, I: Interp, J: Interp, N: set<string>)
    requires AltsRefsIn(alts, N) && AgreeOn(I, J, N) && MatchesAlts(alts, s, I)
    ensures MatchesAlts(alts, s, J)
    decreases alts, 0, 0
  {
    var j :| 0 <= j < |alts| && MatchesSyms(alts[j].syms, s, I);
    SymsAgree(alts[j].syms, s, I, J, N);
  }

  lemma ProducesAgree(ts: seq<Tok>, s: string, I: Interp, J: Interp, N: set<string>)
    requires ToksRefsIn(ts, N) && AgreeOn(I, J, N)
    ensures Produces(ts, s, I) <==> Produces(ts, s, J)
  {
    ParseAltsRefs(ts, N);
    if Produces(ts, s, I) { AltsAgree(Parse(ts).value, s, I, J, N); }
    if Produces(ts, s, J) { AltsAgree(Parse(ts).value, s, J, I, N); }
  }

  // ---------------------------------------------------------------------------------------------
  // Adding rules
  // ---------------------------------------------------------------------------------------------

  /** Every name in N is defined, by a body that refers only to names in N. */
  predicate ClosedOn(rules: RuleMap, N: set<string>) {
    N <= rules.Keys && forall n {:trigger ToksRefsIn(rules[n], N)} :: n in N ==> ToksRefsIn(rules[n], N)
  }

  predicate Closed(rules: RuleMap) { ClosedOn(rules, rules.Keys) }

  /** No name of the old map is rebound. */
  predicate Extends(newer: RuleMap, older: RuleMap) {
    older.Keys <= newer.Keys && forall n :: n in older ==> newer[n] == older[n]
  }

  predicate SameOn(a: RuleMap, b: RuleMap, N: set<string>) {
    N <= a.Keys && N <= b.Keys && forall n :: n in N ==> a[n] == b[n]
  }

  lemma {:induction false} LevelSame(a: RuleMap, b: RuleMap, N: set<string>, k: nat)
    requires ClosedOn(a, N) && SameOn(a, b, N)
    ensures AgreeOn(Level(a, k), Level(b, k), N)
  {
    if k > 0 {
      LevelSame(a, b, N, k - 1);
      forall n, s | n in N
        ensures (n, s) in Level(a, k) <==> (n, s) in Level(b, k)
      {
        ProducesAgree(a[n], s, Level(a, k - 1), Level(b, k - 1), N);
      }
    }
  }

  /** Two maps that agree on a closed set of names give those names the same languages. */
  lemma LangSame(a: RuleMap, b: RuleMap, N: set<string>)
    requires ClosedOn(a, N) && SameOn(a, b, N)
    ensures AgreeOn(Lang(a), Lang(b), N)
  {
    forall n, s | n in N
      ensures (n, s) in Lang(a) <==> (n, s) in Lang(b)
    {
      if (n, s) in Lang(a) {
        var k: nat :| (n, s) in Level(a, k);
        LevelSame(a, b, N, k);
      }
      if (n, s) in Lang(b) {
        var k: nat :| (n, s) in Level(b, k);
        LevelSame(a, b, N, k);
      }
    }
  }

  /** Adding rules to a closed map changes the language of no name already there. */
  lemma LangStable(older: RuleMap, newer: RuleMap)
    requires Closed(older) && Extends(newer, older)
    ensures AgreeOn(Lang(older), Lang(newer), older.Keys)
  {
    LangSame(older, newer, older.Keys);
  }
}
