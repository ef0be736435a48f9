/** Chains that keep the order of the candidates and pick the first of the best: for them the late check of the grammar
    is enough. */
module GreedyChains {
  import opened Options
  import opened Sampling

  /** A candidate token; one that has been ruled out has no log-odds. */
  datatype Candidate = Candidate(id: Token, logit: Option<real>)

  type Candidates = seq<Candidate>

  predicate Above(a: Candidate, b: Candidate) {
    a.logit.Some? && (b.logit.Some? ==> a.logit.value > b.logit.value)
  }

  /** Candidate i is the first of the best. */
  predicate IsBest(cs: Candidates, i: nat) {
    && i < |cs|
    && (forall j :: 0 <= j < i ==> Above(cs[i], cs[j]))
    && (forall j :: 0 <= j < |cs| ==> !Above(cs[j], cs[i]))
  }

  function Best(cs: Candidates): (i: nat)
    requires cs != []
    ensures IsBest(cs, i)
  {
    var n := |cs| - 1;
    if n == 0 then 0
    else
      var i := Best(cs[..n]);
      BestSoFar(cs, i);
      if Above(cs[n], cs[i]) then n else i
  }

  lemma BestSoFar(cs: Candidates, i: nat)
    requires |cs| > 1 && IsBest(cs[..|cs| - 1], i)
    ensures i < |cs| - 1 && forall j :: 0 <= j < |cs| - 1 ==> cs[..|cs| - 1][j] == cs[j]
    ensures IsBest(cs, if Above(cs[|cs| - 1], cs[i]) then |cs| - 1 else i)
  {
    var front, n := cs[..|cs| - 1], |cs| - 1;
    assert forall j :: 0 <= j < n ==> front[j] == cs[j];
    if Above(cs[n], cs[i]) {
      forall j | 0 <= j < n ensures Above(cs[n], cs[j]) { assert !Above(front[j], front[i]); }
    }
  }

  lemma BestIsOne(cs: Candidates, i: nat, j: nat)
    requires IsBest(cs, i) && IsBest(cs, j)
    ensures i == j
  {
    var a, b := cs[i], cs[j];
    assert !Above(a, b) && !Above(b, a);
  }

  /** What the grammar does: the tokens it does not allow are ruled out. */
  function Restrict(allowed: Token -> bool, cs: Candidates): (r: Candidates)
    ensures |r| == |cs|
    ensures forall i :: 0 <= i < |cs| ==> r[i] == if allowed(cs[i].id) then cs[i] else Candidate(cs[i].id, None)
  {
    seq(|cs|, i requires 0 <= i < |cs| => if allowed(cs[i].id) then cs[i] else Candidate(cs[i].id, None))
  }

  /** What the chain does: it changes the log-odds, as a temperature does. */
  function Rescale(scale: real -> real, cs: Candidates): (r: Candidates)
    ensures |r| == |cs|
    ensures forall i :: 0 <= i < |cs| ==> r[i].id == cs[i].id && r[i].logit.Some? == cs[i].logit.Some?
    ensures forall i :: 0 <= i < |cs| && cs[i].logit.Some? ==> r[i].logit.value == scale(cs[i].logit.value)
  {
    seq(|cs|, i requires 0 <= i < |cs| =>
      Candidate(cs[i].id, if cs[i].logit.Some? then Some(scale(cs[i].logit.value)) else None))
  }

  function Pick(cs: Candidates): Token { if cs == [] then -1 else cs[Best(cs)].id }

  ghost predicate Increasing(scale: real -> real) { forall x: real, y: real :: x < y ==> scale(x) < scale(y) }

  /** A sampler whose chain rescales and picks the best. */
  function Greedy<G, C>(allows: (G, Token) -> bool, acceptGrammar: (G, Token) -> G, acceptChain: (C, Token) -> C,
                        scale: real -> real): Rules<G, C, Candidates> {
    Rules((g, cs) => (g, Restrict(t => allows(g, t), cs)),
          (c, cs) => (c, Rescale(scale, cs)),
          cs => Pick(cs),
          id => [Candidate(id, Some(1.0))],
          (cs: Candidates) => cs != [] && cs[0].logit.Some?,
          acceptGrammar, acceptChain)
  }

  lemma BestRescaled(scale: real -> real, cs: Candidates, i: nat)
    requires Increasing(scale) && IsBest(cs, i)
    ensures IsBest(Rescale(scale, cs), i)
  {
    var r := Rescale(scale, cs);
    forall a: nat, b: nat | a < |cs| && b < |cs| ensures Above(r[a], r[b]) <==> Above(cs[a], cs[b]) {
      OrderKept(scale, cs, a, b);
    }
  }

  lemma OrderKept(scale: real -> real, cs: Candidates, a: nat, b: nat)
    requires Increasing(scale) && a < |cs| && b < |cs|
    ensures Above(Rescale(scale, cs)[a], Rescale(scale, cs)[b]) <==> Above(cs[a], cs[b])
  {
    if cs[a].logit.Some? && cs[b].logit.Some? {
      var x, y := cs[a].logit.value, cs[b].logit.value;
      if x > y {
        assert scale(y) < scale(x);
      } else if x < y {
        assert scale(x) < scale(y);
      }
    }
  }

  /** If the best is allowed, it stays the best. */
  lemma BestRestricted(allowed: Token -> bool, cs: Candidates, i: nat)
    requires IsBest(cs, i) && allowed(cs[i].id)
    ensures IsBest(Restrict(allowed, cs), i)
  {
  }

  lemma PickIs(cs: Candidates, i: nat)
    requires IsBest(cs, i)
    ensures Pick(cs) == cs[i].id
  {
    BestIsOne(cs, i, Best(cs));
  }

  lemma PickKept(allowed: Token -> bool, scale: real -> real, cs: Candidates)
    requires Increasing(scale) && cs != [] && allowed(Pick(Rescale(scale, cs)))
    ensures Pick(Rescale(scale, Restrict(allowed, cs))) == Pick(Rescale(scale, cs))
  {
    var i := Best(cs);
    BestRescaled(scale, cs, i);
    PickIs(Rescale(scale, cs), i);
    BestRestricted(allowed, cs, i);
    BestRescaled(scale, Restrict(allowed, cs), i);
    PickIs(Rescale(scale, Restrict(allowed, cs)), i);
  }

  /** For such a sampler, checking the grammar late gives the tokens and states of checking it first. */
  lemma GreedyIsStable<G(!new), C(!new)>(allows: (G, Token) -> bool, acceptGrammar: (G, Token) -> G,
                                         acceptChain: (C, Token) -> C, scale: real -> real, st: State<G, C>,
                                         cs: Candidates)
    requires Increasing(scale)
    ensures var rules := Greedy(allows, acceptGrammar, acceptChain, scale);
            Sampled(rules, st, cs, false) == Sampled(rules, st, cs, true)
  {
    var rules := Greedy(allows, acceptGrammar, acceptChain, scale);
    forall g, c, l ensures KeepsPick(rules, g, c, l) {
      if l == [] {
        assert Restrict(t => allows(g, t), l) == [];
      } else if allows(g, Pick(Rescale(scale, l))) {
        PickKept(t => allows(g, t), scale, l);
      }
    }
    LateCheckIsEnough(rules, st, cs);
  }

  /** Candidate i is the first of the best among those that the grammar allows. */
  predicate IsBestAllowed(allowed: Token -> bool, cs: Candidates, i: nat) {
    && i < |cs| && allowed(cs[i].id) && cs[i].logit.Some?
    && (forall j :: 0 <= j < |cs| && allowed(cs[j].id) && cs[j].logit.Some? ==>
                      cs[j].logit.value <= cs[i].logit.value)
    && (forall j :: 0 <= j < i && allowed(cs[j].id) && cs[j].logit.Some? ==> cs[j].logit.value < cs[i].logit.value)
  }

  lemma BestOfRestricted(allowed: Token -> bool, cs: Candidates, k: nat)
    requires k < |cs| && allowed(cs[k].id) && cs[k].logit.Some?
    ensures IsBestAllowed(allowed, cs, Best(Restrict(allowed, cs)))
  {
    var rs := Restrict(allowed, cs);
    var i := Best(rs);
    assert rs[k] == cs[k] && !Above(rs[k], rs[i]);
    forall j | 0 <= j < |cs| && allowed(cs[j].id) && cs[j].logit.Some?
      ensures cs[j].logit.value <= cs[i].logit.value && (j < i ==> cs[j].logit.value < cs[i].logit.value)
    {
      assert rs[j] == cs[j] && !Above(rs[j], rs[i]) && (j < i ==> Above(rs[i], rs[j]));
    }
  }

  /** Whether the grammar comes first or late, such a sampler takes the best of the candidates that it allows. */
  lemma BestAllowedIsSampled<G(!new), C(!new)>(allows: (G, Token) -> bool, acceptGrammar: (G, Token) -> G,
                                               acceptChain: (C, Token) -> C, scale: real -> real, st: State<G, C>,
                                               cs: Candidates, k: nat, grammarFirst: bool) returns (i: nat)
    requires Increasing(scale) && k < |cs| && allows(st.grammar, cs[k].id) && cs[k].logit.Some?
    ensures IsBestAllowed(id => allows(st.grammar, id), cs, i)
    ensures Sampled(Greedy(allows, acceptGrammar, acceptChain, scale), st, cs, grammarFirst).0 == cs[i].id
  {
    var allowed := t => allows(st.grammar, t);
    var rs := Restrict(allowed, cs);
    i := Best(rs);
    BestOfRestricted(allowed, cs, k);
    BestRescaled(scale, rs, i);
    PickIs(Rescale(scale, rs), i);
    GreedyIsStable(allows, acceptGrammar, acceptChain, scale, st, cs);
  }

  /** The list has a candidate with this number that has not been ruled out. */
  predicate InPlay(cs: Candidates, id: Token) { exists i :: 0 <= i < |cs| && cs[i].id == id && cs[i].logit.Some? }

  /** Such a sampler rules out what the grammar does not allow, and decoding with it keeps to the grammar. */
  lemma GreedyFilters<G(!new), C(!new)>(allows: (G, Token) -> bool, acceptGrammar: (G, Token) -> G,
                                        acceptChain: (C, Token) -> C, scale: real -> real)
    requires Increasing(scale)
    ensures Filters(Greedy(allows, acceptGrammar, acceptChain, scale), InPlay)
  {
    var rules := Greedy(allows, acceptGrammar, acceptChain, scale);
    forall g: G, l: Candidates, id: Token
      ensures InPlay(rules.applyGrammar(g, l).1, id) <==> InPlay(l, id) && Allowed(rules, g, id)
    {
      var kept := Restrict(t => allows(g, t), l);
      if i :| 0 <= i < |l| && l[i].id == id && l[i].logit.Some? { assert kept[i].id == id; }
      if i :| 0 <= i < |kept| && kept[i].id == id && kept[i].logit.Some? { assert l[i].id == id; }
    }
    forall c, l ensures SelectsAlive(rules, InPlay, c, l) {
      if id :| InPlay(l, id) { PickInPlay(scale, l, id); }
    }
  }

  lemma PickInPlay(scale: real -> real, cs: Candidates, id: Token)
    requires Increasing(scale) && InPlay(cs, id)
    ensures InPlay(cs, Pick(Rescale(scale, cs)))
  {
    var i :| 0 <= i < |cs| && cs[i].id == id && cs[i].logit.Some?;
    var k := Best(cs);
    assert !Above(cs[i], cs[k]);
    BestRescaled(scale, cs, k);
    PickIs(Rescale(scale, cs), k);
    assert cs[k].logit.Some?;
  }
}
