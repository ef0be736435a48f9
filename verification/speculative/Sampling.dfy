/** The target side: sampling, accepting, and checking a draft against the target model. */
module Sampling {
  import opened RingBuffers

  type Token = int

  /** The opaque parts: what the grammar sampler and the sampler chain do to a candidate list `L` and to their own
      states, and which candidate is selected. Applying a sampler may change its state. */
  datatype Rules<!G, !C, !L> = Rules(
    applyGrammar: (G, L) -> (G, L),
    applyChain: (C, L) -> (C, L),
    selected: L -> Token,
    single: Token -> L,      // a list of one candidate with log-odds 1
    possible: L -> bool,     // the first candidate has not been ruled out
    acceptGrammar: (G, Token) -> G,
    acceptChain: (C, Token) -> C)

  /** The state of a sampler: grammar, chain and the most recent tokens. */
  datatype State<G, C> = State(grammar: G, chain: C, prev: seq<Token>)

  // ---------------------------------------------------------------------------------------------
  // One token at a time
  // ---------------------------------------------------------------------------------------------

  function Picked<G, C, L>(rules: Rules<G, C, L>, st: State<G, C>, logits: L): (r: (Token, State<G, C>)) {
    var (chain, cur) := rules.applyChain(st.chain, logits);
    (rules.selected(cur), st.(chain := chain))
  }

  function PickedByGrammar<G, C, L>(rules: Rules<G, C, L>, st: State<G, C>, logits: L): (r: (Token, State<G, C>)) {
    var (grammar, cur) := rules.applyGrammar(st.grammar, logits);
    Picked(rules, st.(grammar := grammar), cur)
  }

  /** With `grammarFirst` the chain only sees what the grammar allows. Otherwise the grammar checks the pick, and only
      a rejected pick is repeated on the allowed candidates. */
  function Sampled<G, C, L>(rules: Rules<G, C, L>, st: State<G, C>, logits: L, grammarFirst: bool)
    : (Token, State<G, C>)
  {
    if grammarFirst then PickedByGrammar(rules, st, logits)
    else
      var (id, st1) := Picked(rules, st, logits);
      var (grammar, one) := rules.applyGrammar(st1.grammar, rules.single(id));
      var st2 := st1.(grammar := grammar);
      if rules.possible(one) then (id, st2) else PickedByGrammar(rules, st2, logits)
  }

  function Accepted<G, C, L>(rules: Rules<G, C, L>, st: State<G, C>, token: Token, acceptGrammar: bool,
                             capacity: nat): State<G, C> {
    State(if acceptGrammar then rules.acceptGrammar(st.grammar, token) else st.grammar,
          rules.acceptChain(st.chain, token),
          LastN(st.prev + [token], capacity))
  }

  /** n times one token is taken behind everything before it. */
  function Repeat<S>(next: (seq<Token>, S) -> (Token, S), text: seq<Token>, st: S, n: nat): (r: (seq<Token>, S))
    ensures |r.0| == n
    decreases n
  {
    if n == 0 then ([], st)
    else
      var before := Repeat(next, text, st, n - 1);
      var one := next(text + before.0, before.1);
      (before.0 + [one.0], one.1)
  }

  /** Decoding in two parts is decoding at once. */
  lemma {:induction false} RepeatConcat<S>(next: (seq<Token>, S) -> (Token, S), text: seq<Token>, st: S, m: nat, n: nat)
    ensures var p := Repeat(next, text, st, m);
            var q := Repeat(next, text + p.0, p.1, n);
            Repeat(next, text, st, m + n) == (p.0 + q.0, q.1)
    decreases n
  {
    var p := Repeat(next, text, st, m);
    if n == 0 {
      assert p.0 + [] == p.0;
    } else {
      RepeatConcat(next, text, st, m, n - 1);
      var q := Repeat(next, text + p.0, p.1, n - 1);
      assert text + (p.0 + q.0) == text + p.0 + q.0;
      var one := next(text + p.0 + q.0, q.1);
      assert p.0 + (q.0 + [one.0]) == p.0 + q.0 + [one.0];
    }
  }

  /** What a sampler does, and the log-odds the target model gives behind a text. */
  datatype Setting<!G, !C, !L> =
    Setting(rules: Rules<G, C, L>, target: seq<Token> -> L, capacity: nat, grammarFirst: bool)
  {
    /** The next token and the state after accepting it. */
    function Next(text: seq<Token>, st: State<G, C>): (Token, State<G, C>) {
      var r := Sampled(rules, st, target(text), grammarFirst);
      (r.0, Accepted(rules, r.1, r.0, true, capacity))
    }

    /** Plain decoding. */
    function Plain(text: seq<Token>, st: State<G, C>, n: nat): (r: (seq<Token>, State<G, C>)) {
      Repeat(Next, text, st, n)
    }

    /** Going on with plain decoding is plain decoding. */
    lemma PlainOn(text: seq<Token>, st: State<G, C>, a: seq<Token>, b: seq<Token>)
      requires Plain(text, st, |a|).0 == a && Plain(text + a, Plain(text, st, |a|).1, |b|).0 == b
      ensures Plain(text, st, |a + b|) == (a + b, Plain(text + a, Plain(text, st, |a|).1, |b|).1)
    {
      RepeatConcat(Next, text, st, |a|, |b|);
    }

    /** What the target model answers for a draft: output i is computed behind i drafted tokens. */
    function Outputs(text: seq<Token>, draft: seq<Token>): int -> L {
      i => target(text + draft[..if 0 <= i <= |draft| then i else 0])
    }
  }

  // ---------------------------------------------------------------------------------------------
  // The grammar is kept to
  // ---------------------------------------------------------------------------------------------

  /** What the grammar says of one token. */
  predicate Allowed<G, C, L>(rules: Rules<G, C, L>, g: G, id: Token) {
    rules.possible(rules.applyGrammar(g, rules.single(id)).1)
  }

  /** With `alive` for the candidates of a list that have not been ruled out: the grammar rules out what it does not
      allow and nothing else, leaving no trace on itself; the chain selects a candidate that is alive, if there is
      one. */
  ghost predicate Filters<G(!new), C(!new), L(!new)>(rules: Rules<G, C, L>, alive: (L, Token) -> bool) {
    && (forall g, l :: rules.applyGrammar(g, l).0 == g)
    && (forall g, l, id :: alive(rules.applyGrammar(g, l).1, id) <==> alive(l, id) && Allowed(rules, g, id))
    && forall c, l :: SelectsAlive(rules, alive, c, l)
  }

  ghost predicate SelectsAlive<G, C, L>(rules: Rules<G, C, L>, alive: (L, Token) -> bool, c: C, l: L) {
    (exists id :: alive(l, id)) ==> alive(l, rules.selected(rules.applyChain(c, l).1))
  }

  /** Whether the grammar comes first or late, the sampled token is a candidate that the grammar allows, whenever it
      allows any. */
  lemma SampledIsAllowed<G(!new), C(!new), L(!new)>(rules: Rules<G, C, L>, alive: (L, Token) -> bool, st: State<G, C>,
                                                    logits: L, some: Token, grammarFirst: bool)
    requires Filters(rules, alive) && alive(logits, some) && Allowed(rules, st.grammar, some)
    ensures var (id, next) := Sampled(rules, st, logits, grammarFirst);
            alive(logits, id) && Allowed(rules, st.grammar, id) && next.grammar == st.grammar && next.prev == st.prev
  {
    var g := st.grammar;
    var cur := rules.applyGrammar(g, logits).1;
    assert alive(cur, some) && rules.applyGrammar(g, logits).0 == g;
    if grammarFirst {
      assert SelectsAlive(rules, alive, st.chain, cur);
    } else {
      var (chain, picked) := rules.applyChain(st.chain, logits);
      assert SelectsAlive(rules, alive, st.chain, logits) && SelectsAlive(rules, alive, chain, cur);
      assert rules.applyGrammar(g, rules.single(rules.selected(picked))).0 == g;
    }
  }

  /** The grammar's state behind some tokens. */
  function Behind<G, C, L>(rules: Rules<G, C, L>, g: G, tokens: seq<Token>): G {
    if tokens == [] then g
    else rules.acceptGrammar(Behind(rules, g, tokens[..|tokens| - 1]), tokens[|tokens| - 1])
  }

  /** The token is a candidate behind the text and the tokens before it, and the grammar allows it there. */
  predicate KeepsTo<G, C, L>(s: Setting<G, C, L>, alive: (L, Token) -> bool, g: G, text: seq<Token>,
                             before: seq<Token>, id: Token) {
    alive(s.target(text + before), id) && Allowed(s.rules, Behind(s.rules, g, before), id)
  }

  /** Behind every beginning, the target has a candidate that the grammar allows there. */
  ghost predicate NeverAtLoss<G(!new), C(!new), L(!new)>(s: Setting<G, C, L>, alive: (L, Token) -> bool, g: G,
                                                         text: seq<Token>) {
    forall before :: HasChoice(s, alive, g, text, before)
  }

  ghost predicate HasChoice<G(!new), C(!new), L(!new)>(s: Setting<G, C, L>, alive: (L, Token) -> bool, g: G,
                                                       text: seq<Token>, before: seq<Token>) {
    exists id :: KeepsTo(s, alive, g, text, before, id)
  }

  lemma NextKeepsTo<G(!new), C(!new), L(!new)>(s: Setting<G, C, L>, alive: (L, Token) -> bool, g: G,
                                               text: seq<Token>, before: seq<Token>, st: State<G, C>)
    requires Filters(s.rules, alive) && NeverAtLoss(s, alive, g, text) && st.grammar == Behind(s.rules, g, before)
    ensures var (id, next) := s.Next(text + before, st);
            && KeepsTo(s, alive, g, text, before, id)
            && next.grammar == Behind(s.rules, g, before + [id]) && next.prev == LastN(st.prev + [id], s.capacity)
  {
    assert HasChoice(s, alive, g, text, before);
    var some :| KeepsTo(s, alive, g, text, before, some);
    SampledIsAllowed(s.rules, alive, st, s.target(text + before), some, s.grammarFirst);
    var id := s.Next(text + before, st).0;
    assert (before + [id])[..|before|] == before;
  }

  /** Decoding keeps to the grammar: every token is a candidate that the grammar allows behind the tokens before it; the
      most recent tokens are remembered in order. */
  lemma {:induction false} DecodingKeepsTo<G(!new), C(!new), L(!new)>(
      s: Setting<G, C, L>, alive: (L, Token) -> bool, text: seq<Token>, st: State<G, C>, n: nat)
    requires Filters(s.rules, alive) && NeverAtLoss(s, alive, st.grammar, text) && |st.prev| <= s.capacity
    ensures var (tokens, last) := s.Plain(text, st, n);
            && (forall i :: 0 <= i < n ==> KeepsTo(s, alive, st.grammar, text, tokens[..i], tokens[i]))
            && last.grammar == Behind(s.rules, st.grammar, tokens)
            && last.prev == LastN(st.prev + tokens, s.capacity)
    decreases n
  {
    if n == 0 {
      assert st.prev + [] == st.prev;
    } else {
      DecodingKeepsTo(s, alive, text, st, n - 1);
      var (front, before) := s.Plain(text, st, n - 1);
      NextKeepsTo(s, alive, st.grammar, text, front, before);
      var id := s.Next(text + front, before).0;
      LastNStep(st.prev + front, id, s.capacity);
      LastToken(st.prev, front, id);
    }
  }

  lemma LastToken(prev: seq<Token>, front: seq<Token>, id: Token)
    ensures prev + front + [id] == prev + (front + [id])
    ensures forall i :: 0 <= i <= |front| ==> (front + [id])[..i] == front[..i]
  {
  }

  // ---------------------------------------------------------------------------------------------
  // Checking the grammar late
  // ---------------------------------------------------------------------------------------------

  /** The chain picks the same whenever the unrestricted pick is allowed, and applying samplers leaves no trace: then
      checking the grammar late gives the same tokens as checking it first. */
  ghost predicate PicksStably<G(!new), C(!new), L(!new)>(rules: Rules<G, C, L>) {
    && (forall g, l :: rules.applyGrammar(g, l).0 == g)
    && (forall c, l :: rules.applyChain(c, l).0 == c)
    && forall g, c, l :: KeepsPick(rules, g, c, l)
  }

  predicate KeepsPick<G, C, L>(rules: Rules<G, C, L>, g: G, c: C, l: L) {
    var id := rules.selected(rules.applyChain(c, l).1);
    rules.possible(rules.applyGrammar(g, rules.single(id)).1) ==>
      rules.selected(rules.applyChain(c, rules.applyGrammar(g, l).1).1) == id
  }

  lemma LateCheckIsEnough<G(!new), C(!new), L(!new)>(rules: Rules<G, C, L>, st: State<G, C>, logits: L)
    requires PicksStably(rules)
    ensures Sampled(rules, st, logits, false) == Sampled(rules, st, logits, true)
  {
    assert KeepsPick(rules, st.grammar, st.chain, logits);
  }

  // ---------------------------------------------------------------------------------------------
  // The sampler
  // ---------------------------------------------------------------------------------------------

  class Sampler<G, C, L> {
    const rules: Rules<G, C, L>
    var grmr: G
    var chain: C
    const prev: RingBuffer<Token>

    ghost predicate Valid()
      reads this, prev
    {
      prev.Valid()
    }

    ghost function Current(): State<G, C>
      reads this, prev, prev.data
      requires Valid()
    {
      State(grmr, chain, prev.Contents())
    }

    constructor (rules: Rules<G, C, L>, grmr: G, chain: C, capacity: nat)
      requires capacity > 0
      ensures Valid() && this.rules == rules && Current() == State(grmr, chain, []) && prev.capacity == capacity
      ensures fresh(prev) && fresh(prev.data)
    {
      this.rules, this.grmr, this.chain := rules, grmr, chain;
      prev := new RingBuffer(capacity);
    }

    /** `common_sampler_sample`, with the log-odds of the wanted output. */
    method Sample(logits: L, grammarFirst: bool) returns (id: Token)
      requires Valid()
      modifies this
      ensures Valid() && (id, Current()) == Sampled(rules, old(Current()), logits, grammarFirst)
    {
      var curP := logits;
      if grammarFirst {
        var r := rules.applyGrammar(grmr, curP);
        grmr, curP := r.0, r.1;
      }
      var r := rules.applyChain(chain, curP);
      chain, curP := r.0, r.1;
      id := rules.selected(curP);
      if grammarFirst {
        return id;
      }
      var one := rules.applyGrammar(grmr, rules.single(id));
      grmr := one.0;
      if rules.possible(one.1) {
        return id;
      }
      var again := rules.applyGrammar(grmr, logits);
      grmr := again.0;
      var repeated := rules.applyChain(chain, again.1);
      chain := repeated.0;
      return rules.selected(repeated.1);
    }

    /** `common_sampler_accept` */
    method Accept(token: Token, acceptGrammar: bool)
      requires Valid()
      modifies this, prev, prev.data
      ensures Valid() && Current() == Accepted(rules, old(Current()), token, acceptGrammar, prev.capacity)
      ensures grmr == if acceptGrammar then rules.acceptGrammar(old(grmr), token) else old(grmr)
      ensures chain == rules.acceptChain(old(chain), token)
      ensures prev.Contents() == LastN(old(prev.Contents()) + [token], prev.capacity)
    {
      if acceptGrammar {
        grmr := rules.acceptGrammar(grmr, token);
      }
      chain := rules.acceptChain(chain, token);
      prev.PushBack(token);
    }

    /** The log-odds of output i are those behind the text and i drafted tokens. */
    ghost predicate Evaluated(logits: int -> L, idxs: seq<int>, s: Setting<G, C, L>, text: seq<Token>,
                              draft: seq<Token>) {
      && |idxs| == |draft| + 1
      && forall i :: 0 <= i < |idxs| ==> logits(idxs[i]) == s.target(text + draft[..i])
    }

    ghost predicate Fits(s: Setting<G, C, L>) { s.rules == rules && s.capacity == prev.capacity }

    /** Samples one token and accepts it. */
    method Step(logits: L, grammarFirst: bool, ghost s: Setting<G, C, L>, ghost text: seq<Token>) returns (id: Token)
      requires Valid() && Fits(s) && s.grammarFirst == grammarFirst && logits == s.target(text)
      modifies this, prev, prev.data
      ensures Valid() && (id, Current()) == s.Next(text, old(Current()))
    {
      id := Sample(logits, grammarFirst);
      Accept(id, true);
    }

    /** `common_sampler_sample_and_accept_n`: whatever is drafted, the tokens and the state are those of plain
        decoding; between one and |draft| + 1 tokens, all but the last as drafted. */
    method SampleAndAcceptN(logits: int -> L, idxs: seq<int>, draft: seq<Token>, grammarFirst: bool,
                            ghost s: Setting<G, C, L>, ghost text: seq<Token>) returns (result: seq<Token>)
      requires Valid() && Fits(s) && s.grammarFirst == grammarFirst && Evaluated(logits, idxs, s, text, draft)
      modifies this, prev, prev.data
      ensures Valid() && (result, Current()) == s.Plain(text, old(Current()), |result|)
      ensures 1 <= |result| <= |draft| + 1
      ensures result[..|result| - 1] == draft[..|result| - 1]
      ensures |result| <= |draft| ==> result[|result| - 1] != draft[|result| - 1]
    {
      result := [];
      var i := 0;
      ghost var start := Current();
      while i < |draft|
        invariant i <= |draft| && result == draft[..i] && Valid()
        invariant (result, Current()) == s.Plain(text, start, i)
      {
        var id := Step(logits(idxs[i]), grammarFirst, s, text + result);
        result := result + [id];
        if draft[i] != id {
          break;
        }
        i := i + 1;
      }
      if i == |draft| {
        var id := Step(logits(idxs[i]), grammarFirst, s, text + result);
        result := result + [id];
      }
    }

    /** One round: the target model is evaluated behind each beginning of the draft, and the draft is checked. */
    method Round(s: Setting<G, C, L>, text: seq<Token>, draft: seq<Token>) returns (result: seq<Token>)
      requires Valid() && Fits(s)
      modifies this, prev, prev.data
      ensures Valid() && (result, Current()) == s.Plain(text, old(Current()), |result|) && |result| >= 1
    {
      var idxs := seq(|draft| + 1, i => i);
      result := SampleAndAcceptN(s.Outputs(text, draft), idxs, draft, s.grammarFirst, s, text);
    }

    /** Any number of rounds: each draft is made up in any way from the number of the round and the text so far. */
    method Rounds(s: Setting<G, C, L>, drafter: (nat, seq<Token>) -> seq<Token>, prompt: seq<Token>, rounds: nat)
      returns (stream: seq<Token>)
      requires Valid() && Fits(s)
      modifies this, prev, prev.data
      ensures Valid() && (stream, Current()) == s.Plain(prompt, old(Current()), |stream|)
      ensures |stream| >= rounds
    {
      stream := [];
      ghost var start := Current();
      for k := 0 to rounds
        invariant Valid() && (stream, Current()) == s.Plain(prompt, start, |stream|)
        invariant |stream| >= k
      {
        var text := prompt + stream;
        var result := Round(s, text, drafter(k, text));
        s.PlainOn(prompt, start, stream, result);
        stream := stream + result;
      }
    }
  }
}
