/** The n-gram cache: how often a token followed an n-gram. */
module NgramCache {
  type Token = int

  const NULL_TOKEN: Token := -1
  const NGRAM_MAX: nat := 4

  /** Always NGRAM_MAX tokens, shorter ones filled up with null tokens. */
  type Ngram = seq<Token>

  type Part = map<Token, int>
  type Parts = map<Ngram, Part>

  /** The n-gram of size k in front of position i. */
  function Gram(inp: seq<Token>, i: nat, k: nat): (g: Ngram)
    requires k <= i <= |inp|
    ensures |g| == NGRAM_MAX && forall j :: 0 <= j < NGRAM_MAX ==> g[j] == if j < k then inp[i - k + j] else NULL_TOKEN
  {
    seq(NGRAM_MAX, j requires 0 <= j < NGRAM_MAX => if j < k then inp[i - k + j] else NULL_TOKEN)
  }

  function At(parts: Parts, g: Ngram, t: Token): int {
    if g in parts && t in parts[g] then parts[g][t] else 0
  }

  /** No empty parts and no counts below one. */
  predicate Positive(parts: Parts) { forall g :: g in parts ==> PositivePart(parts[g]) }

  predicate PositivePart(part: Part) { part.Keys != {} && forall t :: t in part ==> part[t] > 0 }

  lemma SomeToken(s: set<Token>)
    ensures s == {} || exists t :: t in s
  {
    if forall t :: t !in s { assert s == {}; }
  }

  /** A cache is known by its counts. */
  lemma SameCounts(p: Parts, q: Parts)
    requires Positive(p) && Positive(q) && forall g, t :: At(p, g, t) == At(q, g, t)
    ensures p == q
  {
    forall g | g in p ensures g in q { Supported(p, q, g); }
    forall g | g in q ensures g in p { Supported(q, p, g); }
    forall g | g in p ensures p[g] == q[g] {
      forall t | t in p[g] ensures t in q[g] && q[g][t] == p[g][t] { assert At(p, g, t) == At(q, g, t); }
      forall t | t in q[g] ensures t in p[g] { assert At(p, g, t) == At(q, g, t); }
    }
  }

  lemma Supported(p: Parts, q: Parts, g: Ngram)
    requires Positive(p) && g in p && forall g, t :: At(p, g, t) == At(q, g, t)
    ensures g in q
  {
    assert PositivePart(p[g]);
    SomeToken(p[g].Keys);
    var t :| t in p[g].Keys;
    assert At(p, g, t) > 0;
    assert At(q, g, t) > 0;
  }

  // ---------------------------------------------------------------------------------------------
  // Counting directly
  // ---------------------------------------------------------------------------------------------

  predicate Hit(inp: seq<Token>, k: nat, i: nat, g: Ngram, t: Token) {
    k <= i < |inp| && Gram(inp, i, k) == g && inp[i] == t
  }

  /** At how many positions below n the n-gram g of size k is followed by t. */
  function Hits(inp: seq<Token>, k: nat, n: nat, g: Ngram, t: Token): nat {
    if n == 0 then 0 else Hits(inp, k, n - 1, g, t) + if Hit(inp, k, n - 1, g, t) then 1 else 0
  }

  /** The same for all sizes from lo up to but not including hi. */
  function Total(inp: seq<Token>, lo: nat, hi: nat, n: nat, g: Ngram, t: Token): nat {
    if hi <= lo then 0 else Total(inp, lo, hi - 1, n, g, t) + Hits(inp, hi - 1, n, g, t)
  }

  lemma {:induction false} NoHitsBelow(inp: seq<Token>, k: nat, n: nat, g: Ngram, t: Token)
    requires n <= k
    ensures Hits(inp, k, n, g, t) == 0
  {
    if n > 0 { NoHitsBelow(inp, k, n - 1, g, t); }
  }

  lemma {:induction false} HitsOfPrefix(inp: seq<Token>, m: nat, k: nat, n: nat, g: Ngram, t: Token)
    requires n <= m <= |inp|
    ensures Hits(inp[..m], k, n, g, t) == Hits(inp, k, n, g, t)
  {
    if n > 0 {
      HitsOfPrefix(inp, m, k, n - 1, g, t);
      if k <= n - 1 { assert Gram(inp[..m], n - 1, k) == Gram(inp, n - 1, k); }
    }
  }

  lemma {:induction false} TotalOfPrefix(inp: seq<Token>, m: nat, lo: nat, hi: nat, g: Ngram, t: Token)
    requires m <= |inp|
    ensures Total(inp[..m], lo, hi, m, g, t) == Total(inp, lo, hi, m, g, t)
    decreases hi
  {
    if hi > lo {
      TotalOfPrefix(inp, m, lo, hi - 1, g, t);
      HitsOfPrefix(inp, m, hi - 1, m, g, t);
    }
  }

  /** The cache of one full pass over the input, for the sizes from lo up to but not including hi. */
  ghost predicate Exact(parts: Parts, inp: seq<Token>, lo: nat, hi: nat) {
    Positive(parts) && forall g, t :: At(parts, g, t) == Total(inp, lo, hi, |inp|, g, t)
  }

  lemma ExactIsUnique(p: Parts, q: Parts, inp: seq<Token>, lo: nat, hi: nat)
    requires Exact(p, inp, lo, hi) && Exact(q, inp, lo, hi)
    ensures p == q
  {
    forall g, t ensures At(p, g, t) == At(q, g, t) {
      assert At(p, g, t) == Total(inp, lo, hi, |inp|, g, t);
      assert At(q, g, t) == Total(inp, lo, hi, |inp|, g, t);
    }
    SameCounts(p, q);
  }

  // ---------------------------------------------------------------------------------------------
  // Null padding keeps the sizes apart
  // ---------------------------------------------------------------------------------------------

  predicate Plain(inp: seq<Token>) { forall i :: 0 <= i < |inp| ==> inp[i] >= 0 }

  function Padded(w: seq<Token>): Ngram { Gram(w, |w|, |w|) }

  predicate Occurs(inp: seq<Token>, w: seq<Token>, i: nat, t: Token) {
    |w| <= i < |inp| && inp[i - |w|..i] == w && inp[i] == t
  }

  /** At how many positions below n the words w are followed by t. */
  function Occurrences(inp: seq<Token>, w: seq<Token>, n: nat, t: Token): nat
    requires n <= |inp|
  {
    if n == 0 then 0
    else Occurrences(inp, w, n - 1, t) + if Occurs(inp, w, n - 1, t) then 1 else 0
  }

  lemma GramIs(inp: seq<Token>, i: nat, k: nat, w: seq<Token>)
    requires Plain(inp) && Plain(w) && k <= i <= |inp| && k <= NGRAM_MAX && |w| <= NGRAM_MAX
    ensures Gram(inp, i, k) == Padded(w) <==> k == |w| && inp[i - k..i] == w
  {
    var g, p := Gram(inp, i, k), Padded(w);
    assert forall j :: 0 <= j < |w| ==> p[j] == w[j] >= 0;
    assert forall j :: 0 <= j < k ==> g[j] == inp[i - k + j] == inp[i - k..i][j];
    assert k < |w| ==> g[k] == NULL_TOKEN && p[k] >= 0;
    assert |w| < k ==> g[|w|] >= 0 && p[|w|] == NULL_TOKEN;
  }

  lemma HitIs(inp: seq<Token>, w: seq<Token>, k: nat, i: nat, g: Ngram, t: Token)
    requires Plain(inp) && Plain(w) && k <= NGRAM_MAX && |w| <= NGRAM_MAX && i < |inp| && g == Padded(w)
    ensures Hit(inp, k, i, g, t) <==> k == |w| && Occurs(inp, w, i, t)
  {
    if k <= i { GramIs(inp, i, k, w); }
  }

  lemma {:induction false} HitsAreOccurrences(inp: seq<Token>, w: seq<Token>, k: nat, n: nat, g: Ngram, t: Token)
    requires Plain(inp) && Plain(w) && k <= NGRAM_MAX && |w| <= NGRAM_MAX && n <= |inp| && g == Padded(w)
    ensures Hits(inp, k, n, g, t) == if k == |w| then Occurrences(inp, w, n, t) else 0
  {
    if n > 0 {
      HitsAreOccurrences(inp, w, k, n - 1, g, t);
      HitIs(inp, w, k, n - 1, g, t);
    }
  }

  /** Only one size contributes. */
  lemma {:induction false} TotalOfOneSize(inp: seq<Token>, lo: nat, hi: nat, n: nat, g: Ngram, t: Token, k: nat, c: nat)
    requires forall j: nat :: lo <= j < hi ==> Hits(inp, j, n, g, t) == if j == k then c else 0
    ensures Total(inp, lo, hi, n, g, t) == if lo <= k < hi then c else 0
    decreases hi
  {
    if hi > lo { TotalOfOneSize(inp, lo, hi - 1, n, g, t, k, c); }
  }

  /** The counts of an exact cache: for words of a size in range, how often they are followed by the token; for others,
      nothing. */
  lemma ExactCounts(parts: Parts, inp: seq<Token>, lo: nat, hi: nat, w: seq<Token>, t: Token)
    requires Exact(parts, inp, lo, hi) && Plain(inp) && Plain(w) && hi <= NGRAM_MAX + 1 && |w| <= NGRAM_MAX
    ensures At(parts, Padded(w), t) == if lo <= |w| < hi then Occurrences(inp, w, |inp|, t) else 0
  {
    forall j: nat | lo <= j < hi
      ensures Hits(inp, j, |inp|, Padded(w), t) == if j == |w| then Occurrences(inp, w, |inp|, t) else 0
    {
      HitsAreOccurrences(inp, w, j, |inp|, Padded(w), t);
    }
    TotalOfOneSize(inp, lo, hi, |inp|, Padded(w), t, |w|, Occurrences(inp, w, |inp|, t));
  }

  lemma {:induction false} HitsComeFromWords(inp: seq<Token>, k: nat, n: nat, g: Ngram, t: Token)
    returns (w: seq<Token>)
    requires Plain(inp) && k <= NGRAM_MAX && n <= |inp| && Hits(inp, k, n, g, t) > 0
    ensures |w| == k && Plain(w) && g == Padded(w)
  {
    if Hit(inp, k, n - 1, g, t) {
      w := inp[n - 1 - k..n - 1];
      GramIs(inp, n - 1, k, w);
    } else {
      w := HitsComeFromWords(inp, k, n - 1, g, t);
    }
  }

  /** There are no n-grams of other sizes in an exact cache. */
  lemma {:induction false} TotalComesFromWords(inp: seq<Token>, lo: nat, hi: nat, g: Ngram, t: Token)
    returns (w: seq<Token>)
    requires Plain(inp) && hi <= NGRAM_MAX + 1 && Total(inp, lo, hi, |inp|, g, t) > 0
    ensures lo <= |w| < hi && Plain(w) && g == Padded(w)
    decreases hi
  {
    if Hits(inp, hi - 1, |inp|, g, t) > 0 {
      w := HitsComeFromWords(inp, hi - 1, |inp|, g, t);
    } else {
      w := TotalComesFromWords(inp, lo, hi - 1, g, t);
    }
  }

  /** Every n-gram of an exact cache is a padded one of a size in range. */
  lemma OnlyWords(parts: Parts, inp: seq<Token>, lo: nat, hi: nat, g: Ngram) returns (w: seq<Token>)
    requires Exact(parts, inp, lo, hi) && Plain(inp) && hi <= NGRAM_MAX + 1 && g in parts
    ensures lo <= |w| < hi && Plain(w) && g == Padded(w) && |g| == NGRAM_MAX
  {
    assert PositivePart(parts[g]);
    SomeToken(parts[g].Keys);
    var t :| t in parts[g].Keys;
    assert At(parts, g, t) > 0;
    w := TotalComesFromWords(inp, lo, hi, g, t);
  }

  // ---------------------------------------------------------------------------------------------
  // Merging
  // ---------------------------------------------------------------------------------------------

  function PartSum(p: Part, q: Part): Part {
    map t | t in p.Keys + q.Keys :: (if t in p then p[t] else 0) + if t in q then q[t] else 0
  }

  function Sum(p: Parts, q: Parts): Parts {
    map g | g in p.Keys + q.Keys :: if g in p && g in q then PartSum(p[g], q[g]) else if g in p then p[g] else q[g]
  }

  /** Merging adds up the counts. */
  lemma SumIsPointwise(p: Parts, q: Parts, g: Ngram, t: Token)
    ensures At(Sum(p, q), g, t) == At(p, g, t) + At(q, g, t)
  {
  }

  lemma SumCommutes(p: Parts, q: Parts)
    ensures Sum(p, q) == Sum(q, p)
  {
    forall g | g in p && g in q ensures PartSum(p[g], q[g]) == PartSum(q[g], p[g]) { }
  }

  lemma PartSumAssociates(p: Part, q: Part, r: Part)
    ensures PartSum(PartSum(p, q), r) == PartSum(p, PartSum(q, r))
  {
  }

  /** The counts of g, if there are any. */
  function PartsAt(p: Parts, g: Ngram): Part { if g in p then p[g] else map[] }

  lemma PartsAtSum(p: Parts, q: Parts, g: Ngram)
    ensures PartsAt(Sum(p, q), g) == PartSum(PartsAt(p, g), PartsAt(q, g))
  {
  }

  lemma SumAssociates(p: Parts, q: Parts, r: Parts)
    ensures Sum(Sum(p, q), r) == Sum(p, Sum(q, r))
  {
    var x, y := Sum(Sum(p, q), r), Sum(p, Sum(q, r));
    assert x.Keys == y.Keys;
    forall g | g in x ensures x[g] == y[g] {
      PartsAtSum(p, q, g);
      PartsAtSum(q, r, g);
      PartsAtSum(Sum(p, q), r, g);
      PartsAtSum(p, Sum(q, r), g);
      PartSumAssociates(PartsAt(p, g), PartsAt(q, g), PartsAt(r, g));
      assert x[g] == PartsAt(x, g) && y[g] == PartsAt(y, g);
    }
  }

  lemma SumPositive(p: Parts, q: Parts)
    requires Positive(p) && Positive(q)
    ensures Positive(Sum(p, q))
  {
    forall g | g in Sum(p, q) ensures PositivePart(Sum(p, q)[g]) {
      if g in p && g in q {
        assert PositivePart(p[g]) && PositivePart(q[g]);
        SomeToken(p[g].Keys);
        var t :| t in p[g].Keys;
        assert t in PartSum(p[g], q[g]);
      } else if g in p {
        assert PositivePart(p[g]);
      } else {
        assert PositivePart(q[g]);
      }
    }
  }

  // ---------------------------------------------------------------------------------------------
  // The cache that the program updates
  // ---------------------------------------------------------------------------------------------

  /** One more count of t behind g. */
  function Bumped(parts: Parts, g: Ngram, t: Token): Parts {
    parts[g := PartsAt(parts, g)[t := At(parts, g, t) + 1]]
  }

  lemma BumpedCounts(parts: Parts, g: Ngram, t: Token)
    requires Positive(parts)
    ensures Positive(Bumped(parts, g, t))
    ensures forall g', t' :: At(Bumped(parts, g, t), g', t') == At(parts, g', t') + if g' == g && t' == t then 1 else 0
  {
    var part := Bumped(parts, g, t)[g];
    assert g in parts ==> PositivePart(parts[g]);
    assert t in part && PositivePart(part);
  }

  /** `newer` has the hits of size k at the positions from `from` up to `to` on top of `older`. */
  ghost predicate Grew(newer: Parts, older: Parts, inp: seq<Token>, k: nat, from: nat, to: nat) {
    forall g, t :: At(newer, g, t) == At(older, g, t) + Hits(inp, k, to, g, t) - Hits(inp, k, from, g, t)
  }

  lemma GrewByOne(older: Parts, parts: Parts, inp: seq<Token>, k: nat, from: nat, i: nat)
    requires Positive(parts) && Grew(parts, older, inp, k, from, i) && k <= i < |inp|
    ensures Positive(Bumped(parts, Gram(inp, i, k), inp[i]))
    ensures Grew(Bumped(parts, Gram(inp, i, k), inp[i]), older, inp, k, from, i + 1)
  {
    var g, t := Gram(inp, i, k), inp[i];
    var newer := Bumped(parts, g, t);
    BumpedCounts(parts, g, t);
    forall g', t' ensures At(newer, g', t') ==
        At(older, g', t') + Hits(inp, k, i + 1, g', t') - Hits(inp, k, from, g', t') {
      assert At(parts, g', t') == At(older, g', t') + Hits(inp, k, i, g', t') - Hits(inp, k, from, g', t');
    }
  }

  /** Positions below the size of the n-gram have no hits, so it does not matter that they are left out. */
  lemma GrewFromEarlier(newer: Parts, older: Parts, inp: seq<Token>, k: nat, from: nat, to: nat)
    requires Grew(newer, older, inp, k, if from > k then from else k, to)
    ensures Grew(newer, older, inp, k, from, to)
  {
    forall g, t ensures At(newer, g, t) == At(older, g, t) + Hits(inp, k, to, g, t) - Hits(inp, k, from, g, t) {
      assert At(newer, g, t) ==
             At(older, g, t) + Hits(inp, k, to, g, t) - Hits(inp, k, if from > k then from else k, g, t);
      if from < k {
        NoHitsBelow(inp, k, from, g, t);
        NoHitsBelow(inp, k, k, g, t);
      }
    }
  }

  /** The same for all sizes from lo up to but not including hi. */
  ghost predicate GrewAll(newer: Parts, older: Parts, inp: seq<Token>, lo: nat, hi: nat, from: nat) {
    forall g, t :: At(newer, g, t) == At(older, g, t) + Total(inp, lo, hi, |inp|, g, t) - Total(inp, lo, hi, from, g, t)
  }

  lemma GrewByOneSize(newer: Parts, parts: Parts, older: Parts, inp: seq<Token>, lo: nat, k: nat, from: nat)
    requires lo <= k && GrewAll(parts, older, inp, lo, k, from) && Grew(newer, parts, inp, k, from, |inp|)
    ensures GrewAll(newer, older, inp, lo, k + 1, from)
  {
    forall g, t
      ensures At(newer, g, t) ==
              At(older, g, t) + Total(inp, lo, k + 1, |inp|, g, t) - Total(inp, lo, k + 1, from, g, t)
    {
      assert At(newer, g, t) == At(parts, g, t) + Hits(inp, k, |inp|, g, t) - Hits(inp, k, from, g, t);
      assert At(parts, g, t) == At(older, g, t) + Total(inp, lo, k, |inp|, g, t) - Total(inp, lo, k, from, g, t);
    }
  }

  lemma GrownIsExact(newer: Parts, older: Parts, inp: seq<Token>, lo: nat, hi: nat, from: nat)
    requires from <= |inp| && Positive(newer) && Exact(older, inp[..from], lo, hi)
             && GrewAll(newer, older, inp, lo, hi, from)
    ensures Exact(newer, inp, lo, hi)
  {
    forall g, t ensures At(newer, g, t) == Total(inp, lo, hi, |inp|, g, t) {
      TotalOfPrefix(inp, from, lo, hi, g, t);
      assert At(older, g, t) == Total(inp[..from], lo, hi, from, g, t);
      assert At(newer, g, t) == At(older, g, t) + Total(inp, lo, hi, |inp|, g, t) - Total(inp, lo, hi, from, g, t);
    }
  }

  lemma EmptyIsExact(lo: nat, hi: nat)
    ensures Exact(map[], [], lo, hi)
  {
    forall g, t ensures Total([], lo, hi, 0, g, t) == 0 { TotalOfNothing(lo, hi, g, t); }
  }

  lemma {:induction false} TotalOfNothing(lo: nat, hi: nat, g: Ngram, t: Token)
    ensures Total([], lo, hi, 0, g, t) == 0
    decreases hi
  {
    if hi > lo { TotalOfNothing(lo, hi - 1, g, t); }
  }

  /** How many of n tokens are not among the nnew newest. */
  function Older(n: nat, nnew: int): (r: nat)
    ensures r <= n && (0 <= nnew <= n ==> r == n - nnew) && (nnew > n ==> r == 0) && (nnew < 0 ==> r == n)
  {
    if nnew > n then 0 else if nnew < 0 then n else n - nnew
  }

  class Cache {
    var parts: Parts

    constructor ()
      ensures parts == map[]
    {
      parts := map[];
    }

    method Count(ngram: Ngram, token: Token)
      modifies this
      ensures parts == Bumped(old(parts), ngram, token)
    {
      if ngram !in parts {
        parts := parts[ngram := map[token := 1]];
      } else if token !in parts[ngram] {
        parts := parts[ngram := parts[ngram][token := 1]];
      } else {
        parts := parts[ngram := parts[ngram][token := parts[ngram][token] + 1]];
      }
    }

    /** The inner loop: n-grams of one size. */
    method UpdateSize(inp: seq<Token>, k: nat, from: nat)
      requires Positive(parts) && from <= |inp| && 1 <= k <= NGRAM_MAX
      modifies this
      ensures Positive(parts) && Grew(parts, old(parts), inp, k, from, |inp|)
    {
      var i := if from > k then from else k;
      ghost var start := i;
      if i > |inp| {
        HitsEndBelow(parts, inp, k, from);
        return;
      }
      while i < |inp|
        invariant start <= i <= |inp| && Positive(parts) && Grew(parts, old(parts), inp, k, start, i)
      {
        GrewByOne(old(parts), parts, inp, k, start, i);
        Count(Gram(inp, i, k), inp[i]);
        i := i + 1;
      }
      GrewFromEarlier(parts, old(parts), inp, k, from, |inp|);
    }

    /** `common_ngram_cache_update`: with the cache of the input without its `nnew` newest tokens, the cache of the
        whole input. All of them are new if `nnew` is more than there are. */
    method Update(ngramMin: nat, ngramMax: nat, inp: seq<Token>, nnew: int)
      requires 1 <= ngramMin <= ngramMax <= NGRAM_MAX && Positive(parts)
      modifies this
      ensures Positive(parts) && GrewAll(parts, old(parts), inp, ngramMin, ngramMax + 1, Older(|inp|, nnew))
      ensures Exact(old(parts), inp[..Older(|inp|, nnew)], ngramMin, ngramMax + 1) ==>
              Exact(parts, inp, ngramMin, ngramMax + 1)
    {
      var from := Older(|inp|, nnew);
      for k := ngramMin to ngramMax + 1
        invariant Positive(parts) && GrewAll(parts, old(parts), inp, ngramMin, k, from)
      {
        ghost var before := parts;
        UpdateSize(inp, k, from);
        GrewByOneSize(parts, before, old(parts), inp, ngramMin, k, from);
      }
      if Exact(old(parts), inp[..from], ngramMin, ngramMax + 1) {
        GrownIsExact(parts, old(parts), inp, ngramMin, ngramMax + 1, from);
      }
    }

    /** Feeding an input chunk by chunk. */
    method Feed(ngramMin: nat, ngramMax: nat, chunks: seq<seq<Token>>) returns (inp: seq<Token>)
      requires 1 <= ngramMin <= ngramMax <= NGRAM_MAX && parts == map[]
      modifies this
      ensures inp == Joined(chunks) && Exact(parts, inp, ngramMin, ngramMax + 1)
    {
      inp := [];
      EmptyIsExact(ngramMin, ngramMax + 1);
      for i := 0 to |chunks|
        invariant inp == Joined(chunks[..i]) && Exact(parts, inp, ngramMin, ngramMax + 1)
      {
        assert (inp + chunks[i])[..|inp|] == inp;
        assert chunks[..i + 1][..i] == chunks[..i];
        inp := inp + chunks[i];
        Update(ngramMin, ngramMax, inp, |chunks[i]|);
      }
      assert chunks[..|chunks|] == chunks;
    }

    /** `common_ngram_cache_merge`, whatever the order of the hash maps. */
    method Merge(add: Parts)
      requires Positive(add)
      modifies this
      ensures parts == Sum(old(parts), add)
    {
      var todo := add.Keys;
      SumBounds(parts, add);
      while todo != {}
        invariant todo <= add.Keys && parts == Sum(old(parts), Restrict(add, add.Keys - todo))
      {
        var g :| g in todo;
        MergeOne(g, add[g]);
        SumStep(old(parts), add, todo, g);
        todo := todo - {g};
      }
    }

    /** One part: taken over or added token by token. */
    method MergeOne(g: Ngram, part: Part)
      requires PositivePart(part)
      modifies this
      ensures parts == Sum(old(parts), map[g := part])
    {
      if g !in parts {
        parts := parts[g := part];
        return;
      }
      ghost var held := parts[g];
      var todo := part.Keys;
      assert PartSum(held, RestrictPart(part, part.Keys - todo)) == held;
      while todo != {}
        invariant g in parts && todo <= part.Keys
        invariant parts == old(parts)[g := PartSum(held, RestrictPart(part, part.Keys - todo))]
      {
        SomeToken(todo);
        var t :| t in todo;
        PartSumStep(held, part, todo, t);
        parts := parts[g := parts[g][t := if t in parts[g] then parts[g][t] + part[t] else part[t]]];
        todo := todo - {t};
      }
      assert RestrictPart(part, part.Keys - {}) == part;
    }
  }

  lemma PartSumStep(p: Part, part: Part, todo: set<Token>, t: Token)
    requires todo <= part.Keys && t in todo
    ensures var merged := PartSum(p, RestrictPart(part, part.Keys - todo));
            merged[t := if t in merged then merged[t] + part[t] else part[t]]
            == PartSum(p, RestrictPart(part, part.Keys - (todo - {t})))
  {
  }

  function Restrict(p: Parts, keys: set<Ngram>): Parts { map g | g in p && g in keys :: p[g] }

  function RestrictPart(p: Part, keys: set<Token>): Part { map t | t in p && t in keys :: p[t] }

  lemma SumBounds(p: Parts, add: Parts)
    ensures Sum(p, Restrict(add, add.Keys - add.Keys)) == p && Restrict(add, add.Keys - {}) == add
  {
  }

  lemma RestrictStep(add: Parts, todo: set<Ngram>, g: Ngram)
    requires todo <= add.Keys && g in todo
    ensures Sum(Restrict(add, add.Keys - todo), map[g := add[g]]) == Restrict(add, add.Keys - (todo - {g}))
  {
    var done := Restrict(add, add.Keys - todo);
    assert g !in done;
    assert done.Keys + {g} == add.Keys - (todo - {g});
  }

  lemma SumStep(p: Parts, add: Parts, todo: set<Ngram>, g: Ngram)
    requires todo <= add.Keys && g in todo
    ensures Sum(Sum(p, Restrict(add, add.Keys - todo)), map[g := add[g]]) ==
            Sum(p, Restrict(add, add.Keys - (todo - {g})))
  {
    RestrictStep(add, todo, g);
    SumAssociates(p, Restrict(add, add.Keys - todo), map[g := add[g]]);
  }

  function Joined(chunks: seq<seq<Token>>): seq<Token> {
    if chunks == [] then [] else Joined(chunks[..|chunks| - 1]) + chunks[|chunks| - 1]
  }

  lemma HitsEndBelow(parts: Parts, inp: seq<Token>, k: nat, from: nat)
    requires |inp| < k && from <= |inp|
    ensures Grew(parts, parts, inp, k, from, |inp|)
  {
    forall g, t ensures Hits(inp, k, |inp|, g, t) == Hits(inp, k, from, g, t) {
      NoHitsBelow(inp, k, |inp|, g, t);
      NoHitsBelow(inp, k, from, g, t);
    }
  }
}
