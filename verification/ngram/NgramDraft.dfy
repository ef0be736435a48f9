/** Drafting tokens from three n-gram caches. */
module NgramDraft {
  import opened NgramCache

  const NGRAM_STATIC: nat := 2

  const SAMPLE_LAX: seq<int> := [2, 2, 1, 1]
  const PERCENT_LAX: seq<int> := [66, 50, 50, 50]
  const SAMPLE_STRICT: seq<int> := [4, 3, 2, 2]
  const PERCENT_STRICT: seq<int> := [75, 66, 66, 66]

  // ---------------------------------------------------------------------------------------------
  // What may be drafted
  // ---------------------------------------------------------------------------------------------

  ghost function SumOf(part: Part, keys: set<Token>): int
    requires keys <= part.Keys
  {
    if keys == {} then 0
    else
      SomeToken(keys);
      var t :| t in keys;
      part[t] + SumOf(part, keys - {t})
  }

  lemma {:induction false} SumPick(part: Part, keys: set<Token>, t: Token)
    requires keys <= part.Keys && t in keys
    ensures SumOf(part, keys) == part[t] + SumOf(part, keys - {t})
    decreases |keys|
  {
    SomeToken(keys);
    var u :| u in keys && SumOf(part, keys) == part[u] + SumOf(part, keys - {u});
    if u != t {
      SumPick(part, keys - {u}, t);
      SumPick(part, keys - {t}, u);
      assert keys - {u} - {t} == keys - {t} - {u};
    }
  }

  /** How often any token followed. */
  ghost function Samples(part: Part): int { SumOf(part, part.Keys) }

  function StaticWeight(fixed: Part, t: Token): int { if t in fixed then 100 * fixed[t] else 1 }

  /** The count of a token, weighted with its count in the static cache. */
  function Weight(part: Part, fixed: Part, t: Token): int
    requires t in part
  {
    part[t] * StaticWeight(fixed, t)
  }

  lemma WeightPositive(part: Part, fixed: Part, t: Token)
    requires t in part && part[t] > 0 && forall u :: u in fixed ==> fixed[u] > 0
    ensures Weight(part, fixed, t) > 0
  {
    MulPositive(part[t], StaticWeight(fixed, t));
  }

  lemma MulPositive(a: int, b: int)
    requires a > 0 && b > 0
    ensures a * b > 0
  {
  }

  predicate Heaviest(part: Part, fixed: Part, t: Token) {
    t in part && forall u :: u in part ==> Weight(part, fixed, u) <= Weight(part, fixed, t)
  }

  ghost predicate Enough(part: Part, t: Token, minSample: int, minPercent: int) {
    t in part && Samples(part) >= minSample && 100 * part[t] >= minPercent * Samples(part)
  }

  /** The cache proposes t behind the n-gram g. */
  ghost predicate Drawn(nc: Parts, g: Ngram, fixed: Part, minSample: int, minPercent: int, t: Token) {
    t != NULL_TOKEN && g in nc && Heaviest(nc[g], fixed, t) && Enough(nc[g], t, minSample, minPercent)
  }

  /** The n-gram is unknown, or has too few samples, or its heaviest token has too small a share. */
  ghost predicate NotDrawn(nc: Parts, g: Ngram, fixed: Part, minSample: int, minPercent: int) {
    g in nc ==> Samples(nc[g]) < minSample || exists t :: Unlikely(nc[g], fixed, minPercent, t)
  }

  ghost predicate Unlikely(part: Part, fixed: Part, minPercent: int, t: Token) {
    Heaviest(part, fixed, t) && (t == NULL_TOKEN || 100 * part[t] < minPercent * Samples(part))
  }

  ghost predicate Outcome(nc: Parts, g: Ngram, fixed: Part, minSample: int, minPercent: int, t: Token) {
    if t == NULL_TOKEN then NotDrawn(nc, g, fixed, minSample, minPercent)
        else Drawn(nc, g, fixed, minSample, minPercent, t)
  }

  /** The last n-gram in the list for which the cache proposes a token decides. */
  ghost predicate PrimaryOutcome(nc: Parts, grams: seq<Ngram>, fixed: Part, minSample: seq<int>, minPercent: seq<int>,
                                 upTo: nat, t: Token)
    requires upTo <= |grams| <= |minSample| && |grams| <= |minPercent|
  {
    exists i: nat :: Decides(nc, grams, fixed, minSample, minPercent, upTo, i, t)
  }

  ghost predicate Decides(nc: Parts, grams: seq<Ngram>, fixed: Part, minSample: seq<int>, minPercent: seq<int>,
                          upTo: nat, i: nat, t: Token)
    requires upTo <= |grams| <= |minSample| && |grams| <= |minPercent|
  {
    && upTo <= i <= |grams|
    && (forall j :: i <= j < |grams| ==> NotDrawn(nc, grams[j], fixed, minSample[j], minPercent[j]))
    && if t == NULL_TOKEN then i == upTo
       else i > upTo && Drawn(nc, grams[i - 1], fixed, minSample[i - 1], minPercent[i - 1], t)
  }

  // ---------------------------------------------------------------------------------------------
  // One token
  // ---------------------------------------------------------------------------------------------

  /** The loop over a part in any order: the heaviest token and the number of samples. */
  method Scan(part: Part, fixed: Part) returns (best: Token, sum: int)
    requires PositivePart(part) && forall u :: u in fixed ==> fixed[u] > 0
    ensures Heaviest(part, fixed, best) && sum == Samples(part)
  {
    var maxPrimary, maxStatic := 0, 0;
    best, sum := NULL_TOKEN, 0;
    var todo := part.Keys;
    while todo != {}
      invariant todo <= part.Keys && sum == SumOf(part, part.Keys - todo)
      invariant todo == part.Keys ==> maxPrimary * maxStatic == 0
      invariant todo != part.Keys ==> best in part && maxPrimary * maxStatic == Weight(part, fixed, best)
      invariant forall u :: u in part && u !in todo ==> Weight(part, fixed, u) <= maxPrimary * maxStatic
    {
      SomeToken(todo);
      var t :| t in todo;
      WeightPositive(part, fixed, t);
      var countPrimary := part[t];
      var countStatic := if t in fixed then 100 * fixed[t] else 1;
      ghost var done := part.Keys - todo;
      if countPrimary * countStatic > maxPrimary * maxStatic {
        best, maxPrimary, maxStatic := t, countPrimary, countStatic;
      }
      sum := sum + countPrimary;
      todo := todo - {t};
      assert part.Keys - todo == done + {t} && done + {t} - {t} == done;
      SumPick(part, done + {t}, t);
    }
    assert part.Keys - {} == part.Keys;
  }

  /** One n-gram in one cache. */
  method TryOne(nc: Parts, g: Ngram, fixed: Part, minSample: int, minPercent: int) returns (t: Token)
    requires Positive(nc) && forall u :: u in fixed ==> fixed[u] > 0
    ensures Outcome(nc, g, fixed, minSample, minPercent, t)
  {
    if g !in nc {
      return NULL_TOKEN;
    }
    var part := nc[g];
    assert PositivePart(part);
    var best, sum := Scan(part, fixed);
    if sum < minSample {
      return NULL_TOKEN;
    }
    if 100 * part[best] < minPercent * sum {
      assert Unlikely(part, fixed, minPercent, best);
      return NULL_TOKEN;
    }
    assert best == NULL_TOKEN ==> Unlikely(part, fixed, minPercent, best);
    return best;
  }

  /** `try_draft` for the context and dynamic caches: the longest n-gram first. */
  method TryPrimary(nc: Parts, grams: seq<Ngram>, fixed: Part, minSample: seq<int>, minPercent: seq<int>)
    returns (drafted: Token)
    requires |grams| <= |minSample| && |grams| <= |minPercent|
    requires Positive(nc) && forall u :: u in fixed ==> fixed[u] > 0
    ensures PrimaryOutcome(nc, grams, fixed, minSample, minPercent, 0, drafted)
  {
    drafted := NULL_TOKEN;
    var i := |grams|;
    assert Decides(nc, grams, fixed, minSample, minPercent, i, i, NULL_TOKEN);
    while i > 0 && drafted == NULL_TOKEN
      invariant 0 <= i <= |grams| && PrimaryOutcome(nc, grams, fixed, minSample, minPercent, i, drafted)
    {
      i := i - 1;
      drafted := TryOne(nc, grams[i], fixed, minSample[i], minPercent[i]);
      assert Decides(nc, grams, fixed, minSample, minPercent, i, if drafted == NULL_TOKEN then i else i + 1, drafted);
    }
    EarlierDoNotMatter(nc, grams, fixed, minSample, minPercent, i, drafted);
  }

  lemma EarlierDoNotMatter(nc: Parts, grams: seq<Ngram>, fixed: Part, minSample: seq<int>, minPercent: seq<int>,
                           upTo: nat, t: Token)
    requires upTo <= |grams| <= |minSample| && |grams| <= |minPercent|
    requires PrimaryOutcome(nc, grams, fixed, minSample, minPercent, upTo, t) && (upTo == 0 || t != NULL_TOKEN)
    ensures PrimaryOutcome(nc, grams, fixed, minSample, minPercent, 0, t)
  {
    var i: nat :| Decides(nc, grams, fixed, minSample, minPercent, upTo, i, t);
    assert Decides(nc, grams, fixed, minSample, minPercent, 0, i, t);
  }

  // ---------------------------------------------------------------------------------------------
  // The draft
  // ---------------------------------------------------------------------------------------------

  function GetToken(inp: seq<Token>, draft: seq<Token>, i: nat): (t: Token)
    requires draft != [] && i < |inp| + |draft| - 1
    ensures t == (inp + draft[1..])[i]
  {
    if i < |inp| then inp[i] else draft[1 + i - |inp|]
  }

  /** The n-grams of all sizes in range that end the text. */
  function Endings(text: seq<Token>, ngramMin: nat, ngramMax: nat): (grams: seq<Ngram>)
    requires ngramMin <= ngramMax + 1 && ngramMax <= |text|
    ensures |grams| == ngramMax + 1 - ngramMin
    ensures forall i :: 0 <= i < |grams| ==> grams[i] == Gram(text, |text|, ngramMin + i)
  {
    seq(ngramMax + 1 - ngramMin, i requires 0 <= i < ngramMax + 1 - ngramMin => Gram(text, |text|, ngramMin + i))
  }

  method BuildGram(inp: seq<Token>, draft: seq<Token>, size: nat) returns (g: Ngram)
    requires draft != [] && size <= NGRAM_MAX && size <= |inp| + |draft| - 1
    ensures g == Gram(inp + draft[1..], |inp| + |draft| - 1, size)
  {
    ghost var text := inp + draft[1..];
    var start := |inp| - size + |draft| - 1;
    g := seq(NGRAM_MAX, _ => NULL_TOKEN);
    for j := start to start + size
      invariant |g| == NGRAM_MAX
      invariant forall k :: 0 <= k < NGRAM_MAX ==> g[k] == if k < j - start then text[start + k] else NULL_TOKEN
    {
      g := g[j - start := GetToken(inp, draft, j)];
    }
  }

  method BuildGrams(inp: seq<Token>, draft: seq<Token>, ngramMin: nat, ngramMax: nat) returns (grams: seq<Ngram>)
    requires draft != [] && ngramMin <= ngramMax <= NGRAM_MAX && ngramMax <= |inp| + |draft| - 1
    ensures grams == Endings(inp + draft[1..], ngramMin, ngramMax)
  {
    grams := [];
    for size := ngramMin to ngramMax + 1
      invariant |grams| == size - ngramMin
      invariant forall i :: 0 <= i < |grams| ==> grams[i] == Gram(inp + draft[1..], |inp| + |draft| - 1, ngramMin + i)
    {
      var g := BuildGram(inp, draft, size);
      grams := grams + [g];
    }
  }

  datatype Caches = Caches(context: Parts, dynamic: Parts, fixed: Parts)

  predicate GoodCaches(nc: Caches) { Positive(nc.context) && Positive(nc.dynamic) && Positive(nc.fixed) }

  /** What the three caches say about the next token: the context cache first, with lax limits; then the dynamic one,
      with strict limits; then the static one alone. */
  ghost predicate Proposed(nc: Caches, text: seq<Token>, ngramMin: nat, ngramMax: nat, t: Token)
    requires 1 <= ngramMin <= ngramMax <= NGRAM_MAX && ngramMax <= |text| && NGRAM_STATIC <= |text|
  {
    var grams := Endings(text, ngramMin, ngramMax);
    var pair := Gram(text, |text|, NGRAM_STATIC);
    var fixed := PartsAt(nc.fixed, pair);
    if t != NULL_TOKEN && PrimaryOutcome(nc.context, grams, fixed, SAMPLE_LAX, PERCENT_LAX, 0, t) then true
    else
      && PrimaryOutcome(nc.context, grams, fixed, SAMPLE_LAX, PERCENT_LAX, 0, NULL_TOKEN)
      && if t != NULL_TOKEN && PrimaryOutcome(nc.dynamic, grams, fixed, SAMPLE_STRICT, PERCENT_STRICT, 0, t) then true
         else
           && PrimaryOutcome(nc.dynamic, grams, fixed, SAMPLE_STRICT, PERCENT_STRICT, 0, NULL_TOKEN)
           && Outcome(nc.fixed, pair, map[], SAMPLE_LAX[NGRAM_STATIC - 1], PERCENT_LAX[NGRAM_STATIC - 1], t)
  }

  /** One round of the draft loop. */
  method Propose(nc: Caches, inp: seq<Token>, draft: seq<Token>, ngramMin: nat, ngramMax: nat) returns (drafted: Token)
    requires GoodCaches(nc) && draft != [] && 1 <= ngramMin <= ngramMax <= NGRAM_MAX
    requires ngramMax <= |inp| && NGRAM_STATIC <= |inp|
    ensures Proposed(nc, inp + draft[1..], ngramMin, ngramMax, drafted)
  {
    var pair := BuildGram(inp, draft, NGRAM_STATIC);
    var partStatic: Part := map[];
    if pair in nc.fixed {
      partStatic := nc.fixed[pair];
      assert PositivePart(partStatic);
    }
    var grams := BuildGrams(inp, draft, ngramMin, ngramMax);
    drafted := TryPrimary(nc.context, grams, partStatic, SAMPLE_LAX, PERCENT_LAX);
    if drafted == NULL_TOKEN {
      drafted := TryPrimary(nc.dynamic, grams, partStatic, SAMPLE_STRICT, PERCENT_STRICT);
    }
    if drafted == NULL_TOKEN {
      drafted := TryOne(nc.fixed, pair, map[], SAMPLE_LAX[NGRAM_STATIC - 1], PERCENT_LAX[NGRAM_STATIC - 1]);
    }
  }

  /** `common_ngram_cache_draft` */
  method Draft(nc: Caches, inp: seq<Token>, start: seq<Token>, nDraft: int, ngramMin: nat, ngramMax: nat)
    returns (draft: seq<Token>)
    requires GoodCaches(nc) && |start| == 1 && 1 <= ngramMin <= ngramMax <= NGRAM_MAX && ngramMax <= |inp|
    ensures start <= draft && |draft| <= if nDraft > 0 then nDraft + 1 else 1
    ensures |inp| < NGRAM_STATIC ==> draft == start
    ensures |inp| >= NGRAM_STATIC ==> forall j :: 1 <= j < |draft| ==>
              draft[j] != NULL_TOKEN && Proposed(nc, inp + draft[1..j], ngramMin, ngramMax, draft[j])
    ensures |inp| >= NGRAM_STATIC && |draft| - 1 < nDraft ==>
            Proposed(nc, inp + draft[1..], ngramMin, ngramMax, NULL_TOKEN)
  {
    draft := start;
    if |inp| < NGRAM_STATIC {
      return;
    }
    while |draft| - 1 < nDraft
      invariant start <= draft && |draft| <= if nDraft > 0 then nDraft + 1 else 1
      invariant forall j :: 1 <= j < |draft| ==>
                  draft[j] != NULL_TOKEN && Proposed(nc, inp + draft[1..j], ngramMin, ngramMax, draft[j])
      decreases nDraft - |draft|
    {
      var drafted := Propose(nc, inp, draft, ngramMin, ngramMax);
      if drafted == NULL_TOKEN {
        break;
      }
      ghost var was := draft;
      draft := draft + [drafted];
      assert draft[1..|was|] == was[1..];
      assert forall j :: 1 <= j < |was| ==> draft[1..j] == was[1..j] && draft[j] == was[j];
    }
  }

  /** How many samples an n-gram needs, and how many of a hundred the drafted token has to have, by its size. */
  const LAX: (seq<int>, seq<int>) := ([2, 2, 1, 1], [66, 50, 50, 50])
  const STRICT: (seq<int>, seq<int>) := ([4, 3, 2, 2], [75, 66, 66, 66])

  /** Every proposed token follows an n-gram at the end of the text in one of the caches, with a count that meets the
      limits of that cache; and no token that followed there counts for more, where a token that the static cache knows
      counts a hundred times its count there. The context cache comes first, then the dynamic one; in both, a longer
      n-gram comes before a shorter one; those before are silent. */
  lemma ProposedIsBacked(nc: Caches, text: seq<Token>, ngramMin: nat, ngramMax: nat, t: Token) returns (k: nat)
    requires 1 <= ngramMin <= ngramMax <= NGRAM_MAX && ngramMax <= |text| && NGRAM_STATIC <= |text|
    requires t != NULL_TOKEN && Proposed(nc, text, ngramMin, ngramMax, t)
    ensures 1 <= k <= NGRAM_MAX && k <= |text|
    ensures var fixed := PartsAt(nc.fixed, Gram(text, |text|, 2));
            || (ngramMin <= k <= ngramMax && Backed(nc.context, text, k, ngramMin, fixed, LAX, t)
                && Silent(nc.context, text, ngramMin, k + 1, ngramMax, fixed, LAX))
            || (ngramMin <= k <= ngramMax && Backed(nc.dynamic, text, k, ngramMin, fixed, STRICT, t)
                && Silent(nc.context, text, ngramMin, ngramMin, ngramMax, fixed, LAX)
                && Silent(nc.dynamic, text, ngramMin, k + 1, ngramMax, fixed, STRICT))
            || (k == 2 && Backed(nc.fixed, text, 2, 1, map[], LAX, t)
                && Silent(nc.context, text, ngramMin, ngramMin, ngramMax, fixed, LAX)
                && Silent(nc.dynamic, text, ngramMin, ngramMin, ngramMax, fixed, STRICT))
  {
    var grams := Endings(text, ngramMin, ngramMax);
    var fixed := PartsAt(nc.fixed, Gram(text, |text|, NGRAM_STATIC));
    if PrimaryOutcome(nc.context, grams, fixed, SAMPLE_LAX, PERCENT_LAX, 0, t) {
      k := PrimaryIsBacked(nc.context, text, ngramMin, ngramMax, fixed, LAX, t);
    } else {
      NothingIsSilent(nc.context, text, ngramMin, ngramMax, fixed, LAX);
      if PrimaryOutcome(nc.dynamic, grams, fixed, SAMPLE_STRICT, PERCENT_STRICT, 0, t) {
        k := PrimaryIsBacked(nc.dynamic, text, ngramMin, ngramMax, fixed, STRICT, t);
      } else {
        NothingIsSilent(nc.dynamic, text, ngramMin, ngramMax, fixed, STRICT);
        k := NGRAM_STATIC;
        HeaviestCountsMost(nc.fixed[Gram(text, |text|, 2)], map[], t);
      }
    }
  }

  /** When nothing is proposed, all three caches are silent. */
  lemma NothingIsProposed(nc: Caches, text: seq<Token>, ngramMin: nat, ngramMax: nat)
    requires 1 <= ngramMin <= ngramMax <= NGRAM_MAX && ngramMax <= |text| && NGRAM_STATIC <= |text|
    requires Proposed(nc, text, ngramMin, ngramMax, NULL_TOKEN)
    ensures var fixed := PartsAt(nc.fixed, Gram(text, |text|, 2));
            && Silent(nc.context, text, ngramMin, ngramMin, ngramMax, fixed, LAX)
            && Silent(nc.dynamic, text, ngramMin, ngramMin, ngramMax, fixed, STRICT)
            && Silent(nc.fixed, text, 1, 2, 2, map[], LAX)
  {
    var fixed := PartsAt(nc.fixed, Gram(text, |text|, NGRAM_STATIC));
    NothingIsSilent(nc.context, text, ngramMin, ngramMax, fixed, LAX);
    NothingIsSilent(nc.dynamic, text, ngramMin, ngramMax, fixed, STRICT);
    var pair := Gram(text, |text|, 2);
    if pair in nc.fixed { NotDrawnIsWeak(nc.fixed, pair, map[], 2, 50); }
  }

  predicate Limits(limits: (seq<int>, seq<int>)) { |limits.0| == NGRAM_MAX && |limits.1| == NGRAM_MAX }

  /** The n-gram of size k that ends the text is known to the cache, with enough samples; t has its share of them, and
      no other token counts for more. */
  ghost predicate Backed(nc: Parts, text: seq<Token>, k: nat, ngramMin: nat, fixed: Part, limits: (seq<int>, seq<int>),
                         t: Token)
    requires ngramMin <= k <= |text| && k - ngramMin < NGRAM_MAX && Limits(limits)
  {
    var g := Gram(text, |text|, k);
    && g in nc && CountsMost(nc[g], fixed, t)
    && Samples(nc[g]) >= limits.0[k - ngramMin] && 100 * nc[g][t] >= limits.1[k - ngramMin] * Samples(nc[g])
  }

  /** The n-grams of the sizes from `from` on that end the text are unknown to the cache or too weak. */
  ghost predicate Silent(nc: Parts, text: seq<Token>, ngramMin: nat, from: nat, ngramMax: nat, fixed: Part,
                         limits: (seq<int>, seq<int>))
    requires ngramMin <= from && ngramMax <= |text| && ngramMax - ngramMin < NGRAM_MAX && Limits(limits)
  {
    forall j: nat :: from <= j <= ngramMax && Gram(text, |text|, j) in nc ==>
                       Weak(nc[Gram(text, |text|, j)], fixed, limits.0[j - ngramMin], limits.1[j - ngramMin])
  }

  /** Too few samples, or a token that counts most has too small a share. */
  ghost predicate Weak(part: Part, fixed: Part, minSample: int, minPercent: int) {
    || Samples(part) < minSample
    || exists u :: CountsMost(part, fixed, u) && (u == NULL_TOKEN || 100 * part[u] < minPercent * Samples(part))
  }

  lemma NotDrawnIsWeak(nc: Parts, g: Ngram, fixed: Part, minSample: int, minPercent: int)
    requires g in nc && NotDrawn(nc, g, fixed, minSample, minPercent)
    ensures Weak(nc[g], fixed, minSample, minPercent)
  {
    if Samples(nc[g]) >= minSample {
      var u :| Unlikely(nc[g], fixed, minPercent, u);
      HeaviestCountsMost(nc[g], fixed, u);
    }
  }

  lemma NothingIsSilent(nc: Parts, text: seq<Token>, ngramMin: nat, ngramMax: nat, fixed: Part,
                        limits: (seq<int>, seq<int>))
    requires 1 <= ngramMin <= ngramMax <= NGRAM_MAX && ngramMax <= |text| && Limits(limits)
    requires PrimaryOutcome(nc, Endings(text, ngramMin, ngramMax), fixed, limits.0, limits.1, 0, NULL_TOKEN)
    ensures Silent(nc, text, ngramMin, ngramMin, ngramMax, fixed, limits)
  {
    var grams := Endings(text, ngramMin, ngramMax);
    var i: nat :| Decides(nc, grams, fixed, limits.0, limits.1, 0, i, NULL_TOKEN);
    SilentFrom(nc, text, ngramMin, ngramMin, ngramMax, fixed, limits);
  }

  lemma SilentFrom(nc: Parts, text: seq<Token>, ngramMin: nat, from: nat, ngramMax: nat, fixed: Part,
                   limits: (seq<int>, seq<int>))
    requires 1 <= ngramMin <= from && ngramMin <= ngramMax <= NGRAM_MAX && ngramMax <= |text| && Limits(limits)
    requires var grams := Endings(text, ngramMin, ngramMax);
             forall j :: from - ngramMin <= j < |grams| ==> NotDrawn(nc, grams[j], fixed, limits.0[j], limits.1[j])
    ensures Silent(nc, text, ngramMin, from, ngramMax, fixed, limits)
  {
    var grams := Endings(text, ngramMin, ngramMax);
    forall j: nat | from <= j <= ngramMax && Gram(text, |text|, j) in nc
      ensures Weak(nc[Gram(text, |text|, j)], fixed, limits.0[j - ngramMin], limits.1[j - ngramMin])
    {
      assert grams[j - ngramMin] == Gram(text, |text|, j);
      NotDrawnIsWeak(nc, grams[j - ngramMin], fixed, limits.0[j - ngramMin], limits.1[j - ngramMin]);
    }
  }

  /** No token of the part outweighs t, in counts. */
  predicate CountsMost(part: Part, fixed: Part, t: Token) {
    t in part
    && forall u :: u in part ==>
                     part[u] * (if u in fixed then 100 * fixed[u] else 1)
                     <= part[t] * (if t in fixed then 100 * fixed[t] else 1)
  }

  lemma HeaviestCountsMost(part: Part, fixed: Part, t: Token)
    requires Heaviest(part, fixed, t)
    ensures CountsMost(part, fixed, t)
  {
    forall u | u in part
      ensures part[u] * (if u in fixed then 100 * fixed[u] else 1)
              <= part[t] * (if t in fixed then 100 * fixed[t] else 1)
    {
      assert Weight(part, fixed, u) <= Weight(part, fixed, t);
    }
  }

  /** A token that the static cache does not know is drafted only if it is a hundred times as frequent as all those it
      does know. */
  lemma UnknownNeedsMore(part: Part, fixed: Part, t: Token, u: Token)
    requires CountsMost(part, fixed, t) && t !in fixed && u in part && u in fixed
    ensures part[t] >= 100 * fixed[u] * part[u]
  {
    assert part[u] * (100 * fixed[u]) == 100 * fixed[u] * part[u];
  }

  lemma PrimaryIsBacked(nc: Parts, text: seq<Token>, ngramMin: nat, ngramMax: nat, fixed: Part,
                        limits: (seq<int>, seq<int>), t: Token) returns (k: nat)
    requires 1 <= ngramMin <= ngramMax <= NGRAM_MAX && ngramMax <= |text| && Limits(limits)
    requires t != NULL_TOKEN
             && PrimaryOutcome(nc, Endings(text, ngramMin, ngramMax), fixed, limits.0, limits.1, 0, t)
    ensures ngramMin <= k <= ngramMax && Backed(nc, text, k, ngramMin, fixed, limits, t)
    ensures Silent(nc, text, ngramMin, k + 1, ngramMax, fixed, limits)
  {
    var i: nat :| Decides(nc, Endings(text, ngramMin, ngramMax), fixed, limits.0, limits.1, 0, i, t);
    k := ngramMin + i - 1;
    HeaviestCountsMost(nc[Gram(text, |text|, k)], fixed, t);
    SilentFrom(nc, text, ngramMin, k + 1, ngramMax, fixed, limits);
  }
}
