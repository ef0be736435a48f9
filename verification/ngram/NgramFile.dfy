/** Saving a cache to a file and loading it, whatever the order in which the hash maps are walked.

    A file is a sequence of 32-bit words. */
module NgramFile {
  import opened Results
  import opened NgramCache

  type Word = int

  datatype Abort = Aborted

  /** A part in the order in which it was written. */
  type Counts = seq<(Token, int)>

  function CountWords(counts: Counts): (ws: seq<Word>)
    ensures |ws| == 2 * |counts|
  {
    if counts == [] then [] else CountWords(counts[..|counts| - 1]) + [counts[|counts| - 1].0, counts[|counts| - 1].1]
  }

  function ItemWords(g: Ngram, counts: Counts): seq<Word> { g + [|counts|] + CountWords(counts) }

  /** Where the words of an item lie: the n-gram, the number of tokens, and then each token with its count. */
  lemma {:induction false} CountsLayout(counts: Counts, k: nat)
    requires k < |counts|
    ensures CountWords(counts)[2 * k] == counts[k].0 && CountWords(counts)[2 * k + 1] == counts[k].1
  {
    var n := |counts| - 1;
    if k < n { CountsLayout(counts[..n], k); }
  }

  lemma ItemLayout(g: Ngram, counts: Counts, k: nat)
    requires |g| == NGRAM_MAX && k < |counts|
    ensures var ws := ItemWords(g, counts);
            && |ws| == NGRAM_MAX + 1 + 2 * |counts| && ws[..NGRAM_MAX] == g && ws[NGRAM_MAX] == |counts|
            && ws[NGRAM_MAX + 1 + 2 * k] == counts[k].0 && ws[NGRAM_MAX + 2 + 2 * k] == counts[k].1
  {
    CountsLayout(counts, k);
  }

  /** The items of a cache in the order in which they were written. */
  type Items = seq<(Ngram, Counts)>

  function Words(items: Items): seq<Word> {
    if items == [] then [] else Words(items[..|items| - 1]) + ItemWords(items[|items| - 1].0, items[|items| - 1].1)
  }

  /** What the counts stand for; a token that is there already keeps its count. */
  function AsPart(counts: Counts): Part {
    if counts == [] then map[]
    else
      var part, last := AsPart(counts[..|counts| - 1]), counts[|counts| - 1];
      if last.0 in part then part else part[last.0 := last.1]
  }

  function AsParts(items: Items): Parts {
    if items == [] then map[]
    else
      var parts, last := AsParts(items[..|items| - 1]), items[|items| - 1];
      if last.0 in parts then parts else parts[last.0 := AsPart(last.1)]
  }

  predicate GoodCounts(counts: Counts) { counts != [] && forall i :: 0 <= i < |counts| ==> counts[i].1 > 0 }

  predicate GoodItems(items: Items) {
    forall i :: 0 <= i < |items| ==> |items[i].0| == NGRAM_MAX && GoodCounts(items[i].1)
  }

  /** n-grams have their fixed size. */
  predicate FixedSize(parts: Parts) { forall g :: g in parts ==> |g| == NGRAM_MAX }

  // ---------------------------------------------------------------------------------------------
  // Saving
  // ---------------------------------------------------------------------------------------------

  /** The inner loop: a part, in any order. */
  method SavePart(part: Part) returns (words: seq<Word>, ghost counts: Counts)
    requires PositivePart(part)
    ensures words == CountWords(counts) && |counts| == |part| && GoodCounts(counts) && AsPart(counts) == part
  {
    words, counts := [], [];
    var todo := part.Keys;
    while todo != {}
      invariant todo <= part.Keys && words == CountWords(counts) && |counts| + |todo| == |part.Keys|
      invariant AsPart(counts) == RestrictPart(part, part.Keys - todo)
      invariant forall i :: 0 <= i < |counts| ==> counts[i].1 > 0
    {
      SomeToken(todo);
      var t :| t in todo;
      words := words + [t, part[t]];
      ghost var more := counts + [(t, part[t])];
      assert more[..|counts|] == counts && more[|counts|] == (t, part[t]);
      counts := more;
      todo := todo - {t};
      assert AsPart(counts) == RestrictPart(part, part.Keys - todo);
    }
    assert RestrictPart(part, part.Keys - {}) == part;
    assert |part.Keys| == |part|;
  }

  /** `common_ngram_cache_save` */
  method Save(cache: Cache) returns (file: seq<Word>, ghost items: Items)
    requires Positive(cache.parts) && FixedSize(cache.parts)
    ensures file == Words(items) && GoodItems(items) && AsParts(items) == cache.parts
  {
    file, items := [], [];
    var todo := cache.parts.Keys;
    while todo != {}
      invariant todo <= cache.parts.Keys && file == Words(items) && GoodItems(items)
      invariant AsParts(items) == Restrict(cache.parts, cache.parts.Keys - todo)
    {
      var g :| g in todo;
      file, items := SaveItem(cache.parts, todo, g, file, items);
      todo := todo - {g};
    }
    assert Restrict(cache.parts, cache.parts.Keys - {}) == cache.parts;
  }

  method SaveItem(parts: Parts, ghost todo: set<Ngram>, g: Ngram, before: seq<Word>, ghost items: Items)
    returns (file: seq<Word>, ghost more: Items)
    requires Positive(parts) && FixedSize(parts) && todo <= parts.Keys && g in todo
    requires before == Words(items) && GoodItems(items) && AsParts(items) == Restrict(parts, parts.Keys - todo)
    ensures file == Words(more) && GoodItems(more) && AsParts(more) == Restrict(parts, parts.Keys - (todo - {g}))
  {
    var part := parts[g];
    assert PositivePart(part);
    var words;
    ghost var counts;
    words, counts := SavePart(part);
    file := before + (g + [|part|] + words);
    more := items + [(g, counts)];
    assert more[..|items|] == items && more[|items|] == (g, counts);
    assert g !in AsParts(items);
    assert Restrict(parts, parts.Keys - (todo - {g})) == Restrict(parts, parts.Keys - todo)[g := part];
  }

  // ---------------------------------------------------------------------------------------------
  // Loading
  // ---------------------------------------------------------------------------------------------

  /** n counts from position `at` on, added to `part`; aborts at the end of the file and for counts below one. */
  function PartAt(file: seq<Word>, at: nat, n: int, part: Part): Result<Part, Abort>
    decreases n
  {
    if n <= 0 then Ok(part)
    else if at + 2 > |file| || file[at + 1] <= 0 then Err(Aborted)
    else PartAt(file, at + 2, n - 1, if file[at] in part then part else part[file[at] := file[at + 1]])
  }

  /** The items from position `at` on, added to `parts`. */
  function PartsFrom(file: seq<Word>, at: nat, parts: Parts): Result<Parts, Abort>
    decreases |file| - at
  {
    if at + NGRAM_MAX > |file| then Ok(parts)
    else if at + NGRAM_MAX == |file| || file[at + NGRAM_MAX] <= 0 then Err(Aborted)
    else
      var g, n := file[at..at + NGRAM_MAX], file[at + NGRAM_MAX];
      match PartAt(file, at + NGRAM_MAX + 1, n, map[])
      case Err(e) => Err(e)
      case Ok(part) => PartsFrom(file, at + NGRAM_MAX + 1 + 2 * n, if g in parts then parts else parts[g := part])
  }

  method LoadPart(file: seq<Word>, start: nat, n: int) returns (r: Result<Part, Abort>)
    requires start <= |file| && n > 0
    ensures r == PartAt(file, start, n, map[])
  {
    var part: Part := map[];
    var at := start;
    for i := 0 to n
      invariant at == start + 2 * i
      invariant PartAt(file, start, n, map[]) == PartAt(file, at, n - i, part)
    {
      if at + 2 > |file| || file[at + 1] <= 0 {
        return Err(Aborted);
      }
      var token, count := file[at], file[at + 1];
      if token !in part {
        part := part[token := count];
      }
      at := at + 2;
    }
    return Ok(part);
  }

  /** `common_ngram_cache_load` for the words of a file that can be opened. */
  method Load(file: seq<Word>) returns (r: Result<Parts, Abort>)
    ensures r == PartsFrom(file, 0, map[])
  {
    var parts: Parts := map[];
    var at := 0;
    while at + NGRAM_MAX <= |file|
      invariant PartsFrom(file, 0, map[]) == PartsFrom(file, at, parts)
      decreases |file| - at
    {
      var ngram := file[at..at + NGRAM_MAX];
      at := at + NGRAM_MAX;
      if at == |file| || file[at] <= 0 {
        return Err(Aborted);
      }
      var ntokens := file[at];
      at := at + 1;
      var part := LoadPart(file, at, ntokens);
      if part.Err? {
        return Err(part.error);
      }
      at := at + 2 * ntokens;
      if ngram !in parts {
        parts := parts[ngram := part.value];
      }
    }
    return Ok(parts);
  }

  // ---------------------------------------------------------------------------------------------
  // Loading what was saved
  // ---------------------------------------------------------------------------------------------

  /** The words at a position are those of the counts. */
  predicate WordsAt(file: seq<Word>, at: nat, words: seq<Word>) {
    at + |words| <= |file| && file[at..at + |words|] == words
  }

  lemma WordsAtSplit(file: seq<Word>, at: nat, a: seq<Word>, b: seq<Word>)
    requires WordsAt(file, at, a + b)
    ensures WordsAt(file, at, a) && WordsAt(file, at + |a|, b)
  {
    assert (a + b)[..|a|] == a && (a + b)[|a|..] == b;
    assert file[at..at + |a|] == file[at..at + |a + b|][..|a|];
    assert file[at + |a|..at + |a| + |b|] == file[at..at + |a + b|][|a|..];
  }

  /** Reading the first counts and then the rest. */
  lemma {:induction false} PartReads(file: seq<Word>, at: nat, counts: Counts, m: nat)
    requires (forall i :: 0 <= i < |counts| ==> counts[i].1 > 0) && WordsAt(file, at, CountWords(counts))
    ensures PartAt(file, at, |counts| + m, map[]) == PartAt(file, at + 2 * |counts|, m, AsPart(counts))
    decreases |counts|
  {
    if counts != [] {
      var n := |counts| - 1;
      var last := counts[n];
      WordsAtSplit(file, at, CountWords(counts[..n]), [last.0, last.1]);
      PartReads(file, at, counts[..n], m + 1);
      var k := at + 2 * n;
      assert file[k..k + 2][0] == file[k] && file[k..k + 2][1] == file[k + 1];
    }
  }

  /** Reading the first items and then whatever is behind them. */
  lemma {:induction false} ItemsRead(file: seq<Word>, items: Items)
    requires GoodItems(items) && WordsAt(file, 0, Words(items))
    ensures PartsFrom(file, 0, map[]) == PartsFrom(file, |Words(items)|, AsParts(items))
    decreases |items|
  {
    if items != [] {
      var n := |items| - 1;
      var (g, counts) := items[n];
      var before := Words(items[..n]);
      WordsAtSplit(file, 0, before, ItemWords(g, counts));
      ItemsRead(file, items[..n]);
      ItemReads(file, |before|, g, counts, AsParts(items[..n]));
    }
  }

  lemma ItemReads(file: seq<Word>, at: nat, g: Ngram, counts: Counts, parts: Parts)
    requires |g| == NGRAM_MAX && GoodCounts(counts) && WordsAt(file, at, ItemWords(g, counts))
    ensures PartsFrom(file, at, parts)
         == PartsFrom(file, at + |ItemWords(g, counts)|, if g in parts then parts else parts[g := AsPart(counts)])
  {
    WordsAtSplit(file, at, g + [|counts|], CountWords(counts));
    WordsAtSplit(file, at, g, [|counts|]);
    var k := at + NGRAM_MAX;
    assert file[k..k + 1][0] == file[k];
    PartReads(file, k + 1, counts, 0);
  }

  /** Loading undoes saving. */
  method SaveAndLoad(cache: Cache) returns (r: Result<Parts, Abort>)
    requires Positive(cache.parts) && FixedSize(cache.parts)
    ensures r == Ok(cache.parts)
  {
    var file;
    ghost var items;
    file, items := Save(cache);
    SavedLoads(items);
    r := Load(file);
  }

  /** Whatever the order in which the items were written, loading gives the cache they stand for. */
  lemma SavedLoads(items: Items)
    requires GoodItems(items)
    ensures PartsFrom(Words(items), 0, map[]) == Ok(AsParts(items))
  {
    var file := Words(items);
    assert file[0..|file|] == file;
    ItemsRead(file, items);
  }
}
