/** The draft side of speculative decoding: a token list that mirrors the cache of the draft context. */
module Draft {
  type Token = int

  /** A token for a position of the context. */
  datatype Entry = Entry(token: Token, pos: int)

  /** The most likely next token and its probability. */
  datatype Candidate = Candidate(id: Token, p: real)

  /** What the draft model and its sampler answer, given the cache and the tokens accepted since the reset. */
  type Model = (map<int, Token>, seq<Token>) -> Candidate

  datatype Params = Params(nDraft: int, nReuse: int, pMin: real)

  // ---------------------------------------------------------------------------------------------
  // The cache
  // ---------------------------------------------------------------------------------------------

  /** Position j holds the j-th token, and there are no other positions. */
  function Cells(tokens: seq<Token>): (cells: map<int, Token>) { map j | 0 <= j < |tokens| :: tokens[j] }

  lemma {:induction false} CellsSize(tokens: seq<Token>)
    ensures |Cells(tokens)| == |tokens|
  {
    if tokens != [] {
      var n := |tokens| - 1;
      CellsSize(tokens[..n]);
      assert Cells(tokens) == Cells(tokens[..n])[n := tokens[n]];
    }
  }

  /** A negative limit leaves that side open. */
  predicate InRange(p: int, p0: int, p1: int) { (p0 < 0 || p0 <= p) && (p1 < 0 || p < p1) }

  function Without(cells: map<int, Token>, p0: int, p1: int): map<int, Token> {
    cells - PositionsIn(cells, p0, p1)
  }

  function PositionsIn(cells: map<int, Token>, p0: int, p1: int): set<int> { set p | p in cells && InRange(p, p0, p1) }

  /** What lies in the range moves by delta; what would get a negative position is dropped. */
  function Moved(cells: map<int, Token>, p0: int, p1: int, delta: int): map<int, Token> {
    map q | q in Targets(cells, delta) && ComesFrom(cells, p0, p1, q, q - delta) :: cells[q - delta]
  }

  predicate ComesFrom(cells: map<int, Token>, p0: int, p1: int, q: int, p: int) {
    q >= 0 && p in cells && InRange(p, p0, p1)
  }

  function Targets(cells: map<int, Token>, delta: int): set<int> { set p | p in cells :: p + delta }

  predicate IsShift(cells: map<int, Token>, p0: int, p1: int, delta: int, shifted: map<int, Token>) {
    shifted == Without(cells, p0, p1) + Moved(cells, p0, p1, delta)
  }

  /** Nothing is moved onto a position that stays. */
  predicate NoClash(cells: map<int, Token>, p0: int, p1: int, delta: int) {
    Without(cells, p0, p1).Keys !! Moved(cells, p0, p1, delta).Keys
  }

  lemma IsMoved(cells: map<int, Token>, p0: int, p1: int, delta: int, p: int)
    requires p in cells && InRange(p, p0, p1) && p + delta >= 0
    ensures p + delta in Moved(cells, p0, p1, delta) && Moved(cells, p0, p1, delta)[p + delta] == cells[p]
  {
    assert p + delta in Targets(cells, delta);
    assert p + delta - delta == p;
  }

  function Put(cells: map<int, Token>, batch: seq<Entry>): map<int, Token> {
    if batch == [] then cells
    else var last := batch[|batch| - 1]; Put(cells, batch[..|batch| - 1])[last.pos := last.token]
  }

  /** Consecutive positions from `start` on. */
  function Entries(tokens: seq<Token>, start: int): (batch: seq<Entry>)
    ensures |batch| == |tokens| && forall i :: 0 <= i < |batch| ==> batch[i] == Entry(tokens[i], start + i)
  {
    seq(|tokens|, i requires 0 <= i < |tokens| => Entry(tokens[i], start + i))
  }

  lemma {:induction false} PutBehind(held: seq<Token>, tokens: seq<Token>)
    ensures Put(Cells(held), Entries(tokens, |held|)) == Cells(held + tokens)
  {
    var batch := Entries(tokens, |held|);
    if tokens == [] {
      assert held + tokens == held;
    } else {
      var n := |tokens| - 1;
      assert batch[..n] == Entries(tokens[..n], |held|);
      PutBehind(held, tokens[..n]);
      assert Cells(held + tokens) == Cells(held + tokens[..n])[|held| + n := tokens[n]];
    }
  }

  /** What is left of the cache of `tokens` when the first n positions are removed. */
  ghost predicate HeldFrom(cells: map<int, Token>, tokens: seq<Token>, n: nat) {
    forall p :: (p in cells <==> n <= p < |tokens|) && (p in cells ==> cells[p] == tokens[p])
  }

  lemma FrontRemoved(tokens: seq<Token>, n: nat)
    requires n <= |tokens|
    ensures HeldFrom(Without(Cells(tokens), 0, n), tokens, n)
  {
  }

  lemma NothingElse(tokens: seq<Token>, n: nat, kept: map<int, Token>)
    requires n <= |tokens| && HeldFrom(kept, tokens, n)
    ensures Without(kept, n, -1) == map[] && NoClash(kept, n, -1, 0 - n)
  {
  }

  /** A shift puts the tokens from n on at the positions from 0 on. */
  lemma FrontMoved(tokens: seq<Token>, n: nat, kept: map<int, Token>, moved: map<int, Token>)
    requires n <= |tokens| && HeldFrom(kept, tokens, n)
    requires IsShift(kept, n, -1, 0 - n, moved)
    ensures moved == Cells(tokens[n..])
  {
    NothingElse(tokens, n, kept);
    assert moved == Moved(kept, n, -1, 0 - n);
    forall q | 0 <= q < |tokens| - n ensures q in moved && moved[q] == tokens[n..][q] {
      assert q + n in kept;
      IsMoved(kept, n, -1, 0 - n, q + n);
    }
    forall q | q in moved ensures 0 <= q < |tokens| - n { assert ComesFrom(kept, n, -1, q, q + n); }
    assert moved == Cells(tokens[n..]);
  }

  lemma TailRemoved(tokens: seq<Token>, n: nat)
    requires n <= |tokens|
    ensures Without(Cells(tokens), n, -1) == Cells(tokens[..n])
  {
  }

  /** The cache of the draft context, for sequence 0. */
  class Context {
    const nCtx: nat
    var cells: map<int, Token>
    ghost var peak: nat   // the most tokens held so far

    constructor (nCtx: nat)
      ensures this.nCtx == nCtx && cells == map[] && peak == 0
    {
      this.nCtx := nCtx;
      cells := map[];
      peak := 0;
    }

    method Clear()
      modifies this
      ensures cells == map[] && peak == old(peak)
    {
      cells := map[];
    }

    /** `llama_kv_self_seq_rm` */
    method SeqRm(p0: int, p1: int)
      modifies this
      ensures cells == Without(old(cells), p0, p1)
      ensures peak == old(peak)
    {
      cells := Without(cells, p0, p1);
    }

    /** `llama_kv_self_seq_add`; no token may be moved onto one that stays. */
    method SeqAdd(p0: int, p1: int, delta: int)
      requires NoClash(cells, p0, p1, delta)
      modifies this
      ensures IsShift(old(cells), p0, p1, delta, cells)
      ensures peak == old(peak)
    {
      cells := Without(cells, p0, p1) + Moved(cells, p0, p1, delta);
    }

    /** `llama_decode`, for a batch that fits; every position must be free. */
    method Decode(batch: seq<Entry>)
      requires forall i :: 0 <= i < |batch| ==> batch[i].pos !in cells
      requires forall i, j :: 0 <= i < j < |batch| ==> batch[i].pos != batch[j].pos
      modifies this
      ensures cells == Put(old(cells), batch)
      ensures peak == Higher(|cells|, old(peak))
    {
      cells := Put(cells, batch);
      peak := Higher(|cells|, peak);
    }
  }

  // ---------------------------------------------------------------------------------------------
  // What a draft should be
  // ---------------------------------------------------------------------------------------------

  /** Plain greedy continuation of `seen`, `acc` being drafted already. It needs no cache and no history. */
  function Greedy(model: Model, seen: seq<Token>, acc: seq<Token>, params: Params): (draft: seq<Token>)
    decreases params.nDraft - |acc|
  {
    if |acc| >= params.nDraft then []
    else
      var c := model(Cells(seen), acc);
      if |acc| + 1 >= params.nDraft || c.p < params.pMin then [c.id]
      else [c.id] + Greedy(model, seen + [c.id], acc + [c.id], params)
  }

  lemma GreedyStep(model: Model, seen: seq<Token>, acc: seq<Token>, params: Params, c: Candidate, total: seq<Token>)
    requires |acc| < params.nDraft && c == model(Cells(seen), acc) && total == acc + Greedy(model, seen, acc, params)
    ensures total == if params.nDraft <= |acc| + 1 || c.p < params.pMin then acc + [c.id]
                     else acc + [c.id] + Greedy(model, seen + [c.id], acc + [c.id], params)
  {
  }

  lemma {:induction false} GreedyLength(model: Model, seen: seq<Token>, acc: seq<Token>, params: Params)
    requires |acc| < params.nDraft
    ensures 1 <= |Greedy(model, seen, acc, params)| <= params.nDraft - |acc|
    decreases params.nDraft - |acc|
  {
    var c := model(Cells(seen), acc);
    if |acc| + 1 < params.nDraft && c.p >= params.pMin { GreedyLength(model, seen + [c.id], acc + [c.id], params); }
  }

  /** Every drafted token is the most likely one behind the tokens before it; every one but the last was likely
      enough; the draft stops at its limit or at the first unlikely token. */
  lemma {:induction false} GreedyAt(model: Model, seen: seq<Token>, acc: seq<Token>, params: Params, i: nat)
    requires i < |Greedy(model, seen, acc, params)|
    ensures var d := Greedy(model, seen, acc, params);
            var c := model(Cells(seen + d[..i]), acc + d[..i]);
            && d[i] == c.id
            && (i + 1 < |d| ==> c.p >= params.pMin)
            && (i + 1 == |d| ==> c.p < params.pMin || |acc| + |d| == params.nDraft)
    decreases i
  {
    var c := model(Cells(seen), acc);
    var d := Greedy(model, seen, acc, params);
    if i == 0 {
      assert seen + d[..0] == seen && acc + d[..0] == acc;
      if |acc| + 1 < params.nDraft && c.p >= params.pMin { GreedyLength(model, seen + [c.id], acc + [c.id], params); }
    } else {
      var rest := Greedy(model, seen + [c.id], acc + [c.id], params);
      GreedyAt(model, seen + [c.id], acc + [c.id], params, i - 1);
      assert d == [c.id] + rest && d[..i] == [c.id] + rest[..i - 1];
      assert seen + d[..i] == seen + [c.id] + rest[..i - 1];
      assert acc + d[..i] == acc + [c.id] + rest[..i - 1];
    }
  }

  /** The first token of the target prompt that the draft context takes. */
  function Start(nCtx: nat, nDraft: int, size: nat): (i: nat)
    ensures 1 <= nDraft <= nCtx && i <= size ==> size - i <= nCtx - nDraft
  {
    var n := nCtx - nDraft;
    if size - n > 0 then size - n else 0
  }

  /** The part of the target prompt behind that. */
  function Window(promptTgt: seq<Token>, i: nat): seq<Token> {
    if i <= |promptTgt| then promptTgt[i..] else []
  }

  /** What fits of the target prompt beside the draft: all of it, or its last tokens. */
  predicate IsWindow(promptTgt: seq<Token>, room: int, window: seq<Token>) {
    && |window| == (if room >= |promptTgt| then |promptTgt| else if room >= 0 then room else 0)
    && window == promptTgt[|promptTgt| - |window|..]
  }

  lemma WindowIs(nCtx: nat, nDraft: int, promptTgt: seq<Token>)
    ensures IsWindow(promptTgt, nCtx - nDraft, Window(promptTgt, Start(nCtx, nDraft, |promptTgt|)))
  {
  }

  /** How many leading tokens agree. */
  function Common(a: seq<Token>, b: seq<Token>): (n: nat)
    ensures n <= |a| && n <= |b| && a[..n] == b[..n]
    ensures n < |a| && n < |b| ==> a[n] != b[n]
  {
    if a == [] || b == [] || a[0] != b[0] then 0
    else
      var n := Common(a[1..], b[1..]);
      assert a[..n + 1] == [a[0]] + a[1..][..n] && b[..n + 1] == [b[0]] + b[1..][..n];
      n + 1
  }

  lemma CommonIs(a: seq<Token>, b: seq<Token>, n: nat)
    requires n <= |a| && n <= |b| && forall k :: 0 <= k < n ==> a[k] == b[k]
    requires n < |a| && n < |b| ==> a[n] != b[n]
    ensures Common(a, b) == n
  {
    var m := Common(a, b);
    assert forall k :: 0 <= k < m ==> a[k] == a[..m][k] == b[..m][k] == b[k];
  }

  /** A short stretch is reused only if the whole target prompt is in the window. */
  predicate Allowed(n: int, params: Params, whole: bool) { n >= params.nReuse || whole }

  /** The reusable stretch: the longest run of the old prompt that begins the window, if it is allowed; the first of
      several. */
  predicate BestReuse(window: seq<Token>, prompt: seq<Token>, params: Params, whole: bool, upTo: nat, i: nat, n: nat)
    requires upTo <= |prompt|
  {
    && (n == 0 ==> i == 0)
    && (n > 0 ==> i < upTo && Agreeing(window, prompt, i) == n && Allowed(n, params, whole))
    && forall k :: 0 <= k < upTo ==> NoBetter(window, prompt, k, params, whole, i, n)
  }

  function Agreeing(window: seq<Token>, prompt: seq<Token>, k: nat): (n: nat)
    requires k <= |prompt|
  {
    Common(window, prompt[k..])
  }

  /** The run at k is not allowed or not longer, and if it comes first, shorter. */
  predicate NoBetter(window: seq<Token>, prompt: seq<Token>, k: nat, params: Params, whole: bool, i: nat, n: nat)
    requires k <= |prompt|
  {
    var c := Agreeing(window, prompt, k);
    Allowed(c, params, whole) && c > 0 ==> c <= n && (k < i ==> c < n)
  }

  predicate IsBetter(window: seq<Token>, prompt: seq<Token>, k: nat, params: Params, whole: bool, n: nat)
    requires k <= |prompt|
  {
    Allowed(Agreeing(window, prompt, k), params, whole) && Agreeing(window, prompt, k) > n
  }

  lemma KeepsBest(window: seq<Token>, prompt: seq<Token>, params: Params, whole: bool, upTo: nat, i: nat, n: nat,
                  i': nat, n': nat)
    requires upTo < |prompt| && BestReuse(window, prompt, params, whole, upTo, i, n)
    requires IsBetter(window, prompt, upTo, params, whole, n) ==> i' == upTo && n' == Agreeing(window, prompt, upTo)
    requires !IsBetter(window, prompt, upTo, params, whole, n) ==> i' == i && n' == n
    ensures BestReuse(window, prompt, params, whole, upTo + 1, i', n')
  {
    forall k | 0 <= k <= upTo ensures NoBetter(window, prompt, k, params, whole, i', n') {
      if k < upTo { assert NoBetter(window, prompt, k, params, whole, i, n); }
    }
  }

  /** The draft passed back is what followed a stretch of the old prompt that begins the window and then `idLast`. */
  predicate OldDraft(prompt: seq<Token>, window: seq<Token>, idLast: Token, i: nat, n: nat, params: Params,
                     draft: seq<Token>) {
    && n > 0 && i + n < |prompt| && n <= |window| && prompt[i..i + n] == window[..n] && prompt[i + n] == idLast
    && draft <= prompt[i + n + 1..]
    && |draft| == Lower(|prompt| - i - n - 1, if params.nDraft > 1 then params.nDraft else 1)
  }

  function Lower(a: nat, b: nat): nat { if a < b then a else b }

  /** The stretch of the old prompt that can be reused best; if `idLast` follows it, the old draft is passed back. */
  predicate Reuses(prompt: seq<Token>, window: seq<Token>, idLast: Token, params: Params, whole: bool, early: bool,
                   draft: seq<Token>, i: nat, n: nat) {
    && BestReuse(window, prompt, params, whole, |prompt|, i, n)
    && (early <==> n > 0 && i + n < |prompt| && prompt[i + n] == idLast)
    && (early ==> OldDraft(prompt, window, idLast, i, n, params, draft))
  }

  lemma PassedBack(prompt: seq<Token>, window: seq<Token>, idLast: Token, i: nat, n: nat, params: Params,
                   draft: seq<Token>)
    requires 0 < n && i + n < |prompt| && prompt[i + n] == idLast && Agreeing(window, prompt, i) == n
    requires draft <= prompt[i + n + 1..]
    requires |draft| == Lower(|prompt| - i - n - 1, if params.nDraft > 1 then params.nDraft else 1)
    ensures OldDraft(prompt, window, idLast, i, n, params, draft)
  {
    assert prompt[i..i + n] == prompt[i..][..n];
  }

  /** A new draft: the greedy continuation of the window and `idLast`; the prompt is all of that but the last token. */
  predicate NewDraft(model: Model, window: seq<Token>, idLast: Token, params: Params, prompt: seq<Token>,
                     draft: seq<Token>) {
    && draft == Greedy(model, window + [idLast], [], params)
    && prompt == window + [idLast] + AllButLast(draft)
  }

  function AllButLast(tokens: seq<Token>): seq<Token> { if tokens == [] then [] else tokens[..|tokens| - 1] }

  function Higher(a: nat, b: nat): nat { if a > b then a else b }

  // ---------------------------------------------------------------------------------------------
  // The draft context
  // ---------------------------------------------------------------------------------------------

  /** One call for a draft. */
  datatype Request = Request(params: Params, promptTgt: seq<Token>, idLast: Token)

  class Speculative {
    const ctx: Context
    const model: Model
    var batch: seq<Entry>
    var prompt: seq<Token>

    /** The cache holds exactly the prompt. */
    ghost predicate Mirrors()
      reads this, ctx
    {
      ctx.cells == Cells(prompt)
    }

    constructor (ctx: Context, model: Model)
      requires ctx.cells == map[]
      ensures this.ctx == ctx && this.model == model && prompt == [] && Mirrors()
    {
      this.ctx := ctx;
      this.model := model;
      batch, prompt := [], [];
    }

    /** How far the old prompt from i on agrees with the window. */
    method Agreement(promptTgt: seq<Token>, iStart: nat, i: nat) returns (cur: nat)
      requires i <= |prompt|
      ensures cur == Agreeing(Window(promptTgt, iStart), prompt, i)
    {
      ghost var window := Window(promptTgt, iStart);
      cur := 0;
      while iStart + cur < |promptTgt| && i + cur < |prompt| && promptTgt[iStart + cur] == prompt[i + cur]
        invariant cur <= |window| && i + cur <= |prompt|
        invariant forall k :: 0 <= k < cur ==> window[k] == prompt[i..][k]
      {
        cur := cur + 1;
      }
      CommonIs(window, prompt[i..], cur);
    }

    /** The search for the stretch to reuse. */
    method FindReuse(params: Params, promptTgt: seq<Token>, iStart: nat) returns (reuseI: nat, reuseN: nat)
      ensures BestReuse(Window(promptTgt, iStart), prompt, params, ctx.nCtx - params.nDraft >= |promptTgt|, |prompt|,
              reuseI, reuseN)
    {
      ghost var window := Window(promptTgt, iStart);
      reuseI, reuseN := 0, 0;
      for i := 0 to |prompt|
        invariant BestReuse(window, prompt, params, ctx.nCtx - params.nDraft >= |promptTgt|, i, reuseI, reuseN)
      {
        var cur := Agreement(promptTgt, iStart, i);
        if (cur >= params.nReuse || ctx.nCtx - params.nDraft >= |promptTgt|) && cur > reuseN {
          KeepsBest(window, prompt, params, ctx.nCtx - params.nDraft >= |promptTgt|, i, reuseI, reuseN, i, cur);
          reuseI, reuseN := i, cur;
        } else {
          KeepsBest(window, prompt, params, ctx.nCtx - params.nDraft >= |promptTgt|, i, reuseI, reuseN, reuseI, reuseN);
        }
      }
    }

    /** The front goes first ... */
    method RemoveFront(n: nat)
      requires Mirrors() && n <= |prompt|
      modifies ctx
      ensures HeldFrom(ctx.cells, prompt, n) && ctx.peak == old(ctx.peak)
    {
      FrontRemoved(prompt, n);
      ctx.SeqRm(0, n);
    }

    /** ... and the rest moves down. */
    method ShiftDown(n: nat)
      requires HeldFrom(ctx.cells, prompt, n) && n <= |prompt|
      modifies this, ctx
      ensures Mirrors() && prompt == old(prompt)[n..] && ctx.peak == old(ctx.peak)
    {
      ghost var kept := ctx.cells;
      NothingElse(prompt, n, kept);
      ctx.SeqAdd(n, -1, 0 - n);
      FrontMoved(prompt, n, kept, ctx.cells);
      prompt := prompt[n..];
    }

    /** The kept stretch becomes the whole prompt: front removal with a shift, tail removal. */
    method KeepOnly(reuseI: nat, reuseN: nat)
      requires Mirrors() && reuseI + reuseN <= |prompt|
      modifies this, ctx
      ensures Mirrors() && prompt == old(prompt)[reuseI..reuseI + reuseN]
      ensures ctx.peak == old(ctx.peak)
    {
      if reuseI > 0 {
        RemoveFront(reuseI);
        ShiftDown(reuseI);
      }
      assert prompt == old(prompt)[reuseI..];
      if reuseN < |prompt| {
        TailRemoved(prompt, reuseN);
        ctx.SeqRm(reuseN, -1);
        prompt := prompt[..reuseN];
      }
    }

    /** The loop over the tokens of the target prompt that the context has not seen yet. */
    method CollectPrompt(promptTgt: seq<Token>, iStart: nat, reuseN: nat)
      requires reuseN <= |Window(promptTgt, iStart)| && prompt == Window(promptTgt, iStart)[..reuseN]
      modifies this
      ensures prompt == Window(promptTgt, iStart) && batch == Entries(prompt[reuseN..], reuseN)
    {
      ghost var window := Window(promptTgt, iStart);
      batch := [];
      var i := iStart + reuseN;
      while i < |promptTgt|
        invariant reuseN <= i - iStart <= |window|
        invariant batch == Entries(window[reuseN..i - iStart], reuseN)
        invariant prompt == window[..i - iStart]
      {
        batch := batch + [Entry(promptTgt[i], i - iStart)];
        prompt := prompt + [promptTgt[i]];
        i := i + 1;
      }
      assert i - iStart == |window|;
      assert window[..|window|] == window && window[reuseN..|window|] == window[reuseN..];
    }

    /** The rest of the window goes to the context in one batch. */
    method FeedPrompt(promptTgt: seq<Token>, iStart: nat, reuseN: nat)
      requires Mirrors() && reuseN <= |Window(promptTgt, iStart)| && prompt == Window(promptTgt, iStart)[..reuseN]
      modifies this, ctx
      ensures Mirrors() && prompt == Window(promptTgt, iStart)
      ensures ctx.peak <= Higher(|prompt|, old(ctx.peak))
    {
      ghost var held := prompt;
      CollectPrompt(promptTgt, iStart, reuseN);
      assert held + prompt[reuseN..] == prompt;
      PutBehind(held, prompt[reuseN..]);
      CellsSize(prompt);
      if |batch| > 0 {
        ctx.Decode(batch);
      } else {
        assert held == prompt;
      }
    }

    /** One token behind the prompt. */
    method FeedOne(id: Token, pos: int)
      requires Mirrors() && pos == |prompt|
      modifies this, ctx
      ensures Mirrors() && prompt == old(prompt) + [id]
      ensures ctx.peak == Higher(|prompt|, old(ctx.peak))
    {
      batch := [];
      batch := batch + [Entry(id, pos)];
      assert batch == Entries([id], |prompt|);
      PutBehind(prompt, [id]);
      CellsSize(prompt + [id]);
      prompt := prompt + [id];
      ctx.Decode(batch);
    }

    /** The draft loop. */
    method Continue(params: Params) returns (result: seq<Token>)
      requires Mirrors()
      modifies this, ctx
      ensures Mirrors() && result == Greedy(model, old(prompt), [], params)
      ensures prompt == old(prompt) + AllButLast(result)
      ensures ctx.peak <= Higher(|prompt|, old(ctx.peak))
    {
      var nPast := |prompt|;
      ghost var total := Greedy(model, prompt, [], params);
      result := [];
      var i := 0;
      while i < params.nDraft
        invariant |result| == i && (i == 0 || i < params.nDraft)
        invariant Mirrors() && prompt == old(prompt) + result
        invariant total == result + Greedy(model, prompt, result, params)
        invariant ctx.peak <= Higher(|prompt|, old(ctx.peak))
        decreases params.nDraft - i
      {
        var c := model(ctx.cells, result);
        GreedyStep(model, prompt, result, params, c, total);
        result := result + [c.id];
        if params.nDraft <= |result| {
          break;
        }
        if c.p < params.pMin {
          break;
        }
        FeedOne(c.id, nPast + i);
        i := i + 1;
      }
    }

    /** Clears the context or keeps the reused stretch, and feeds the rest of the window and `idLast`. */
    method Refill(promptTgt: seq<Token>, iStart: nat, idLast: Token, reuseI: nat, reuseN: nat)
      requires Mirrors()
      requires reuseN > 0 ==> reuseI < |prompt| && Agreeing(Window(promptTgt, iStart), prompt, reuseI) == reuseN
      modifies this, ctx
      ensures Mirrors() && prompt == Window(promptTgt, iStart) + [idLast]
      ensures ctx.peak <= Higher(|prompt|, old(ctx.peak))
    {
      if reuseN == 0 {
        ctx.Clear();
        prompt := [];
      } else {
        ghost var was := prompt;
        KeepOnly(reuseI, reuseN);
        assert was[reuseI..reuseI + reuseN] == was[reuseI..][..reuseN];
      }
      FeedPrompt(promptTgt, iStart, reuseN);
      FeedOne(idLast, |prompt|);
    }

    /** `common_speculative_gen_draft` */
    method GenDraft(params: Params, promptTgt: seq<Token>, idLast: Token)
      returns (result: seq<Token>, early: bool, ghost reuse: (nat, nat))
      requires Mirrors()
      modifies this, ctx
      ensures Mirrors()
      ensures early ==> prompt == old(prompt) && ctx.peak == old(ctx.peak)
      ensures var window := Window(promptTgt, Start(ctx.nCtx, params.nDraft, |promptTgt|));
              && IsWindow(promptTgt, ctx.nCtx - params.nDraft, window)
              && Reuses(old(prompt), window, idLast, params, ctx.nCtx - params.nDraft >= |promptTgt|, early, result,
                        reuse.0, reuse.1)
              && (!early ==> NewDraft(model, window, idLast, params, prompt, result))
      ensures params.nDraft >= 1 ==> |result| <= params.nDraft
      ensures 1 <= params.nDraft <= ctx.nCtx ==>
              (old(|prompt|) <= ctx.nCtx ==> |prompt| <= ctx.nCtx) && ctx.peak <= Higher(ctx.nCtx, old(ctx.peak))
    {
      var nCtx := ctx.nCtx - params.nDraft;
      var iStart := if |promptTgt| - nCtx > 0 then |promptTgt| - nCtx else 0;
      ghost var window := Window(promptTgt, iStart);
      WindowIs(ctx.nCtx, params.nDraft, promptTgt);
      var reuseI, reuseN := FindReuse(params, promptTgt, iStart);
      reuse := (reuseI, reuseN);
      if reuseN > 0 && reuseI + reuseN < |prompt| && prompt[reuseI + reuseN] == idLast {
        early := true;
        result := PassBack(reuseI + reuseN + 1, params.nDraft);
        PassedBack(prompt, window, idLast, reuseI, reuseN, params, result);
      } else {
        early := false;
        result := DraftAnew(params, promptTgt, iStart, idLast, reuseI, reuseN);
      }
    }

    /** The context is refilled and the draft continues it. */
    method DraftAnew(params: Params, promptTgt: seq<Token>, iStart: nat, idLast: Token, reuseI: nat, reuseN: nat)
      returns (result: seq<Token>)
      requires Mirrors()
      requires reuseN > 0 ==> reuseI < |prompt| && Agreeing(Window(promptTgt, iStart), prompt, reuseI) == reuseN
      modifies this, ctx
      ensures Mirrors() && NewDraft(model, Window(promptTgt, iStart), idLast, params, prompt, result)
      ensures params.nDraft >= 1 ==> 1 <= |result| <= params.nDraft
      ensures ctx.peak <= Higher(|prompt|, old(ctx.peak))
    {
      Refill(promptTgt, iStart, idLast, reuseI, reuseN);
      if params.nDraft >= 1 { GreedyLength(model, prompt, [], params); }
      result := Continue(params);
    }

    /** Any number of calls: the cache goes on mirroring the prompt, neither grows beyond the context, and no draft is
        longer than asked for. */
    method GenDrafts(requests: seq<Request>) returns (results: seq<seq<Token>>)
      requires Mirrors() && |prompt| <= ctx.nCtx && ctx.peak <= ctx.nCtx
      requires forall i :: 0 <= i < |requests| ==> 1 <= requests[i].params.nDraft <= ctx.nCtx
      modifies this, ctx
      ensures Mirrors() && |prompt| <= ctx.nCtx && ctx.peak <= ctx.nCtx
      ensures |results| == |requests| && forall i :: 0 <= i < |results| ==> |results[i]| <= requests[i].params.nDraft
    {
      results := [];
      for i := 0 to |requests|
        invariant Mirrors() && |prompt| <= ctx.nCtx && ctx.peak <= ctx.nCtx
        invariant |results| == i && forall j :: 0 <= j < i ==> |results[j]| <= requests[j].params.nDraft
      {
        var r := requests[i];
        var result, early, reuse := GenDraft(r.params, r.promptTgt, r.idLast);
        results := results + [result];
      }
    }

    /** The rest of an earlier draft. */
    method PassBack(start: nat, nDraft: int) returns (result: seq<Token>)
      requires start <= |prompt|
      ensures result <= prompt[start..]
      ensures |result| == Lower(|prompt| - start, if nDraft > 1 then nDraft else 1)
    {
      result := [];
      var i := start;
      while i < |prompt|
        invariant start <= i <= |prompt| && result == prompt[start..i]
        invariant i == start || |result| < nDraft
      {
        result := result + [prompt[i]];
        i := i + 1;
        if nDraft <= |result| {
          break;
        }
      }
    }
  }
}
