/** Integer bounds as a grammar: `_build_min_max_int` and its local `uniform_range`.

    The methods append lexemes to a shared text buffer as the source appends to a stream; their ghost
    results are the symbols those lexemes read back as, and their contracts say which strings those
    symbols accept. */
module IntRange {
  import opened Options
  import opened Gbnf
  import opened Symbols
  import opened Decimal

  const INT_MIN: int := -0x8000_0000
  const INT_MAX: int := 0x7FFF_FFFF

  /** Lexemes that refer to no rule. */
  type PlainTok = t: Tok | !t.TRef? witness TOpen

  /** The text under construction (a string stream in the source). */
  class Text<X> {
    var toks: seq<X>

    constructor ()
      ensures toks == []
    {
      toks := [];
    }

    method Write(ts: seq<X>)
      modifies this
      ensures toks == old(toks) + ts
    {
      toks := toks + ts;
    }
  }

  // ---------------------------------------------------------------------------------------------
  // What the pieces mean
  // ---------------------------------------------------------------------------------------------

  /** xs accepts exactly the strings of which P holds, whatever rule names mean. */
  ghost predicate Denotes(xs: seq<Sym>, P: string -> bool) {
    forall s, I :: MatchesSyms(xs, s, I) <==> P(s)
  }

  ghost predicate DenotesAlts(alts: seq<Body>, P: string -> bool) {
    forall s, I :: MatchesAlts(alts, s, I) <==> P(s)
  }

  /** s is a digit string as long as the bounds and lies between them, digit by digit. */
  predicate Between(from: string, to: string, s: string) {
    |s| == |from| == |to| && AllDigits(s) && Le(from, s) && Le(s, to)
  }

  /** s is one digit in lo..hi followed by a digit string between from and to. */
  predicate HeadTail(lo: char, hi: char, from: string, to: string, s: string) {
    |s| >= 1 && lo <= s[0] <= hi && Between(from, to, s[1..])
  }

  function BetweenP(from: string, to: string): string -> bool { s => Between(from, to, s) }

  function HeadTailP(lo: char, hi: char, from: string, to: string): string -> bool {
    s => HeadTail(lo, hi, from, to, s)
  }

  /** The text between the brackets of a digit class. */
  function RangeText(from: char, to: char): string { [from, '-', to] }

  function DigitRangeText(from: char, to: char): string {
    if from == to then [from] else RangeText(from, to)
  }

  /** Digits and their neighbours '/' and ':', which bounds computed with +1 and -1 may hit. */
  predicate NearDigit(c: char) { '/' <= c <= ':' }

  lemma RangeTextReads(from: char, to: char)
    requires NearDigit(from) && NearDigit(to)
    ensures ReadClass(RangeText(from, to)) == Some(CharSet(false, [(from, to)]))
  {
    var body := RangeText(from, to);
    assert ReadChar(body) == Some((from, 1));
    assert body[1..] == ['-', to] && body[1..][1..] == [to];
    assert ReadChar([to]) == Some((to, 1));
    assert body[1..][2..] == "";
    assert [(from, to)] + [] == [(from, to)];
    assert ReadRanges(body) == Some([(from, to)]);
  }

  lemma OneCharReads(c: char)
    requires NearDigit(c)
    ensures ReadClass([c]) == Some(CharSet(false, [(c, c)]))
  {
    assert ReadChar([c]) == Some((c, 1));
    assert [c][1..] == "";
    assert [(c, c)] + [] == [(c, c)];
    assert ReadRanges([c]) == Some([(c, c)]);
  }

  /** A class written by `digit_range` accepts exactly the characters from..to. */
  lemma DigitClass(from: char, to: char, c: char)
    requires NearDigit(from) && NearDigit(to)
    ensures InClass(DigitRangeText(from, to), c) <==> from <= c <= to
    ensures InClass(RangeText(from, to), c) <==> from <= c <= to
  {
    RangeTextReads(from, to);
    OneCharReads(from);
    OneRange(from, to, c);
    OneRange(from, from, c);
  }

  lemma DigitClassOk(from: char, to: char)
    requires NearDigit(from) && NearDigit(to)
    ensures Ok(Class(DigitRangeText(from, to))) && Ok(Class(RangeText(from, to)))
  {
    RangeTextReads(from, to);
    OneCharReads(from);
  }

  /** A class followed by more symbols splits off one character. */
  lemma ClassThen(body: string, rest: seq<Sym>, s: string, I: Interp)
    ensures MatchesSyms([Class(body)] + rest, s, I) <==> |s| >= 1 && InClass(body, s[0]) && MatchesSyms(rest, s[1..], I)
  {
    var xs := [Class(body)] + rest;
    assert xs[1..] == rest;
    if |s| >= 1 && InClass(body, s[0]) && MatchesSyms(rest, s[1..], I) {
      assert s[..1] == [s[0]];
      assert Matches(xs[0], s[..1], I);
    }
    if MatchesSyms(xs, s, I) {
      var i :| 0 <= i <= |s| && Matches(xs[0], s[..i], I) && MatchesSyms(rest, s[i..], I);
      assert i == 1;
    }
  }

  const DIGIT: Sym := Class("0-9")

  lemma DigitIsDigit(c: char)
    ensures InClass("0-9", c) <==> IsDigit(c)
  {
    DigitClass('0', '9', c);
    assert RangeText('0', '9') == "0-9";
  }

  lemma OneDigit(s: string, I: Interp)
    ensures Matches(DIGIT, s, I) <==> |s| == 1 && IsDigit(s[0])
  {
    if |s| == 1 { DigitIsDigit(s[0]); }
  }

  /** x accepts exactly the single digits. */
  ghost predicate IsDigitSym(x: Sym, I: Interp) { forall t :: Matches(x, t, I) <==> |t| == 1 && IsDigit(t[0]) }

  lemma DigitsFromHead(s: string)
    requires s != ""
    ensures AllDigits(s) <==> IsDigit(s[0]) && AllDigits(s[1..])
  {
    assert s == [s[0]] + s[1..];
  }

  lemma {:induction false} TimesAreDigits(x: Sym, k: nat, s: string, I: Interp)
    requires IsDigitSym(x, I) && MatchesTimes(x, k, s, I)
    ensures |s| == k && AllDigits(s)
    decreases k
  {
    if k > 0 {
      var i :| 0 <= i <= |s| && Matches(x, s[..i], I) && MatchesTimes(x, k - 1, s[i..], I);
      assert |s[..i]| == 1 && s[..i][0] == s[0];
      TimesAreDigits(x, k - 1, s[i..], I);
      DigitsFromHead(s);
    }
  }

  lemma {:induction false} DigitsAreTimes(x: Sym, s: string, I: Interp)
    requires IsDigitSym(x, I) && AllDigits(s)
    ensures MatchesTimes(x, |s|, s, I)
  {
    if s != "" {
      DigitsFromHead(s);
      DigitsAreTimes(x, s[1..], I);
      assert Matches(x, s[..1], I);
    }
  }

  lemma ManyDigits(k: nat, s: string, I: Interp)
    ensures MatchesTimes(DIGIT, k, s, I) <==> |s| == k && AllDigits(s)
  {
    forall t ensures Matches(DIGIT, t, I) <==> |t| == 1 && IsDigit(t[0]) { OneDigit(t, I); }
    if MatchesTimes(DIGIT, k, s, I) { TimesAreDigits(DIGIT, k, s, I); }
    if |s| == k && AllDigits(s) { DigitsAreTimes(DIGIT, s, I); }
  }

  /** What `more_digits` writes. */
  function Digits(lo: nat, hi: Option<nat>): Sym {
    if lo == 1 && hi == Some(1) then DIGIT else Rep(DIGIT, lo, hi)
  }

  lemma DigitsOk(lo: nat, hi: Option<nat>)
    ensures Ok(Digits(lo, hi))
  {
    RangeTextReads('0', '9');
    assert RangeText('0', '9') == "0-9";
  }

  lemma RepeatedDigits(x: Sym, lo: nat, hi: Option<nat>, s: string, I: Interp)
    requires forall k: nat :: MatchesTimes(x, k, s, I) <==> k == |s| && AllDigits(s)
    ensures Matches(Rep(x, lo, hi), s, I) <==> RepCount(lo, hi, |s|) && AllDigits(s)
  {
    assert MatchesTimes(x, |s|, s, I) <==> AllDigits(s);
  }

  lemma DigitsMatch(lo: nat, hi: Option<nat>, s: string, I: Interp)
    ensures MatchesSyms([Digits(lo, hi)], s, I) <==> RepCount(lo, hi, |s|) && AllDigits(s)
  {
    MatchesOne(Digits(lo, hi), s, I);
    if lo == 1 && hi == Some(1) {
      if |s| == 1 { DigitIsDigit(s[0]); }
    } else {
      forall k: nat ensures MatchesTimes(DIGIT, k, s, I) <==> k == |s| && AllDigits(s) { ManyDigits(k, s, I); }
      RepeatedDigits(DIGIT, lo, hi, s, I);
    }
  }

  /** Exactly n digits: everything between 00..0 and 99..9. */
  lemma AnyDigits(n: nat)
    ensures Denotes([Digits(n, Some(n))], BetweenP(Zeros(n), Nines(n)))
  {
    forall s, I
      ensures MatchesSyms([Digits(n, Some(n))], s, I) <==> Between(Zeros(n), Nines(n), s)
    {
      DigitsMatch(n, Some(n), s, I);
      if AllDigits(s) { ZerosLeast(s); NinesGreatest(s); }
    }
  }

  /** A digit class followed by symbols for a range of tails. */
  lemma ClassThenRange(body: string, lo: char, hi: char, rest: seq<Sym>, from: string, to: string)
    requires NearDigit(lo) && NearDigit(hi) && body in {DigitRangeText(lo, hi), RangeText(lo, hi)}
    requires Denotes(rest, BetweenP(from, to))
    ensures Denotes([Class(body)] + rest, HeadTailP(lo, hi, from, to))
  {
    forall s, I
      ensures MatchesSyms([Class(body)] + rest, s, I) <==> HeadTail(lo, hi, from, to, s)
    {
      ClassThen(body, rest, s, I);
      if |s| >= 1 { DigitClass(lo, hi, s[0]); }
    }
  }

  lemma AltsOne(xs: seq<Sym>, P: string -> bool)
    requires Denotes(xs, P)
    ensures DenotesAlts([Body(xs)], P)
  {
    forall s, I ensures MatchesAlts([Body(xs)], s, I) <==> P(s) { MatchesAltsOne(xs, s, I); }
  }

  lemma AltsOr(a: seq<Body>, P: string -> bool, b: seq<Body>, Q: string -> bool)
    requires DenotesAlts(a, P) && DenotesAlts(b, Q)
    ensures DenotesAlts(a + b, s => P(s) || Q(s))
  {
    forall s, I ensures MatchesAlts(a + b, s, I) <==> P(s) || Q(s) { MatchesAltsConcat(a, b, s, I); }
  }

  lemma GroupOne(alts: seq<Body>, P: string -> bool)
    requires DenotesAlts(alts, P)
    ensures Denotes([Group(alts)], P)
  {
    forall s, I ensures MatchesSyms([Group(alts)], s, I) <==> P(s) { MatchesOne(Group(alts), s, I); }
  }

  // ---------------------------------------------------------------------------------------------
  // The arithmetic of splitting a range at its leading digit
  // ---------------------------------------------------------------------------------------------

  predicate Bounds(from: string, to: string) {
    |from| == |to| && AllDigits(from) && AllDigits(to) && Le(from, to)
  }

  lemma {:induction false} CommonPrefix(p: string, f: string, t: string, s: string)
    requires AllDigits(p) && |f| == |t|
    ensures Between(p + f, p + t, s) <==> |s| >= |p| && s[..|p|] == p && Between(f, t, s[|p|..])
  {
    if p == "" {
      assert p + f == f && p + t == t;
    } else {
      var q := p[1..];
      assert (p + f)[1..] == q + f && (p + t)[1..] == q + t;
      if s != "" {
        CommonPrefix(q, f, t, s[1..]);
        if |s| >= |p| {
          assert s[1..][..|q|] == s[..|p|][1..];
          assert s[1..][|q|..] == s[|p|..];
          if s[0] == p[0] && s[1..][..|q|] == q {
            assert s[..|p|] == [s[0]] + s[..|p|][1..];
            assert p == [p[0]] + q;
          }
        }
      }
    }
  }

  lemma {:induction false} LeDropPrefix(p: string, f: string, t: string)
    requires |f| == |t|
    ensures Le(p + f, p + t) <==> Le(f, t)
  {
    if p == "" {
      assert p + f == f && p + t == t;
    } else {
      assert (p + f)[1..] == p[1..] + f && (p + t)[1..] == p[1..] + t;
      LeDropPrefix(p[1..], f, t);
    }
  }

  /** A range whose bounds differ in the first digit: its lower end, the digits between, its upper end. */
  lemma SplitAtHead(f: string, t: string, s: string)
    requires Bounds(f, t) && f != "" && f[0] < t[0]
    ensures var n := |f| - 1;
            Between(f, t, s) <==>
            || HeadTail(f[0], f[0], f[1..], Nines(n), s)
            || HeadTail((f[0] as int + 1) as char, (t[0] as int - 1) as char, Zeros(n), Nines(n), s)
            || HeadTail(t[0], t[0], Zeros(n), t[1..], s)
  {
    if |s| == |f| && AllDigits(s) {
      ZerosLeast(s[1..]);
      NinesGreatest(s[1..]);
    }
  }

  lemma WithPrefix(from: string, to: string, i: nat, head: seq<Sym>, tail: seq<Sym>)
    requires Bounds(from, to) && i <= |from| && from[..i] == to[..i]
    requires head == if i > 0 then [Lit(from[..i])] else []
    requires i == |from| ==> tail == []
    requires i < |from| ==> Denotes(tail, BetweenP(from[i..], to[i..]))
    ensures Denotes(head + tail, BetweenP(from, to))
  {
    var p, f, t := from[..i], from[i..], to[i..];
    assert from == p + f && to == p + t;
    forall s, I
      ensures MatchesSyms(head + tail, s, I) <==> Between(from, to, s)
    {
      CommonPrefix(p, f, t, s);
      LitThen(p, tail, s, I);
      if i == 0 {
        assert head + tail == tail && s[0..] == s;
      }
    }
  }

  lemma LitThen(p: string, rest: seq<Sym>, s: string, I: Interp)
    ensures MatchesSyms([Lit(p)] + rest, s, I) <==> |s| >= |p| && s[..|p|] == p && MatchesSyms(rest, s[|p|..], I)
  {
    var xs := [Lit(p)] + rest;
    assert xs[1..] == rest;
    if |s| >= |p| && s[..|p|] == p && MatchesSyms(rest, s[|p|..], I) {
      assert Matches(xs[0], s[..|p|], I);
    }
  }

  // ---------------------------------------------------------------------------------------------
  // uniform_range
  // ---------------------------------------------------------------------------------------------

  method DigitRange(from: char, to: char, out: Text<PlainTok>) returns (ghost x: Sym)
    requires NearDigit(from) && NearDigit(to)
    modifies out
    ensures x == Class(DigitRangeText(from, to)) && Ok(x)
    ensures out.toks == old(out.toks) + Show(x)
  {
    if from == to {
      out.Write([TClass([from])]);
    } else {
      out.Write([TClass([from, '-', to])]);
    }
    DigitClassOk(from, to);
    x := Class(DigitRangeText(from, to));
  }

  method MoreDigits(minDigits: nat, maxDigits: nat, out: Text<PlainTok>) returns (ghost x: Sym)
    modifies out
    ensures x == Digits(minDigits, if maxDigits == INT_MAX && minDigits != maxDigits then None else Some(maxDigits))
            && Ok(x)
    ensures out.toks == old(out.toks) + Show(x)
  {
    out.Write([TClass("0-9")]);
    if minDigits != maxDigits || minDigits != 1 {
      var hi: Option<int> := Some(maxDigits);
      if maxDigits != minDigits && maxDigits == INT_MAX {
        hi := None;
      }
      out.Write([TRep(minDigits, hi)]);
    }
    x := Digits(minDigits, if maxDigits == INT_MAX && minDigits != maxDigits then None else Some(maxDigits));
    DigitsOk(minDigits, if maxDigits == INT_MAX && minDigits != maxDigits then None else Some(maxDigits));
  }

  /** Emits a grammar for the digit strings between two bounds of equal length. */
  method UniformRange(from: string, to: string, out: Text<PlainTok>) returns (ghost xs: seq<Sym>)
    requires AllDigits(from) && AllDigits(to)
    modifies out
    ensures out.toks == old(out.toks) + ShowSyms(xs) && OkSyms(xs)
    ensures Bounds(from, to) ==> Denotes(xs, BetweenP(from, to))
    decreases |from|, 1
  {
    xs := [];
    var i := 0;
    while i < |from| && i < |to| && from[i] == to[i]
      invariant 0 <= i <= |from| && i <= |to|
      invariant from[..i] == to[..i]
    {
      i := i + 1;
    }
    ghost var head: seq<Sym> := [];
    if i > 0 {
      out.Write([TLit(from[..i])]);
      head := [Lit(from[..i])];
      ShowOne(head[0]);
    }
    ghost var tail: seq<Sym> := [];
    if i < |from| && i < |to| {
      tail := Differing(from[i..], to[i..], out);
    }
    xs := head + tail;
    ShowSymsConcat(head, tail);
    if Bounds(from, to) {
      BoundsBehind(from, to, i);
      WithPrefix(from, to, i, head, tail);
    }
  }

  /** Bounds that begin alike bound what follows, too. */
  lemma BoundsBehind(from: string, to: string, i: nat)
    requires Bounds(from, to) && i <= |from| && from[..i] == to[..i]
    ensures Bounds(from[i..], to[i..])
  {
    assert from == from[..i] + from[i..] && to == from[..i] + to[i..];
    LeDropPrefix(from[..i], from[i..], to[i..]);
  }

  /** The part of `uniform_range` after the common prefix: the bounds start with different digits. */
  method Differing(f: string, t: string, out: Text<PlainTok>) returns (ghost xs: seq<Sym>)
    requires AllDigits(f) && AllDigits(t) && f != "" && t != "" && f[0] != t[0]
    modifies out
    ensures out.toks == old(out.toks) + ShowSyms(xs) && OkSyms(xs)
    ensures Bounds(f, t) ==> Denotes(xs, BetweenP(f, t))
    decreases |f|, 0
  {
    var subLen := |f| - 1;
    if subLen > 0 {
      out.Write([TOpen]);
      ghost var alts := Branches(f, t, out);
      out.Write([TClose]);
      xs := [Group(alts)];
      ShowOne(xs[0]);
      if Bounds(f, t) {
        GroupOne(alts, BetweenP(f, t));
      }
    } else {
      out.Write([TClass([f[0], '-', t[0]])]);
      xs := [Class(RangeText(f[0], t[0]))];
      ShowOne(xs[0]);
      DigitClassOk(f[0], t[0]);
      if Bounds(f, t) {
        SingleDigit(f, t);
      }
    }
  }

  lemma SingleDigit(f: string, t: string)
    requires Bounds(f, t) && |f| == 1
    ensures Denotes([Class(RangeText(f[0], t[0]))], BetweenP(f, t))
  {
    var x := Class(RangeText(f[0], t[0]));
    forall s, I
      ensures MatchesSyms([x], s, I) <==> Between(f, t, s)
    {
      MatchesOne(x, s, I);
      if |s| == 1 {
        DigitClass(f[0], t[0], s[0]);
        assert s[1..] == "" && f[1..] == "" && t[1..] == "";
        assert Le(f, s) <==> f[0] <= s[0];
        assert Le(s, t) <==> s[0] <= t[0];
      }
    }
  }

  function Or(P: string -> bool, Q: string -> bool): string -> bool { s => P(s) || Q(s) }

  /** One more alternative in the text. */
  lemma AddAlternative(alts: seq<Body>, ys: seq<Sym>)
    requires alts != []
    ensures ShowAlts(alts + [Body(ys)]) == ShowAlts(alts) + [TBar] + ShowSyms(ys)
    ensures OkAlts(alts) && OkSyms(ys) ==> OkAlts(alts + [Body(ys)])
  {
    ShowAltsConcat(alts, [Body(ys)]);
  }

  /** One more alternative in the meaning. */
  lemma AlsoDenotes(alts: seq<Body>, P: string -> bool, ys: seq<Sym>, Q: string -> bool, R: string -> bool)
    requires DenotesAlts(alts, P) && Denotes(ys, Q) && forall s :: P(s) || Q(s) <==> R(s)
    ensures DenotesAlts(alts + [Body(ys)], R)
  {
    AltsOne(ys, Q);
    AltsOr(alts, P, [Body(ys)], Q);
    AltsSame(alts + [Body(ys)], Or(P, Q), R);
  }

  /** A digit from lo to hi and then n arbitrary digits. */
  method DigitsBranch(lo: char, hi: char, n: nat, out: Text<PlainTok>) returns (ghost ys: seq<Sym>)
    requires NearDigit(lo) && NearDigit(hi)
    modifies out
    ensures out.toks == old(out.toks) + ShowSyms(ys) && OkSyms(ys)
    ensures Denotes(ys, HeadTailP(lo, hi, Zeros(n), Nines(n)))
  {
    ghost var x := DigitRange(lo, hi, out);
    ghost var y := MoreDigits(n, n, out);
    ys := [x] + [y];
    ShowSymsConcat([x], [y]);
    ShowOne(x);
    ShowOne(y);
    AnyDigits(n);
    ClassThenRange(DigitRangeText(lo, hi), lo, hi, [y], Zeros(n), Nines(n));
  }

  /** Strings of the range whose first digit is below the upper bound's. */
  predicate BelowTop(f: string, t: string, s: string)
    requires t != ""
  {
    Between(f, t, s) && s != "" && s[0] < t[0]
  }

  function BelowTopP(f: string, t: string): string -> bool
    requires t != ""
  {
    s => BelowTop(f, t, s)
  }

  lemma BelowTopSplit(f: string, t: string, s: string)
    requires Bounds(f, t) && f != "" && f[0] < t[0]
    ensures var n := |f| - 1;
            BelowTop(f, t, s) <==>
            || HeadTail(f[0], f[0], f[1..], Nines(n), s)
            || HeadTail((f[0] as int + 1) as char, (t[0] as int - 1) as char, Zeros(n), Nines(n), s)
    ensures Between(f, t, s) <==> BelowTop(f, t, s) || HeadTail(t[0], t[0], Zeros(|f| - 1), t[1..], s)
  {
    SplitAtHead(f, t, s);
  }

  /** The lower bound's first digit and, in parentheses, the range of what may follow it. */
  method GroupBranch(c: char, fromSub: string, out: Text<PlainTok>) returns (ghost ys: seq<Sym>)
    requires IsDigit(c) && AllDigits(fromSub)
    modifies out
    ensures out.toks == old(out.toks) + ShowSyms(ys) && OkSyms(ys)
    ensures DenotesAlts([Body(ys)], HeadTailP(c, c, fromSub, Nines(|fromSub|)))
    decreases |fromSub|, 2
  {
    ghost var base := out.toks;
    out.Write([TClass([c]), TOpen]);
    ghost var sub := UniformRange(fromSub, Nines(|fromSub|), out);
    out.Write([TClose]);
    ghost var P: string -> bool;
    ys, P := GroupedTail(c, sub, fromSub, Nines(|fromSub|));
    NinesGreatest(fromSub);
    AroundText(base, [TClass([c]), TOpen], ShowSyms(sub), [TClose]);
  }

  lemma AroundText(base: seq<Tok>, a: seq<Tok>, b: seq<Tok>, c: seq<Tok>)
    ensures base + a + b + c == base + (a + b + c)
  {
  }

  /** The alternatives between the parentheses, up to the last one. */
  method LowerBranches(f: string, t: string, out: Text<PlainTok>) returns (toReached: bool, ghost alts: seq<Body>)
    requires AllDigits(f) && AllDigits(t) && |f| > 1 && t != "" && f[0] != t[0]
    modifies out
    ensures out.toks == old(out.toks) + ShowAlts(alts) && OkAlts(alts)
    ensures Bounds(f, t) ==> DenotesAlts(alts, if toReached then BetweenP(f, t) else BelowTopP(f, t))
    decreases |f| - 1, 3
  {
    var subLen := |f| - 1;
    var fromSub, toSub := f[1..], t[1..];
    var subZeros, subNines := Zeros(subLen), Nines(subLen);
    toReached := false;
    ghost var ys: seq<Sym>;
    if fromSub == subZeros {
      ys := DigitsBranch(f[0], (t[0] as int - 1) as char, subLen, out);
      alts := [Body(ys)];
      ShowOneAlt(ys);
      if Bounds(f, t) { LowestZeros(f, t, ys); }
    } else {
      ys := GroupBranch(f[0], fromSub, out);
      alts := [Body(ys)];
      ShowOneAlt(ys);
      if f[0] as int < t[0] as int - 1 {
        out.Write([TBar]);
        toReached := toSub == subNines;
        var hi := if toReached then t[0] else (t[0] as int - 1) as char;
        ghost var zs := DigitsBranch((f[0] as int + 1) as char, hi, subLen, out);
        AddAlternative(alts, zs);
        alts := alts + [Body(zs)];
        if Bounds(f, t) { LowestAndMore(f, t, ys, zs, toReached); }
      } else if Bounds(f, t) {
        LowestOnly(f, t, ys);
      }
    }
  }

  lemma ShowOneAlt(ys: seq<Sym>)
    ensures ShowAlts([Body(ys)]) == ShowSyms(ys)
    ensures OkSyms(ys) ==> OkAlts([Body(ys)])
  {
  }

  /** The rest of the lower bound is all zeros: any digits may follow. */
  lemma LowestZeros(f: string, t: string, ys: seq<Sym>)
    requires Bounds(f, t) && |f| > 1 && f[0] < t[0] && f[1..] == Zeros(|f| - 1)
    requires Denotes(ys, HeadTailP(f[0], (t[0] as int - 1) as char, Zeros(|f| - 1), Nines(|f| - 1)))
    ensures DenotesAlts([Body(ys)], BelowTopP(f, t))
  {
    var P := HeadTailP(f[0], (t[0] as int - 1) as char, Zeros(|f| - 1), Nines(|f| - 1));
    AltsOne(ys, P);
    forall s ensures P(s) <==> BelowTopP(f, t)(s) { BelowTopSplit(f, t, s); }
    AltsSame([Body(ys)], P, BelowTopP(f, t));
  }

  /** No digit lies between the first digits of the bounds. */
  lemma LowestOnly(f: string, t: string, ys: seq<Sym>)
    requires Bounds(f, t) && |f| > 1 && f[0] as int == t[0] as int - 1
    requires DenotesAlts([Body(ys)], HeadTailP(f[0], f[0], f[1..], Nines(|f| - 1)))
    ensures DenotesAlts([Body(ys)], BelowTopP(f, t))
  {
    var P := HeadTailP(f[0], f[0], f[1..], Nines(|f| - 1));
    forall s ensures P(s) <==> BelowTopP(f, t)(s) { BelowTopSplit(f, t, s); }
    AltsSame([Body(ys)], P, BelowTopP(f, t));
  }

  /** The first digits in between, and the upper bound's too if any digits may follow it. */
  lemma LowestAndMore(f: string, t: string, ys: seq<Sym>, zs: seq<Sym>, toReached: bool)
    requires Bounds(f, t) && |f| > 1 && f[0] < t[0] && toReached == (t[1..] == Nines(|f| - 1))
    requires DenotesAlts([Body(ys)], HeadTailP(f[0], f[0], f[1..], Nines(|f| - 1)))
    requires var hi := if toReached then t[0] else (t[0] as int - 1) as char;
             Denotes(zs, HeadTailP((f[0] as int + 1) as char, hi, Zeros(|f| - 1), Nines(|f| - 1)))
    ensures DenotesAlts([Body(ys)] + [Body(zs)], if toReached then BetweenP(f, t) else BelowTopP(f, t))
  {
    var hi := if toReached then t[0] else (t[0] as int - 1) as char;
    var P := HeadTailP(f[0], f[0], f[1..], Nines(|f| - 1));
    var Q := HeadTailP((f[0] as int + 1) as char, hi, Zeros(|f| - 1), Nines(|f| - 1));
    var R := if toReached then BetweenP(f, t) else BelowTopP(f, t);
    forall s ensures P(s) || Q(s) <==> R(s) { BelowTopSplit(f, t, s); }
    AlsoDenotes([Body(ys)], P, zs, Q, R);
  }

  /** The alternatives between the parentheses. */
  method Branches(f: string, t: string, out: Text<PlainTok>) returns (ghost alts: seq<Body>)
    requires AllDigits(f) && AllDigits(t) && |f| > 1 && t != "" && f[0] != t[0]
    modifies out
    ensures out.toks == old(out.toks) + ShowAlts(alts) && OkAlts(alts)
    ensures Bounds(f, t) ==> DenotesAlts(alts, BetweenP(f, t))
    decreases |f| - 1, 4
  {
    ghost var base := out.toks;
    var toReached;
    toReached, alts := LowerBranches(f, t, out);
    if !toReached {
      ghost var lower := alts;
      out.Write([TBar]);
      ghost var x := DigitRange(t[0], t[0], out);
      ghost var sub := UniformRange(Zeros(|f| - 1), t[1..], out);
      ghost var ys := [x] + sub;
      BarSymbols(base, lower, x, sub);
      alts := lower + [Body(ys)];
      if Bounds(f, t) {
        TopBranch(f, t, lower, x, sub);
      }
    }
  }

  lemma BarSymbols(base: seq<Tok>, alts: seq<Body>, x: Sym, xs: seq<Sym>)
    requires alts != []
    ensures base + ShowAlts(alts) + [TBar] + Show(x) + ShowSyms(xs) == base + ShowAlts(alts + [Body([x] + xs)])
    ensures OkAlts(alts) && Ok(x) && OkSyms(xs) ==> OkAlts(alts + [Body([x] + xs)])
  {
    ShowSymsConcat([x], xs);
    ShowOne(x);
    AddAlternative(alts, [x] + xs);
    assert ShowSyms([x] + xs) == Show(x) + ShowSyms(xs);
    FourTexts(base, ShowAlts(alts), [TBar], Show(x), ShowSyms(xs));
  }

  lemma FourTexts(a: seq<Tok>, b: seq<Tok>, c: seq<Tok>, d: seq<Tok>, e: seq<Tok>)
    ensures a + b + c + d + e == a + (b + c + (d + e))
  {
  }

  lemma TopBranch(f: string, t: string, lower: seq<Body>, x: Sym, sub: seq<Sym>)
    requires Bounds(f, t) && |f| > 1 && f[0] < t[0] && lower != []
    requires x == Class(DigitRangeText(t[0], t[0]))
    requires DenotesAlts(lower, BelowTopP(f, t))
    requires Bounds(Zeros(|f| - 1), t[1..]) ==> Denotes(sub, BetweenP(Zeros(|f| - 1), t[1..]))
    ensures DenotesAlts(lower + [Body([x] + sub)], BetweenP(f, t))
  {
    var zeros, toSub := Zeros(|f| - 1), t[1..];
    ZerosLeast(toSub);
    ClassThenRange(DigitRangeText(t[0], t[0]), t[0], t[0], sub, zeros, toSub);
    var P, Q := BelowTopP(f, t), HeadTailP(t[0], t[0], zeros, toSub);
    forall s ensures P(s) || Q(s) <==> BetweenP(f, t)(s) { BelowTopSplit(f, t, s); }
    AlsoDenotes(lower, P, [x] + sub, Q, BetweenP(f, t));
  }

  lemma AltsSame(alts: seq<Body>, P: string -> bool, Q: string -> bool)
    requires DenotesAlts(alts, P)
    requires forall s :: P(s) <==> Q(s)
    ensures DenotesAlts(alts, Q)
  {
    forall s, I ensures MatchesAlts(alts, s, I) <==> Q(s) { assert P(s) <==> Q(s); }
  }

  lemma GroupedTail(c: char, sub: seq<Sym>, from: string, to: string) returns (ys: seq<Sym>, P: string -> bool)
    requires NearDigit(c) && OkSyms(sub)
    ensures ys == [Class([c]), Group([Body(sub)])] && OkSyms(ys)
    ensures ShowSyms(ys) == [TClass([c]), TOpen] + ShowSyms(sub) + [TClose]
    ensures P == HeadTailP(c, c, from, to)
    ensures Denotes(sub, BetweenP(from, to)) ==> DenotesAlts([Body(ys)], P)
  {
    var x, y := Class([c]), Group([Body(sub)]);
    ys := [x] + [y];
    P := HeadTailP(c, c, from, to);
    ShowSymsConcat([x], [y]);
    ShowOne(x);
    ShowOne(y);
    DigitClassOk(c, c);
    if Denotes(sub, BetweenP(from, to)) {
      AltsOne(sub, BetweenP(from, to));
      GroupOne([Body(sub)], BetweenP(from, to));
      ClassThenRange([c], c, c, [y], from, to);
      AltsOne(ys, P);
    }
  }

  // ---------------------------------------------------------------------------------------------
  // _build_min_max_int
  // ---------------------------------------------------------------------------------------------

  /** s is a numeral, without leading zeros, of an integer between lo and hi; "-0" counts as 0 when lo is negative. */
  predicate IntText(lo: int, hi: int, s: string) {
    || (Canonical(s) && lo <= Val(s) <= hi)
    || (lo < 0 && s != "" && s[0] == '-' && Canonical(s[1..]) && lo <= 0 - Val(s[1..]) <= hi)
  }

  function IntTextP(lo: int, hi: int): string -> bool { s => IntText(lo, hi, s) }

  /** Canonical numerals of values from lo on, with fewer than n digits. */
  predicate Shorter(lo: nat, n: nat, s: string) {
    Canonical(s) && lo <= Val(s) && |s| < n
  }

  function NegP(P: string -> bool): string -> bool { s => s != "" && s[0] == '-' && P(s[1..]) }

  /** The lower bound used for numerals with n digits: lo itself, and then 10, 100, ... */
  function LeastOfLength(lo: nat, n: nat): (m: string)
    requires n >= |ToString(lo)|
    ensures |m| == n && AllDigits(m)
  {
    if n == |ToString(lo)| then ToString(lo) else "1" + Zeros(n - 1)
  }

  lemma LeastIsLeast(lo: nat, n: nat, s: string)
    requires n >= |ToString(lo)|
    requires Canonical(s) && |s| == n
    ensures lo <= Val(s) <==> Le(LeastOfLength(lo, n), s)
  {
    ToStringValue(lo);
    ToStringCanonical(lo);
    if n == |ToString(lo)| {
      LeIsNumeric(LeastOfLength(lo, n), s);
    } else {
      LongerIsGreater(ToString(lo), s);
      OneAndZerosLeast(s, "1" + Zeros(n - 1));
    }
  }

  lemma OneAndZerosLeast(s: string, m: string)
    requires Canonical(s) && |s| > 1 && m == "1" + Zeros(|s| - 1)
    ensures Le(m, s)
  {
    assert m[0] == '1' && m[1..] == Zeros(|s| - 1);
    ZerosLeast(s[1..]);
  }

  lemma LeastIsCanonical(lo: nat, n: nat)
    requires n >= |ToString(lo)|
    ensures Canonical(LeastOfLength(lo, n))
  {
    ToStringCanonical(lo);
  }

  /** One run of the digit-count loop adds the numerals of that length. */
  lemma OneLength(lo: nat, n: nat, top: string, s: string)
    requires n >= |ToString(lo)| && |top| == n && AllDigits(top)
    ensures Between(LeastOfLength(lo, n), top, s) <==> Canonical(s) && |s| == n && lo <= Val(s) && Val(s) <= Val(top)
    ensures top == Nines(n) ==> (Shorter(lo, n + 1, s) <==> Shorter(lo, n, s) || Between(LeastOfLength(lo, n), top, s))
  {
    var m := LeastOfLength(lo, n);
    LeastIsCanonical(lo, n);
    if |s| == n && AllDigits(s) {
      LeIsNumeric(s, top);
      NinesGreatest(s);
      if Le(m, s) { LeadingZero(m, s); }
      if Canonical(s) { LeastIsLeast(lo, n, s); }
    }
  }

  /** A digit string not below a canonical one of the same length has no leading zero either. */
  lemma LeadingZero(m: string, s: string)
    requires Canonical(m) && AllDigits(s) && |m| == |s| && Le(m, s)
    ensures Canonical(s)
  {
  }

  lemma MinusGroup(alts: seq<Body>, P: string -> bool)
    requires DenotesAlts(alts, P)
    ensures DenotesAlts([Body([Lit("-"), Group(alts)])], NegP(P))
  {
    GroupOne(alts, P);
    var xs := [Lit("-")] + [Group(alts)];
    forall s, I
      ensures MatchesSyms(xs, s, I) <==> NegP(P)(s)
    {
      LitThen("-", [Group(alts)], s, I);
      if s != "" { assert s[..1] == [s[0]]; }
    }
    AltsOne(xs, NegP(P));
    assert xs == [Lit("-"), Group(alts)];
  }

  lemma ShowMinusGroup(alts: seq<Body>)
    ensures ShowAlts([Body([Lit("-"), Group(alts)])]) == [TLit("-"), TOpen] + ShowAlts(alts) + [TClose]
    ensures OkAlts(alts) ==> OkAlts([Body([Lit("-"), Group(alts)])])
  {
    var x, y := Lit("-"), Group(alts);
    ShowSymsConcat([x], [y]);
    ShowOne(x);
    ShowOne(y);
    assert [x] + [y] == [x, y];
  }

  /** Text written so far, when more alternatives follow: each of them ends with a bar. */
  function Barred(alts: seq<Body>): seq<Tok> {
    if alts == [] then [] else ShowAlts(alts) + [TBar]
  }

  lemma BarredText(alts: seq<Body>, ys: seq<Sym>)
    requires OkSyms(ys) && (alts == [] || OkAlts(alts))
    ensures ShowAlts(alts + [Body(ys)]) == Barred(alts) + ShowSyms(ys)
    ensures OkAlts(alts + [Body(ys)])
  {
    if alts == [] {
      assert alts + [Body(ys)] == [Body(ys)];
    } else {
      AddAlternative(alts, ys);
    }
  }

  lemma LengthsOrdered(a: nat, b: nat)
    requires a <= b
    ensures |ToString(a)| <= |ToString(b)|
  {
    ToStringValue(a);
    ToStringValue(b);
    ToStringCanonical(a);
    ToStringCanonical(b);
    if |ToString(b)| < |ToString(a)| { LongerIsGreater(ToString(b), ToString(a)); }
  }

  /** The digit-count loop for 0 <= minV <= maxV, after alternatives `before` have been written. */
  method ByLength(minV: nat, maxV: nat, out: Text<PlainTok>, ghost base: seq<Tok>, ghost before: seq<Body>,
                  ghost B: string -> bool)
    returns (ghost alts: seq<Body>)
    requires minV <= maxV
    requires before == [] || OkAlts(before)
    requires out.toks == base + Barred(before)
    modifies out
    ensures out.toks == base + ShowAlts(alts) && OkAlts(alts)
    ensures before <= alts
    ensures DenotesAlts(before, B) ==> DenotesAlts(alts, UpToP(B, minV, maxV))
  {
    var minS, maxS := ToString(minV), ToString(maxV);
    var minDigits, maxDigits := |minS|, |maxS|;
    LengthsOrdered(minV, maxV);
    alts := before;
    StartOfLoop(minV, B, alts);
    for digits := minDigits to maxDigits
      invariant minS == LeastOfLength(minV, digits)
      invariant out.toks == base + Barred(alts)
      invariant alts == [] || OkAlts(alts)
      invariant before <= alts
      invariant DenotesAlts(before, B) ==> DenotesAlts(alts, SoFar(minV, digits, B))
    {
      alts := OneMoreLength(minV, digits, minS, out, base, alts, B);
      minS := "1" + Zeros(digits);
      out.Write([TBar]);
      Associates(base, ShowAlts(alts), [TBar]);
    }
    alts := LastOne(minV, maxV, minS, maxS, out, base, alts, B);
  }

  method OneMoreLength(ghost minV: nat, digits: nat, minS: string, out: Text<PlainTok>,
                       ghost base: seq<Tok>, ghost before: seq<Body>, ghost B: string -> bool)
    returns (ghost alts: seq<Body>)
    requires digits >= |ToString(minV)| && minS == LeastOfLength(minV, digits)
    requires out.toks == base + Barred(before)
    requires before == [] || OkAlts(before)
    modifies out
    ensures out.toks == base + ShowAlts(alts) && OkAlts(alts)
    ensures before <= alts
    ensures DenotesAlts(before, SoFar(minV, digits, B)) ==> DenotesAlts(alts, SoFar(minV, digits + 1, B))
  {
    ghost var ys := UniformRange(minS, Nines(digits), out);
    alts := LoopStep(minV, digits, B, base, before, ys);
  }

  /** What is left when the loop ends: numerals as long as the maximum. */
  method LastOne(ghost minV: nat, ghost maxV: nat, minS: string, maxS: string, out: Text<PlainTok>,
                 ghost base: seq<Tok>, ghost before: seq<Body>, ghost B: string -> bool)
    returns (ghost alts: seq<Body>)
    requires minV <= maxV && maxS == ToString(maxV) && |ToString(minV)| <= |maxS|
    requires minS == LeastOfLength(minV, |maxS|)
    requires out.toks == base + Barred(before)
    requires before == [] || OkAlts(before)
    modifies out
    ensures out.toks == base + ShowAlts(alts) && OkAlts(alts)
    ensures before <= alts
    ensures DenotesAlts(before, SoFar(minV, |maxS|, B)) ==> DenotesAlts(alts, UpToP(B, minV, maxV))
  {
    ghost var ys := UniformRange(minS, maxS, out);
    alts := LastLength(minV, maxV, B, base, before, ys);
  }

  function NoneP(): string -> bool { s => false }

  /** B and the numerals, without leading zeros, of lo to hi. */
  function UpToP(B: string -> bool, lo: nat, hi: nat): string -> bool {
    s => B(s) || (Canonical(s) && lo <= Val(s) <= hi)
  }

  function SoFar(lo: nat, n: nat, B: string -> bool): string -> bool { s => B(s) || Shorter(lo, n, s) }

  lemma StartOfLoop(lo: nat, B: string -> bool, alts: seq<Body>)
    ensures DenotesAlts(alts, B) ==> DenotesAlts(alts, SoFar(lo, |ToString(lo)|, B))
  {
    forall s ensures B(s) <==> SoFar(lo, |ToString(lo)|, B)(s) { NoneShorter(lo, s); }
    if DenotesAlts(alts, B) { AltsSame(alts, B, SoFar(lo, |ToString(lo)|, B)); }
  }

  lemma LoopStep(lo: nat, n: nat, B: string -> bool, base: seq<Tok>, alts: seq<Body>, ys: seq<Sym>)
    returns (more: seq<Body>)
    requires n >= |ToString(lo)| && OkSyms(ys) && (alts == [] || OkAlts(alts))
    requires Bounds(LeastOfLength(lo, n), Nines(n)) ==> Denotes(ys, BetweenP(LeastOfLength(lo, n), Nines(n)))
    ensures base + Barred(alts) + ShowSyms(ys) == base + ShowAlts(more) && OkAlts(more)
    ensures more == alts + [Body(ys)]
    ensures DenotesAlts(alts, SoFar(lo, n, B)) ==> DenotesAlts(more, SoFar(lo, n + 1, B))
  {
    more := Branch(base, alts, ys);
    if DenotesAlts(alts, SoFar(lo, n, B)) { LoopDenotes(lo, n, B, alts, ys); }
  }

  lemma LoopDenotes(lo: nat, n: nat, B: string -> bool, alts: seq<Body>, ys: seq<Sym>)
    requires n >= |ToString(lo)| && DenotesAlts(alts, SoFar(lo, n, B))
    requires Bounds(LeastOfLength(lo, n), Nines(n)) ==> Denotes(ys, BetweenP(LeastOfLength(lo, n), Nines(n)))
    ensures DenotesAlts(alts + [Body(ys)], SoFar(lo, n + 1, B))
  {
    var m := LeastOfLength(lo, n);
    NinesGreatest(m);
    var P, Q, R := SoFar(lo, n, B), BetweenP(m, Nines(n)), SoFar(lo, n + 1, B);
    forall s ensures P(s) || Q(s) <==> R(s) { OneLength(lo, n, Nines(n), s); }
    AlsoDenotes(alts, P, ys, Q, R);
  }

  lemma NoneShorter(lo: nat, s: string)
    ensures !Shorter(lo, |ToString(lo)|, s)
  {
    ToStringValue(lo);
    ToStringCanonical(lo);
    if Shorter(lo, |ToString(lo)|, s) { LongerIsGreater(s, ToString(lo)); }
  }

  /** The last alternative completes the range: numerals shorter than the maximum, and those of its length. */
  lemma LastLength(lo: nat, hi: nat, B: string -> bool, base: seq<Tok>, alts: seq<Body>, ys: seq<Sym>)
    returns (more: seq<Body>)
    requires lo <= hi && |ToString(lo)| <= |ToString(hi)| && OkSyms(ys) && (alts == [] || OkAlts(alts))
    requires Bounds(LeastOfLength(lo, |ToString(hi)|), ToString(hi)) ==>
               Denotes(ys, BetweenP(LeastOfLength(lo, |ToString(hi)|), ToString(hi)))
    ensures base + Barred(alts) + ShowSyms(ys) == base + ShowAlts(more) && OkAlts(more)
    ensures more == alts + [Body(ys)]
    ensures DenotesAlts(alts, SoFar(lo, |ToString(hi)|, B)) ==>
              DenotesAlts(more, UpToP(B, lo, hi))
  {
    LastIsBounded(lo, hi);
    more := Branch(base, alts, ys);
    if DenotesAlts(alts, SoFar(lo, |ToString(hi)|, B)) { LastDenotes(lo, hi, B, alts, ys); }
  }

  lemma LastIsBounded(lo: nat, hi: nat)
    requires lo <= hi && |ToString(lo)| <= |ToString(hi)|
    ensures Bounds(LeastOfLength(lo, |ToString(hi)|), ToString(hi))
  {
    var top := ToString(hi);
    ToStringValue(hi);
    ToStringCanonical(hi);
    LeastIsLeast(lo, |top|, top);
  }

  lemma LastDenotes(lo: nat, hi: nat, B: string -> bool, alts: seq<Body>, ys: seq<Sym>)
    requires lo <= hi && |ToString(lo)| <= |ToString(hi)| && OkSyms(ys) && (alts == [] || OkAlts(alts))
    requires Denotes(ys, BetweenP(LeastOfLength(lo, |ToString(hi)|), ToString(hi)))
    requires DenotesAlts(alts, SoFar(lo, |ToString(hi)|, B))
    ensures DenotesAlts(alts + [Body(ys)], UpToP(B, lo, hi))
  {
    var top := ToString(hi);
    var P, R := SoFar(lo, |top|, B), BetweenP(LeastOfLength(lo, |top|), top);
    var all := UpToP(B, lo, hi);
    forall s ensures P(s) || R(s) <==> all(s) { UpToLast(lo, hi, s); }
    AlsoDenotes(alts, P, ys, R, all);
  }

  lemma UpToLast(lo: nat, hi: nat, s: string)
    requires lo <= hi && |ToString(lo)| <= |ToString(hi)|
    ensures var top := ToString(hi);
            Shorter(lo, |top|, s) || Between(LeastOfLength(lo, |top|), top, s) <==> Canonical(s) && lo <= Val(s) <= hi
  {
    var top := ToString(hi);
    ToStringValue(hi);
    ToStringCanonical(hi);
    OneLength(lo, |top|, top, s);
    if Canonical(s) {
      if |s| > |top| { LongerIsGreater(top, s); }
      if |s| < |top| { LongerIsGreater(s, top); }
    }
  }

  // ---------------------------------------------------------------------------------------------
  // The whole of _build_min_max_int
  // ---------------------------------------------------------------------------------------------

  /** xs accepts s, whatever rule names mean. */
  ghost predicate Accepts(alts: seq<Body>, s: string) {
    forall I :: MatchesAlts(alts, s, I)
  }

  ghost predicate AcceptsHuge(alts: seq<Body>) {
    exists s :: Huge(s) && Accepts(alts, s)
  }

  /** A numeral of 16 digits, which no 32-bit integer needs. */
  predicate Huge(s: string) {
    |s| == 16 && Canonical(s) && s[0] != '0'
  }

  lemma HugeIsTooLarge(s: string)
    requires Huge(s)
    ensures Val(s) > INT_MAX
  {
    ValAtLeast(s);
    Pow10Mono(10, 15);
    TenToTheTenth();
  }

  /** Another alternative behind those already written: the text and its reading agree again. */
  lemma Branch(base: seq<Tok>, alts: seq<Body>, ys: seq<Sym>) returns (more: seq<Body>)
    requires OkSyms(ys) && (alts == [] || OkAlts(alts))
    ensures more == alts + [Body(ys)] && OkAlts(more)
    ensures base + Barred(alts) + ShowSyms(ys) == base + ShowAlts(more)
    ensures base + ShowAlts(more) + [TBar] == base + Barred(more)
  {
    BarredText(alts, ys);
    more := alts + [Body(ys)];
    Associates(base, Barred(alts), ShowSyms(ys));
    Associates(base, ShowAlts(more), [TBar]);
  }

  lemma Associates(a: seq<Tok>, b: seq<Tok>, c: seq<Tok>)
    ensures a + b + c == a + (b + c)
  {
  }

  lemma ShowTwo(x: Sym, y: Sym)
    ensures ShowSyms([x, y]) == Show(x) + Show(y)
    ensures Ok(x) && Ok(y) ==> OkSyms([x, y])
  {
    ShowSymsConcat([x], [y]);
    ShowOne(x);
    ShowOne(y);
    assert [x] + [y] == [x, y];
  }

  /** A digit from lo to hi, then minDigits to maxDigits more. */
  method DigitAndMore(lo: char, hi: char, minDigits: nat, maxDigits: nat, out: Text<PlainTok>)
    returns (ghost ys: seq<Sym>)
    requires NearDigit(lo) && NearDigit(hi) && maxDigits < INT_MAX
    modifies out
    ensures out.toks == old(out.toks) + ShowSyms(ys) && OkSyms(ys)
    ensures ys == [Class(DigitRangeText(lo, hi)), Digits(minDigits, Some(maxDigits))]
  {
    ghost var x := DigitRange(lo, hi, out);
    ghost var y := MoreDigits(minDigits, maxDigits, out);
    ys := [x, y];
    ShowTwo(x, y);
  }

  /** The bounds that count as given, as the source decides it. */
  predicate HasMin(minV: int) { minV != INT_MIN }
  predicate HasMax(maxV: int) { maxV != INT_MAX }

  /** Dropping the leading digit gives a smaller number, of at most nine digits. */
  lemma DropHead(n: nat)
    requires 10 <= n <= INT_MAX
    ensures var s := ToString(n); 2 <= |s| <= 10 && s[0] != '0' && Val(s[1..]) < n
  {
    var s := ToString(n);
    ToStringCanonical(n);
    ToStringValue(n);
    ValHead(s);
    ValAtLeast(s);
    ProductAtLeast(DigitValue(s[0]), Pow10(|s| - 1));
    if |s| > 10 {
      Pow10Mono(10, |s| - 1);
      TenToTheTenth();
    }
  }

  lemma ProductAtLeast(d: nat, p: nat)
    requires d >= 1
    ensures d * p >= p
  {
  }

  lemma TenToTheTenth()
    ensures Pow10(10) > INT_MAX
  {
    assert Pow10(5) == 100_000;
    assert Pow10(10) == 100_000 * Pow10(5);
  }

  /** What is accepted has a value in the range; and the canonical numeral of every integer in it is accepted. */
  lemma RangeOfTexts(lo: int, hi: int, s: string, n: nat)
    requires lo <= hi
    ensures IntText(lo, hi, s) && IsDigit(s[0]) ==> AllDigits(s) && lo <= Val(s) <= hi
    ensures IntText(lo, hi, s) && !IsDigit(s[0]) ==> s[0] == '-' && AllDigits(s[1..]) && lo <= 0 - Val(s[1..]) <= hi
    ensures lo <= n <= hi ==> IntText(lo, hi, ToString(n))
    ensures n > 0 && lo <= 0 - n <= hi ==> IntText(lo, hi, "-" + ToString(n))
  {
    ToStringValue(n);
    ToStringCanonical(n);
    assert ("-" + ToString(n))[1..] == ToString(n);
  }
}
