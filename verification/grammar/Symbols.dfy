/** Symbols and character classes that several parts of the converter write. */
module Symbols {
  import opened Options
  import opened Gbnf

  function Opt(x: Sym): Sym { Rep(x, 0, Some(1)) }
  function Star(x: Sym): Sym { Rep(x, 0, None) }
  function Exactly(n: nat, x: Sym): Sym { Rep(x, n, Some(n)) }

  const SP: Sym := Ref("space")

  function WithSpace(deps: seq<string>): set<string> {
    (set d | d in deps) + {"space"}
  }

  lemma PlainCharacter(s: string, c: char)
    requires s != "" && s[0] == c && c !in {']', '\\'}
    ensures ReadChar(s) == Some((c, 1))
  {
  }

  lemma EscapedBackslash(s: string)
    requires |s| >= 2 && s[0] == '\\' && s[1] == '\\'
    ensures ReadChar(s) == Some(('\\', 2))
  {
  }

  lemma OneRange(lo: char, hi: char, c: char)
    ensures InRanges([(lo, hi)], c) <==> lo <= c <= hi
  {
    assert (lo, hi) in [(lo, hi)];
  }

  /** A class text begins with one span. */
  lemma OneSpanReads(text: string, lo: char, hi: char, n: nat, rest: string)
    requires ReadSpan(text) == Some((lo, hi, n)) && text[n..] == rest && ReadRanges(rest).Some?
    ensures ReadRanges(text).Some? && ReadRanges(text).value == [(lo, hi)] + ReadRanges(rest).value
  {
  }

  lemma DashSpan(text: string, n: nat, lo: char, dash: string, tail: string, m: nat, hi: char)
    requires ReadChar(text) == Some((lo, n)) && text[n..] == dash
    requires |dash| >= 2 && dash[0] == '-' && dash[1..] == tail && ReadChar(tail) == Some((hi, m))
    ensures ReadSpan(text) == Some((lo, hi, n + 1 + m)) && text[n + 1 + m..] == tail[m..]
  {
  }

  lemma OneRangeReads(text: string, lo: char, hi: char, rest: string)
    requires lo !in {']', '\\'} && hi !in {']', '\\'}
    requires text == [lo, '-', hi] + rest
    requires ReadRanges(rest).Some?
    ensures ReadRanges(text).Some? && ReadRanges(text).value == [(lo, hi)] + ReadRanges(rest).value
  {
    var dash := text[1..];
    var tail := [hi] + rest;
    assert text[0] == lo && dash == ['-', hi] + rest;
    assert dash[1..] == tail && tail[1..] == rest;
    PlainCharacter(text, lo);
    PlainCharacter(tail, hi);
    DashSpan(text, 1, lo, dash, tail, 1, hi);
    OneSpanReads(text, lo, hi, 3, rest);
  }

  lemma OneCharacterReads(text: string, n: nat, c: char, rest: string)
    requires ReadChar(text) == Some((c, n)) && text[n..] == rest && (|rest| < 2 || rest[0] != '-')
    requires ReadRanges(rest).Some?
    ensures ReadRanges(text).Some? && ReadRanges(text).value == [(c, c)] + ReadRanges(rest).value
  {
    assert ReadSpan(text) == Some((c, c, n));
    OneSpanReads(text, c, c, n, rest);
  }

  /** A class that excludes the quote and whatever `text` lists. */
  lemma NoQuoteReads(text: string)
    requires ReadRanges(text).Some? && (|text| < 2 || text[0] != '-')
    ensures ReadClass(['^', '"'] + text) == Some(CharSet(true, [('"', '"')] + ReadRanges(text).value))
  {
    var t := ['"'] + text;
    assert t[1..] == text;
    assert ReadChar(t) == Some(('"', 1));
    OneCharacterReads(t, 1, '"', text);
    var body := ['^', '"'] + text;
    assert body[1..] == t && body[0] == '^';
  }

  lemma OneBodyOk(xs: seq<Sym>)
    requires OkSyms(xs)
    ensures OkAlts([Body(xs)])
    ensures Ok(Group([Body(xs)])) && Ok(Opt(Group([Body(xs)]))) && Ok(Star(Group([Body(xs)])))
  {
    assert [Body(xs)][0].syms == xs;
  }

  lemma OkBoth(xs: seq<Sym>, ys: seq<Sym>)
    requires OkSyms(xs) && OkSyms(ys)
    ensures OkSyms(xs + ys)
  {
  }

  lemma PairOk(x: Sym, y: Sym)
    requires Ok(x) && Ok(y)
    ensures OkSyms([x]) && OkSyms([x, y])
  {
  }

  /** An optional symbol accepts nothing, or what the symbol accepts. */
  lemma OptMatches(x: Sym, b: string, I: Interp)
    ensures Matches(Opt(x), b, I) <==> b == "" || Matches(x, b, I)
  {
    if b == "" {
      assert RepCount(0, Some(1), 0) && MatchesTimes(x, 0, b, I);
    }
    if Matches(x, b, I) {
      assert b[..|b|] == b && b[|b|..] == "";
      assert MatchesTimes(x, 0, b[|b|..], I);
      assert RepCount(0, Some(1), 1) && MatchesTimes(x, 1, b, I);
    }
    if Matches(Opt(x), b, I) {
      var k: nat :| RepCount(0, Some(1), k) && MatchesTimes(x, k, b, I);
      if k == 1 {
        var i :| 0 <= i <= |b| && Matches(x, b[..i], I) && MatchesTimes(x, 0, b[i..], I);
        assert b[..i] == b;
      }
    }
  }
}
