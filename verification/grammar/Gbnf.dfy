/** GBNF, the grammar notation the schema converter writes.

    A rule body is kept as the sequence of lexemes that make up its text. `Parse` reads lexemes the way
    the grammar parser of the program does (alternatives of sequences, postfix repetition, groups), and
    `Matches` and its companions say which strings a parsed body accepts when rule references are
    interpreted by `I`. `Lang` closes a rule map under its own references (least fixpoint). */
module Gbnf {
  import opened Options

  /** One lexeme. `TClass` keeps the raw text between the brackets; `TRep` is any of ? * + {m} {m,} {m,n}. */
  datatype Tok =
    | TLit(text: string)
    | TClass(body: string)
    | TRef(name: string)
    | TOpen
    | TClose
    | TBar
    | TRep(lo: int, hi: Option<int>)

  const OPT: Tok := TRep(0, Some(1))
  const STAR: Tok := TRep(0, None)
  const PLUS: Tok := TRep(1, None)

  /** A parsed symbol; a parsed rule body is a sequence of alternatives. */
  datatype Sym =
    | Lit(text: string)
    | Class(body: string)
    | Ref(name: string)
    | Group(alts: seq<Body>)
    | Rep(sym: Sym, lo: nat, hi: Option<nat>)

  datatype Body = Body(syms: seq<Sym>)

  // ---------------------------------------------------------------------------------------------
  // Character classes, read from their raw text
  // ---------------------------------------------------------------------------------------------

  datatype CharSet = CharSet(negated: bool, ranges: seq<(char, char)>)

  function HexValue(c: char): Option<nat> {
    if 'a' <= c <= 'f' then Some(c as int - 'a' as int + 10)
    else if 'A' <= c <= 'F' then Some(c as int - 'A' as int + 10)
    else if '0' <= c <= '9' then Some(c as int - '0' as int)
    else None
  }

  function HexNumber(s: string): Option<nat> {
    if s == "" then Some(0)
    else match (HexNumber(s[..|s| - 1]), HexValue(s[|s| - 1]))
      case (Some(a), Some(b)) => Some(16 * a + b)
      case _ => None
  }

  /** Reads one character at the front of `s`; answers it and the number of text characters it takes. */
  function ReadChar(s: string): (r: Option<(char, nat)>)
    ensures r.Some? ==> 1 <= r.value.1 <= |s|
  {
    if s == "" || s[0] == ']' then None
    else if s[0] != '\\' then Some((s[0], 1))
    else if |s| < 2 then None
    else if s[1] in "xuU" then
      var n := if s[1] == 'x' then 2 else if s[1] == 'u' then 4 else 8;
      if |s| < 2 + n then None
      else match HexNumber(s[2..2 + n])
        case Some(v) => if v < 0xD800 || 0xE000 <= v < 0x11_0000 then Some((v as char, 2 + n)) else None
        case None => None
    else if s[1] == 't' then Some(('\t', 2))
    else if s[1] == 'r' then Some(('\r', 2))
    else if s[1] == 'n' then Some(('\n', 2))
    else if s[1] in "\\\"[]" then Some((s[1], 2))
    else None
  }

  /** One character, or two with a dash between them, and how much text that takes. */
  function ReadSpan(s: string): (r: Option<(char, char, nat)>)
    ensures r.Some? ==> 1 <= r.value.2 <= |s|
  {
    match ReadChar(s)
    case None => None
    case Some((c, n)) =>
      var rest := s[n..];
      if |rest| >= 2 && rest[0] == '-' then
        match ReadChar(rest[1..])
        case None => None
        case Some((d, m)) => Some((c, d, n + 1 + m))
      else Some((c, c, n))
  }

  function ReadRanges(s: string): Option<seq<(char, char)>>
    decreases |s|
  {
    if s == "" then Some([])
    else match ReadSpan(s)
      case None => None
      case Some((lo, hi, n)) =>
        match ReadRanges(s[n..])
        case None => None
        case Some(rs) => Some([(lo, hi)] + rs)
  }

  function ReadClass(body: string): Option<CharSet> {
    var negated := body != "" && body[0] == '^';
    match ReadRanges(if negated then body[1..] else body)
    case None => None
    case Some(rs) => if rs == [] then None else Some(CharSet(negated, rs))
  }

  predicate InRanges(rs: seq<(char, char)>, c: char) {
    exists r :: r in rs && r.0 <= c <= r.1
  }

  predicate InClass(body: string, c: char) {
    match ReadClass(body)
    case None => false
    case Some(cs) => cs.negated != InRanges(cs.ranges, c)
  }

  // ---------------------------------------------------------------------------------------------
  // Lexemes of a parsed body, and the parser
  // ---------------------------------------------------------------------------------------------

  function Show(x: Sym): seq<Tok>
    decreases x, 0
  {
    match x
    case Lit(t) => [TLit(t)]
    case Class(b) => [TClass(b)]
    case Ref(n) => [TRef(n)]
    case Group(alts) => [TOpen] + ShowAlts(alts) + [TClose]
    case Rep(y, lo, hi) => Show(y) + [TRep(lo, hi)]
  }

  function ShowSyms(xs: seq<Sym>): seq<Tok>
    decreases xs, 0
  {
    if xs == [] then [] else Show(xs[0]) + ShowSyms(xs[1..])
  }

  function ShowAlts(alts: seq<Body>): seq<Tok>
    decreases alts, 0
  {
    if alts == [] then []
    else if |alts| == 1 then ShowSyms(alts[0].syms)
    else ShowSyms(alts[0].syms) + [TBar] + ShowAlts(alts[1..])
  }

  /** Bodies that have a text: classes are readable and every group has an alternative. */
  predicate Ok(x: Sym)
    decreases x, 0
  {
    match x
    case Lit(_) => true
    case Class(b) => ReadClass(b).Some?
    case Ref(_) => true
    case Group(alts) => OkAlts(alts)
    case Rep(y, _, _) => Ok(y)
  }

  predicate OkSyms(xs: seq<Sym>)
    decreases xs, 0
  {
    forall i :: 0 <= i < |xs| ==> Ok(xs[i])
  }

  predicate OkAlts(alts: seq<Body>)
    decreases alts, 0
  {
    alts != [] && forall i :: 0 <= i < |alts| ==> OkSyms(alts[i].syms)
  }

  /** Reads symbols up to `|`, `)` or the end; a repetition applies to the last symbol read. */
  function ParseSyms(ts: seq<Tok>, acc: seq<Sym>): (r: Option<(seq<Sym>, seq<Tok>)>)
    ensures r.Some? ==> |r.value.1| <= |ts|
    ensures r.Some? && r.value.1 != [] ==> r.value.1[0].TBar? || r.value.1[0].TClose?
    decreases |ts|, 0
  {
    if ts == [] || ts[0].TBar? || ts[0].TClose? then Some((acc, ts))
    else
      match ts[0]
      case TLit(t) => ParseSyms(ts[1..], acc + [Lit(t)])
      case TClass(b) => if ReadClass(b).None? then None else ParseSyms(ts[1..], acc + [Class(b)])
      case TRef(n) => ParseSyms(ts[1..], acc + [Ref(n)])
      case TRep(lo, hi) =>
        if acc == [] || lo < 0 || (hi.Some? && hi.value < 0) then None
        else
          var h: Option<nat> := match hi case None => None case Some(v) => Some(v);
          ParseSyms(ts[1..], acc[..|acc| - 1] + [Rep(acc[|acc| - 1], lo, h)])
      case TOpen =>
        match ParseAlts(ts[1..])
        case None => None
        case Some((alts, rest)) =>
          if rest == [] || !rest[0].TClose? then None
          else ParseSyms(rest[1..], acc + [Group(alts)])
  }

  function ParseAlts(ts: seq<Tok>): (r: Option<(seq<Body>, seq<Tok>)>)
    ensures r.Some? ==> |r.value.1| <= |ts|
    decreases |ts|, 1
  {
    match ParseSyms(ts, [])
    case None => None
    case Some((xs, rest)) =>
      if rest != [] && rest[0].TBar? then
        match ParseAlts(rest[1..])
        case None => None
        case Some((more, rest')) => Some(([Body(xs)] + more, rest'))
      else Some(([Body(xs)], rest))
  }

  /** A whole rule body: nothing may be left over. */
  function Parse(ts: seq<Tok>): Option<seq<Body>> {
    match ParseAlts(ts)
    case Some((alts, rest)) => if rest == [] then Some(alts) else None
    case None => None
  }

  lemma {:induction false} ParseShow(x: Sym, rest: seq<Tok>, acc: seq<Sym>)
    requires Ok(x)
    ensures ParseSyms(Show(x) + rest, acc) == ParseSyms(rest, acc + [x])
    decreases x, 0
  {
    if x.Group? {
      ParseShowAlts(x.alts, [TClose] + rest);
      ParseGroup(x, rest, acc);
    } else if x.Rep? {
      var tail := [TRep(x.lo, x.hi)] + rest;
      ParseShow(x.sym, tail, acc);
      assert Show(x) + rest == Show(x.sym) + tail;
      ParseRepeat(x, rest, acc);
    } else {
      ParseAtom(x, rest, acc);
    }
  }

  lemma ParseAtom(x: Sym, rest: seq<Tok>, acc: seq<Sym>)
    requires Ok(x) && !x.Group? && !x.Rep?
    ensures ParseSyms(Show(x) + rest, acc) == ParseSyms(rest, acc + [x])
  {
    var ts := Show(x) + rest;
    assert ts[0] == Show(x)[0] && ts[1..] == rest;
  }

  lemma ParseGroup(x: Sym, rest: seq<Tok>, acc: seq<Sym>)
    requires x.Group? && ParseAlts(ShowAlts(x.alts) + ([TClose] + rest)) == Some((x.alts, [TClose] + rest))
    ensures ParseSyms(Show(x) + rest, acc) == ParseSyms(rest, acc + [x])
  {
    var ts, tail := Show(x) + rest, [TClose] + rest;
    assert ts[0] == TOpen && ts[1..] == ShowAlts(x.alts) + tail;
    assert tail[0] == TClose && tail[1..] == rest;
  }

  lemma ParseRepeat(x: Sym, rest: seq<Tok>, acc: seq<Sym>)
    requires x.Rep?
    ensures ParseSyms([TRep(x.lo, x.hi)] + rest, acc + [x.sym]) == ParseSyms(rest, acc + [x])
  {
    var tail := [TRep(x.lo, x.hi)] + rest;
    assert tail[1..] == rest;
    var all := acc + [x.sym];
    assert all[..|all| - 1] == acc && all[|all| - 1] == x.sym;
  }

  lemma ShowSymsHead(xs: seq<Sym>, rest: seq<Tok>)
    requires xs != []
    ensures ShowSyms(xs) + rest == Show(xs[0]) + (ShowSyms(xs[1..]) + rest)
  {
  }

  lemma {:induction false} ParseShowSyms(xs: seq<Sym>, rest: seq<Tok>, acc: seq<Sym>)
    requires OkSyms(xs)
    requires rest == [] || rest[0].TBar? || rest[0].TClose?
    ensures ParseSyms(ShowSyms(xs) + rest, acc) == Some((acc + xs, rest))
    decreases xs, 0
  {
    if xs == [] {
      ParseStops(xs, rest, acc);
    } else {
      var x, ys := xs[0], xs[1..];
      OkHead(xs);
      ShowSymsHead(xs, rest);
      ParseShow(x, ShowSyms(ys) + rest, acc);
      ParseShowSyms(ys, rest, acc + [x]);
      ReadOn(ShowSyms(xs) + rest, ShowSyms(ys) + rest, acc, xs, rest);
    }
  }

  lemma ReadOn(ts: seq<Tok>, us: seq<Tok>, acc: seq<Sym>, xs: seq<Sym>, rest: seq<Tok>)
    requires xs != [] && ParseSyms(ts, acc) == ParseSyms(us, acc + [xs[0]])
    requires ParseSyms(us, acc + [xs[0]]) == Some(((acc + [xs[0]]) + xs[1..], rest))
    ensures ParseSyms(ts, acc) == Some((acc + xs, rest))
  {
    assert acc + xs == (acc + [xs[0]]) + xs[1..];
  }

  lemma OkHead(xs: seq<Sym>)
    requires OkSyms(xs) && xs != []
    ensures Ok(xs[0]) && OkSyms(xs[1..])
  {
  }

  lemma ParseStops(xs: seq<Sym>, rest: seq<Tok>, acc: seq<Sym>)
    requires xs == [] && (rest == [] || rest[0].TBar? || rest[0].TClose?)
    ensures ParseSyms(ShowSyms(xs) + rest, acc) == Some((acc + xs, rest))
  {
    assert ShowSyms(xs) + rest == rest;
    assert acc + xs == acc;
  }

  lemma ParseLast(ts: seq<Tok>, xs: seq<Sym>, rest: seq<Tok>)
    requires ParseSyms(ts, []) == Some((xs, rest)) && (rest == [] || rest[0].TClose?)
    ensures ParseAlts(ts) == Some(([Body(xs)], rest))
  {
  }

  lemma ParseMore(ts: seq<Tok>, xs: seq<Sym>, tail: seq<Tok>, more: seq<Tok>, others: seq<Body>, rest: seq<Tok>)
    requires ParseSyms(ts, []) == Some((xs, tail)) && tail == [TBar] + more && ParseAlts(more) == Some((others, rest))
    ensures ParseAlts(ts) == Some(([Body(xs)] + others, rest))
  {
    assert tail[0] == TBar && tail[1..] == more;
  }

  lemma {:induction false} ParseShowAlts(alts: seq<Body>, rest: seq<Tok>)
    requires OkAlts(alts)
    requires rest == [] || rest[0].TClose?
    ensures ParseAlts(ShowAlts(alts) + rest) == Some((alts, rest))
    decreases alts, 0
  {
    var xs := alts[0].syms;
    assert OkSyms(xs) && alts[0] == Body(xs) && [] + xs == xs;
    if |alts| == 1 {
      ParseShowSyms(xs, rest, []);
      ParseLast(ShowAlts(alts) + rest, xs, rest);
      assert alts == [Body(xs)];
    } else {
      var others := alts[1..];
      var more := ShowAlts(others) + rest;
      ParseShowSyms(xs, [TBar] + more, []);
      ParseShowAlts(others, rest);
      ShowAltsHead(alts, rest);
      ParseMore(ShowAlts(alts) + rest, xs, [TBar] + more, more, others, rest);
      assert alts == [Body(xs)] + others;
    }
  }

  lemma ShowAltsHead(alts: seq<Body>, rest: seq<Tok>)
    requires |alts| > 1
    ensures ShowAlts(alts) + rest == ShowSyms(alts[0].syms) + ([TBar] + (ShowAlts(alts[1..]) + rest))
  {
  }

  /** Reading back what was written: precedence and grouping in the emitted text are right. */
  lemma ShowThenParse(alts: seq<Body>)
    requires OkAlts(alts)
    ensures Parse(ShowAlts(alts)) == Some(alts)
  {
    ParseShowAlts(alts, []);
    assert ShowAlts(alts) + [] == ShowAlts(alts);
  }

  lemma {:induction false} ShowSymsConcat(xs: seq<Sym>, ys: seq<Sym>)
    ensures ShowSyms(xs + ys) == ShowSyms(xs) + ShowSyms(ys)
  {
    if xs == [] {
      assert xs + ys == ys;
    } else {
      var zs := xs + ys;
      assert zs[0] == xs[0] && zs[1..] == xs[1..] + ys;
      ShowSymsConcat(xs[1..], ys);
      var a, b, c := Show(xs[0]), ShowSyms(xs[1..]), ShowSyms(ys);
      assert a + (b + c) == (a + b) + c;
    }
  }

  lemma ShowOne(x: Sym)
    ensures ShowSyms([x]) == Show(x)
  {
    assert [x][1..] == [];
  }

  lemma {:induction false} ShowAltsConcat(xs: seq<Body>, ys: seq<Body>)
    requires xs != [] && ys != []
    ensures ShowAlts(xs + ys) == ShowAlts(xs) + [TBar] + ShowAlts(ys)
  {
    if |xs| == 1 {
      assert (xs + ys)[1..] == ys;
    } else {
      ShowAltsConcat(xs[1..], ys);
      assert (xs + ys)[1..] == xs[1..] + ys;
    }
  }

  // ---------------------------------------------------------------------------------------------
  // Languages
  // ---------------------------------------------------------------------------------------------

  /** (n, s) in I: rule n may produce string s. */
  type Interp = iset<(string, string)>

  /** k copies satisfy {lo,hi}. The parser unrolls the first lo copies and then max(0, hi - lo) optional ones. */
  predicate RepCount(lo: nat, hi: Option<nat>, k: nat) {
    lo <= k && (hi.Some? ==> k <= hi.value || k == lo)
  }

  ghost predicate Matches(x: Sym, s: string, I: Interp)
    decreases x, 0, 0
  {
    match x
    case Lit(t) => s == t
    case Class(b) => |s| == 1 && InClass(b, s[0])
    case Ref(n) => (n, s) in I
    case Group(alts) => MatchesAlts(alts, s, I)
    case Rep(y, lo, hi) => exists k: nat :: RepCount(lo, hi, k) && MatchesTimes(y, k, s, I)
  }

  ghost predicate MatchesTimes(y: Sym, k: nat, s: string, I: Interp)
    decreases y, 1, k
  {
    if k == 0 then s == ""
    else exists i :: 0 <= i <= |s| && Matches(y, s[..i], I) && MatchesTimes(y, k - 1, s[i..], I)
  }

  ghost predicate MatchesSyms(xs: seq<Sym>, s: string, I: Interp)
    decreases xs, 0, 0
  {
    if xs == [] then s == ""
    else exists i :: 0 <= i <= |s| && Matches(xs[0], s[..i], I) && MatchesSyms(xs[1..], s[i..], I)
  }

  ghost predicate MatchesAlts(alts: seq<Body>, s: string, I: Interp)
    decreases alts, 0, 0
  {
    exists j :: 0 <= j < |alts| && MatchesSyms(alts[j].syms, s, I)
  }

  lemma Slices(s: string, j: nat, i: nat)
    requires j <= i <= |s|
    ensures s[..i][..j] == s[..j] && s[..i][j..] == s[j..][..i - j] && s[i..] == s[j..][i - j..]
  {
  }

  lemma MatchesCons(xs: seq<Sym>, s: string, j: nat, I: Interp)
    requires xs != [] && j <= |s| && Matches(xs[0], s[..j], I) && MatchesSyms(xs[1..], s[j..], I)
    ensures MatchesSyms(xs, s, I)
  {
  }

  lemma MatchesUncons(xs: seq<Sym>, s: string, I: Interp) returns (j: nat)
    requires xs != [] && MatchesSyms(xs, s, I)
    ensures j <= |s| && Matches(xs[0], s[..j], I) && MatchesSyms(xs[1..], s[j..], I)
  {
    j :| 0 <= j <= |s| && Matches(xs[0], s[..j], I) && MatchesSyms(xs[1..], s[j..], I);
  }

  lemma {:induction false} MatchesConcat(xs: seq<Sym>, ys: seq<Sym>, s: string, i: nat, I: Interp)
    requires i <= |s| && MatchesSyms(xs, s[..i], I) && MatchesSyms(ys, s[i..], I)
    ensures MatchesSyms(xs + ys, s, I)
    decreases |xs|
  {
    if xs == [] {
      assert xs + ys == ys;
      assert s[i..] == s;
    } else {
      var j := MatchesUncons(xs, s[..i], I);
      Slices(s, j, i);
      MatchesConcat(xs[1..], ys, s[j..], i - j, I);
      assert (xs + ys)[1..] == xs[1..] + ys;
      MatchesCons(xs + ys, s, j, I);
    }
  }

  lemma {:induction false} MatchesSplit(xs: seq<Sym>, ys: seq<Sym>, s: string, I: Interp) returns (i: nat)
    requires MatchesSyms(xs + ys, s, I)
    ensures i <= |s| && MatchesSyms(xs, s[..i], I) && MatchesSyms(ys, s[i..], I)
    decreases |xs|
  {
    if xs == [] {
      assert xs + ys == ys;
      i := 0;
      assert s[0..] == s;
    } else {
      assert (xs + ys)[1..] == xs[1..] + ys;
      var j := MatchesUncons(xs + ys, s, I);
      var i' := MatchesSplit(xs[1..], ys, s[j..], I);
      i := j + i';
      Slices(s, j, i);
      MatchesCons(xs, s[..i], j, I);
    }
  }

  lemma MatchesOne(x: Sym, s: string, I: Interp)
    ensures MatchesSyms([x], s, I) <==> Matches(x, s, I)
  {
    assert [x][1..] == [];
    if Matches(x, s, I) {
      assert s[..|s|] == s;
      assert s[|s|..] == "";
    }
    if MatchesSyms([x], s, I) {
      var i :| 0 <= i <= |s| && Matches(x, s[..i], I) && MatchesSyms([], s[i..], I);
      assert s[..i] == s;
    }
  }

  lemma MatchesAltsConcat(xs: seq<Body>, ys: seq<Body>, s: string, I: Interp)
    ensures MatchesAlts(xs + ys, s, I) <==> MatchesAlts(xs, s, I) || MatchesAlts(ys, s, I)
  {
    if MatchesAlts(xs, s, I) {
      var j :| 0 <= j < |xs| && MatchesSyms(xs[j].syms, s, I);
      assert (xs + ys)[j] == xs[j];
    }
    if MatchesAlts(ys, s, I) {
      var j :| 0 <= j < |ys| && MatchesSyms(ys[j].syms, s, I);
      assert (xs + ys)[|xs| + j] == ys[j];
    }
  }

  lemma MatchesAltsOne(xs: seq<Sym>, s: string, I: Interp)
    ensures MatchesAlts([Body(xs)], s, I) <==> MatchesSyms(xs, s, I)
  {
    assert [Body(xs)][0].syms == xs;
  }
}
