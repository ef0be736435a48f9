/** The languages of the rule shapes the converter writes for tuples and objects. */
module Shapes {
  import opened Options
  import opened Gbnf
  import opened Rules
  import opened Symbols
  import opened IntRange
  import opened Repetition
  import opened NotStrings
  import opened Schemas

  /** White space means under I what it means on its own. */
  ghost predicate SpaceOk(T: Table, I: Interp) { forall w :: ("space", w) in I <==> Blank(T, w) }

  // ---------------------------------------------------------------------------------------------
  // Brackets
  // ---------------------------------------------------------------------------------------------

  function Bracketed(open: char, close: char, xs: seq<Sym>): seq<Sym> { [Lit([open]), SP] + xs + [Lit([close]), SP] }

  lemma BracketedText(open: char, close: char, xs: seq<Sym>)
    ensures ShowSyms(Bracketed(open, close, xs))
         == [TLit([open]), TRef("space")] + ShowSyms(xs) + [TLit([close]), TRef("space")]
    ensures OkSyms(xs) ==> OkSyms(Bracketed(open, close, xs))
  {
    ShowTwo(Lit([open]), SP);
    ShowTwo(Lit([close]), SP);
    ShowSymsConcat([Lit([open]), SP], xs);
    ShowSymsConcat([Lit([open]), SP] + xs, [Lit([close]), SP]);
  }

  lemma BracketedRefs(open: char, close: char, xs: seq<Sym>, N: set<string>)
    requires SymsRefsIn(xs, N) && "space" in N
    ensures SymsRefsIn(Bracketed(open, close, xs), N)
  {
  }

  /** A one-character literal, then white space. */
  lemma CharSpace(c: char, s: string, I: Interp)
    ensures MatchesSyms([Lit([c]), SP], s, I) <==> s != "" && s[0] == c && ("space", s[1..]) in I
  {
    assert [Lit([c])] + [SP] == [Lit([c]), SP];
    LitThen([c], [SP], s, I);
    if s != "" {
      assert s[..1] == [s[0]];
      MatchesOne(SP, s[1..], I);
    }
  }

  lemma BracketedMeans(T: Table, open: char, close: char, xs: seq<Sym>, s: string, I: Interp)
    requires SpaceOk(T, I)
    ensures MatchesSyms(Bracketed(open, close, xs), s, I) <==>
            exists i: nat, j: nat :: Enclosed(T, open, close, s, i, j) && MatchesSyms(xs, s[i..j], I)
  {
    var front, back := [Lit([open]), SP], [Lit([close]), SP];
    if MatchesSyms(Bracketed(open, close, xs), s, I) {
      var j := MatchesSplit(front + xs, back, s, I);
      var i := MatchesSplit(front, xs, s[..j], I);
      CharSpace(open, s[..j][..i], I);
      CharSpace(close, s[j..], I);
      assert s[..j][..i] == s[..i] && s[..i][1..] == s[1..i] && s[..j][i..] == s[i..j] && s[j..][1..] == s[j + 1..];
      assert Enclosed(T, open, close, s, i, j);
    }
    if i: nat, j: nat :| Enclosed(T, open, close, s, i, j) && MatchesSyms(xs, s[i..j], I) {
      assert s[..j][..i] == s[..i] && s[..i][1..] == s[1..i] && s[..j][i..] == s[i..j] && s[j..][1..] == s[j + 1..];
      CharSpace(open, s[..i], I);
      CharSpace(close, s[j..], I);
      MatchesConcat(front, xs, s[..j], i, I);
      MatchesConcat(front + xs, back, s, j, I);
    }
  }

  // ---------------------------------------------------------------------------------------------
  // Joined lists
  // ---------------------------------------------------------------------------------------------

  lemma CommaMeans(T: Table, w: string, I: Interp)
    requires SpaceOk(T, I)
    ensures MatchesSyms(COMMA, w, I) <==> w != "" && w[0] == ',' && Blank(T, w[1..])
  {
    CharSpace(',', w, I);
  }

  lemma BuiltinSpaceOk(T: Table)
    ensures SpaceOk(T, Builtin(T))
  {
  }

  lemma {:induction false} TailSame(T: Table, items: seq<string>, s: string, I: Interp, J: Interp)
    requires SpaceOk(T, I) && SpaceOk(T, J) && Tail(items, s, COMMA, I)
    ensures Tail(items, s, COMMA, J)
    decreases |items|
  {
    if items != [] {
      var a: nat, b: nat :| Step(items[0], s, a, b, COMMA, I) && Tail(items[1..], s[b..], COMMA, I);
      CommaMeans(T, s[..a], I);
      CommaMeans(T, s[..a], J);
      TailSame(T, items[1..], s[b..], I, J);
      assert Step(items[0], s, a, b, COMMA, J);
    }
  }

  lemma JoinedSame(T: Table, items: seq<string>, s: string, I: Interp)
    requires SpaceOk(T, I)
    ensures Joined(items, s, COMMA, I) <==> Joined(items, s, COMMA, Builtin(T))
  {
    BuiltinSpaceOk(T);
    if items != [] && items[0] <= s {
      var r := s[|items[0]|..];
      if Tail(items[1..], r, COMMA, I) { TailSame(T, items[1..], r, I, Builtin(T)); }
      if Tail(items[1..], r, COMMA, Builtin(T)) { TailSame(T, items[1..], r, Builtin(T), I); }
    }
  }

  lemma SplitSlices(s: string, a: nat, b: nat, m: nat)
    requires a <= b <= m <= |s|
    ensures s[..m][..a] == s[..a] && s[..m][a..b] == s[a..b]
    ensures s[..m][b..] == s[b..][..m - b] && s[b..][m - b..] == s[m..]
  {
  }

  lemma StepOfPrefix(item: string, s: string, a: nat, b: nat, m: nat, sep: seq<Sym>, I: Interp)
    requires a <= b <= m <= |s|
    ensures Step(item, s[..m], a, b, sep, I) <==> Step(item, s, a, b, sep, I)
  {
    SplitSlices(s, a, b, m);
  }

  lemma StepThenTail(items: seq<string>, s: string, a: nat, b: nat, sep: seq<Sym>, I: Interp)
    requires items != [] && Step(items[0], s, a, b, sep, I) && Tail(items[1..], s[b..], sep, I)
    ensures Tail(items, s, sep, I)
  {
  }

  lemma FirstStep(items: seq<string>, s: string, sep: seq<Sym>, I: Interp) returns (a: nat, b: nat)
    requires items != [] && Tail(items, s, sep, I)
    ensures Step(items[0], s, a, b, sep, I) && Tail(items[1..], s[b..], sep, I)
  {
    a, b :| Step(items[0], s, a, b, sep, I) && Tail(items[1..], s[b..], sep, I);
  }

  lemma {:induction false} TailConcat(us: seq<string>, vs: seq<string>, s: string, m: nat, sep: seq<Sym>, I: Interp)
    requires m <= |s| && Tail(us, s[..m], sep, I) && Tail(vs, s[m..], sep, I)
    ensures Tail(us + vs, s, sep, I)
    decreases |us|
  {
    if us == [] {
      assert us + vs == vs && s[m..] == s;
    } else {
      var a, b := FirstStep(us, s[..m], sep, I);
      SplitSlices(s, a, b, m);
      TailConcat(us[1..], vs, s[b..], m - b, sep, I);
      ConcatHead(us, vs);
      StepOfPrefix(us[0], s, a, b, m, sep, I);
      StepThenTail(us + vs, s, a, b, sep, I);
    }
  }

  lemma {:induction false} TailSplit(us: seq<string>, vs: seq<string>, s: string, sep: seq<Sym>, I: Interp)
    returns (m: nat)
    requires Tail(us + vs, s, sep, I)
    ensures m <= |s| && Tail(us, s[..m], sep, I) && Tail(vs, s[m..], sep, I)
    decreases |us|
  {
    if us == [] {
      assert us + vs == vs && s[0..] == s;
      m := 0;
    } else {
      ConcatHead(us, vs);
      var a, b := FirstStep(us + vs, s, sep, I);
      var m' := TailSplit(us[1..], vs, s[b..], sep, I);
      m := b + m';
      SplitSlices(s, a, b, m);
      StepOfPrefix(us[0], s, a, b, m, sep, I);
      StepThenTail(us, s[..m], a, b, sep, I);
    }
  }

  /** A list of one item and more: a separator and the rest. */
  lemma TailIsSepJoined(vs: seq<string>, s: string, sep: seq<Sym>, I: Interp)
    requires vs != []
    ensures Tail(vs, s, sep, I) <==>
            exists a: nat :: a <= |s| && MatchesSyms(sep, s[..a], I) && Joined(vs, s[a..], sep, I)
  {
    if Tail(vs, s, sep, I) {
      var a: nat, b: nat :| Step(vs[0], s, a, b, sep, I) && Tail(vs[1..], s[b..], sep, I);
      assert s[a..][..b - a] == vs[0] && s[a..][|vs[0]|..] == s[b..];
      assert Joined(vs, s[a..], sep, I);
    }
    if a: nat :| a <= |s| && MatchesSyms(sep, s[..a], I) && Joined(vs, s[a..], sep, I) {
      var b := a + |vs[0]|;
      assert s[a..b] == vs[0] && s[a..][|vs[0]|..] == s[b..];
      assert Step(vs[0], s, a, b, sep, I);
    }
  }

  /** Two lists, neither empty, with a separator between them. */
  ghost predicate JoinAt(us: seq<string>, vs: seq<string>, s: string, a: nat, b: nat, sep: seq<Sym>, I: Interp) {
    a <= b <= |s| && Joined(us, s[..a], sep, I) && MatchesSyms(sep, s[a..b], I) && Joined(vs, s[b..], sep, I)
  }

  /** Slices of a string at n <= a <= b. */
  lemma Slices(s: string, n: nat, a: nat, b: nat)
    requires n <= a <= b <= |s|
    ensures s[n..][..a - n] == s[..a][n..] && s[n..][a - n..] == s[a..] && s[..a][..n] == s[..n]
    ensures s[a..][..b - a] == s[a..b] && s[a..][b - a..] == s[b..]
  {
  }

  lemma ConcatHead(us: seq<string>, vs: seq<string>)
    requires us != []
    ensures (us + vs)[0] == us[0] && (us + vs)[1..] == us[1..] + vs && us + vs != []
  {
  }

  lemma TailThenJoined(us: seq<string>, vs: seq<string>, r: string, m: nat, e: nat, sep: seq<Sym>, I: Interp)
    requires vs != [] && m <= e <= |r| && Tail(us, r[..m], sep, I) && MatchesSyms(sep, r[m..e], I)
             && Joined(vs, r[e..], sep, I)
    ensures Tail(us + vs, r, sep, I)
  {
    var t := r[m..];
    assert t[..e - m] == r[m..e] && t[e - m..] == r[e..];
    TailIsSepJoined(vs, t, sep, I);
    TailConcat(us, vs, r, m, sep, I);
  }

  /** A list begins with its first item. */
  lemma JoinedFrom(ws: seq<string>, s: string, sep: seq<Sym>, I: Interp)
    requires ws != [] && ws[0] <= s && Tail(ws[1..], s[|ws[0]|..], sep, I)
    ensures Joined(ws, s, sep, I)
  {
  }

  lemma FirstItem(us: seq<string>, s: string, a: nat, sep: seq<Sym>, I: Interp)
    requires us != [] && a <= |s| && Joined(us, s[..a], sep, I)
    ensures us[0] <= s && |us[0]| <= a && Tail(us[1..], s[..a][|us[0]|..], sep, I)
  {
    assert us[0] <= s[..a] && s[..a] <= s;
  }

  lemma JoinTwo(us: seq<string>, vs: seq<string>, s: string, a: nat, b: nat, sep: seq<Sym>, I: Interp)
    requires us != [] && vs != [] && JoinAt(us, vs, s, a, b, sep, I)
    ensures Joined(us + vs, s, sep, I)
  {
    var n := |us[0]|;
    FirstItem(us, s, a, sep, I);
    MiddleSlices(s, n, a, b);
    TailThenJoined(us[1..], vs, s[n..], a - n, b - n, sep, I);
    ConcatHead(us, vs);
    JoinedFrom(us + vs, s, sep, I);
  }

  lemma MiddleSlices(s: string, n: nat, a: nat, b: nat)
    requires n <= a <= b <= |s|
    ensures s[n..][..a - n] == s[..a][n..] && s[n..][a - n..b - n] == s[a..b] && s[n..][b - n..] == s[b..]
  {
  }

  lemma SplitTwo(us: seq<string>, vs: seq<string>, s: string, sep: seq<Sym>, I: Interp) returns (a: nat, b: nat)
    requires us != [] && vs != [] && Joined(us + vs, s, sep, I)
    ensures JoinAt(us, vs, s, a, b, sep, I)
  {
    ConcatHead(us, vs);
    var n := |us[0]|;
    var r := s[n..];
    var m := TailSplit(us[1..], vs, r, sep, I);
    var c := SepPosition(vs, r[m..], sep, I);
    a, b := n + m, n + m + c;
    MiddleSlices(s, n, a, b);
    Slices(s, n, a, b);
    JoinedOfTail(us, s, a, sep, I);
  }

  lemma JoinedOfTail(us: seq<string>, s: string, a: nat, sep: seq<Sym>, I: Interp)
    requires us != [] && us[0] <= s && |us[0]| <= a <= |s| && Tail(us[1..], s[..a][|us[0]|..], sep, I)
    ensures Joined(us, s[..a], sep, I)
  {
    assert us[0] <= s[..a];
  }

  lemma SepPosition(vs: seq<string>, s: string, sep: seq<Sym>, I: Interp) returns (c: nat)
    requires vs != [] && Tail(vs, s, sep, I)
    ensures c <= |s| && MatchesSyms(sep, s[..c], I) && Joined(vs, s[c..], sep, I)
  {
    TailIsSepJoined(vs, s, sep, I);
    c :| c <= |s| && MatchesSyms(sep, s[..c], I) && Joined(vs, s[c..], sep, I);
  }

  // ---------------------------------------------------------------------------------------------
  // A fixed list of references, separated
  // ---------------------------------------------------------------------------------------------

  function RefList(keys: seq<string>): seq<Sym> {
    if keys == [] then []
    else if |keys| == 1 then [Ref(keys[0])]
    else RefList(keys[..|keys| - 1]) + COMMA + [Ref(keys[|keys| - 1])]
  }

  ghost predicate EachDerives(keys: seq<string>, vs: seq<string>, I: Interp) {
    |vs| == |keys| && forall i :: 0 <= i < |vs| ==> (keys[i], vs[i]) in I
  }

  ghost predicate RefListOf(keys: seq<string>, s: string, I: Interp) {
    exists vs :: EachDerives(keys, vs, I) && Joined(vs, s, COMMA, I)
  }

  lemma {:induction false} RefListMeans(keys: seq<string>, s: string, I: Interp)
    ensures MatchesSyms(RefList(keys), s, I) <==> RefListOf(keys, s, I)
    decreases |keys|
  {
    if keys == [] {
      if s == "" { assert EachDerives(keys, [], I) && Joined([], s, COMMA, I); }
    } else if |keys| == 1 {
      MatchesOne(Ref(keys[0]), s, I);
      OneJoined(keys, s, I);
    } else {
      var front, last := keys[..|keys| - 1], keys[|keys| - 1];
      if MatchesSyms(RefList(keys), s, I) {
        var b := MatchesSplit(RefList(front) + COMMA, [Ref(last)], s, I);
        var a := MatchesSplit(RefList(front), COMMA, s[..b], I);
        assert s[..b][..a] == s[..a] && s[..b][a..] == s[a..b];
        MatchesOne(Ref(last), s[b..], I);
        RefListMeans(front, s[..a], I);
        SnocRef(keys, s, a, b, I);
      }
      if RefListOf(keys, s, I) {
        var a, b := UnsnocRef(keys, s, I);
        RefListMeans(front, s[..a], I);
        assert s[..b][..a] == s[..a] && s[..b][a..] == s[a..b];
        MatchesConcat(RefList(front), COMMA, s[..b], a, I);
        MatchesOne(Ref(last), s[b..], I);
        MatchesConcat(RefList(front) + COMMA, [Ref(last)], s, b, I);
      }
    }
  }

  lemma OneJoined(keys: seq<string>, s: string, I: Interp)
    requires |keys| == 1
    ensures RefListOf(keys, s, I) <==> (keys[0], s) in I
  {
    if (keys[0], s) in I {
      var one: seq<string> := [s];
      assert s[|s|..] == "" && one[1..] == [];
      assert EachDerives(keys, one, I) && Joined(one, s, COMMA, I);
    }
    if vs :| EachDerives(keys, vs, I) && Joined(vs, s, COMMA, I) {
      assert vs[1..] == [] && s == vs[0];
    }
  }

  lemma SnocRef(keys: seq<string>, s: string, a: nat, b: nat, I: Interp)
    requires |keys| >= 2 && a <= b <= |s|
    requires RefListOf(keys[..|keys| - 1], s[..a], I) && MatchesSyms(COMMA, s[a..b], I)
             && (keys[|keys| - 1], s[b..]) in I
    ensures RefListOf(keys, s, I)
  {
    var front := keys[..|keys| - 1];
    var vs :| EachDerives(front, vs, I) && Joined(vs, s[..a], COMMA, I);
    var v := s[b..];
    var one: seq<string> := [v];
    assert v[|v|..] == "" && one[1..] == [];
    assert JoinAt(vs, one, s, a, b, COMMA, I);
    JoinTwo(vs, one, s, a, b, COMMA, I);
    assert EachDerives(keys, vs + one, I);
  }

  lemma UnsnocRef(keys: seq<string>, s: string, I: Interp) returns (a: nat, b: nat)
    requires |keys| >= 2 && RefListOf(keys, s, I)
    ensures a <= b <= |s|
    ensures RefListOf(keys[..|keys| - 1], s[..a], I) && MatchesSyms(COMMA, s[a..b], I)
            && (keys[|keys| - 1], s[b..]) in I
  {
    var n := |keys| - 1;
    var all :| EachDerives(keys, all, I) && Joined(all, s, COMMA, I);
    var vs, v := all[..n], all[n];
    var one: seq<string> := [v];
    assert all == vs + one;
    a, b := SplitTwo(vs, one, s, COMMA, I);
    assert one[1..] == [] && s[b..] == v;
    assert EachDerives(keys[..n], vs, I);
  }

  lemma {:induction false} RefListOk(keys: seq<string>, N: set<string>)
    requires "space" in N && forall i :: 0 <= i < |keys| ==> keys[i] in N
    ensures OkSyms(RefList(keys)) && SymsRefsIn(RefList(keys), N)
    decreases |keys|
  {
    if |keys| >= 2 { RefListOk(keys[..|keys| - 1], N); }
  }

  // ---------------------------------------------------------------------------------------------
  // Optional references in order, the last of them perhaps repeated
  // ---------------------------------------------------------------------------------------------

  /** "," space kv, in parentheses. */
  function CommaRef(kv: string): Sym { Group([Body(COMMA + [Ref(kv)])]) }

  /** ms is derived by some of the names, in order; with star the last name may be used any number of times. */
  ghost predicate Pick(kvs: seq<string>, star: bool, ms: seq<string>, I: Interp)
    decreases |kvs|
  {
    if kvs == [] then ms == []
    else if star && |kvs| == 1 then EachMatches(Ref(kvs[0]), ms, I)
    else
      || Pick(kvs[1..], star, ms, I)
      || (ms != [] && (kvs[0], ms[0]) in I && Pick(kvs[1..], star, ms[1..], I))
  }

  /** ms begins with the first name and goes on with some of the others. */
  ghost predicate PickFirst(kvs: seq<string>, star: bool, ms: seq<string>, I: Interp)
    requires kvs != []
  {
    && ms != [] && (kvs[0], ms[0]) in I
    && Pick(if star && |kvs| == 1 then kvs else kvs[1..], star, ms[1..], I)
  }

  ghost predicate OptTail(kvs: seq<string>, star: bool, s: string, I: Interp) {
    exists ms :: Pick(kvs, star, ms, I) && Tail(ms, s, COMMA, I)
  }

  ghost predicate OptHead(kvs: seq<string>, star: bool, s: string, I: Interp)
    requires kvs != []
  {
    exists ms :: PickFirst(kvs, star, ms, I) && Joined(ms, s, COMMA, I)
  }

  lemma ConsTailAt(ms: seq<string>, s: string, a: nat, b: nat, sep: seq<Sym>, I: Interp)
    requires a <= b <= |s| && MatchesSyms(sep, s[..a], I) && Tail(ms, s[b..], sep, I)
    ensures Tail([s[a..b]] + ms, s, sep, I)
  {
    var all := [s[a..b]] + ms;
    assert all[0] == s[a..b] && all[1..] == ms;
    assert Step(all[0], s, a, b, sep, I);
  }

  /** An optional member and what the rest rule allows. */
  lemma OptionalThenRest(kvs: seq<string>, star: bool, rest: string, s: string, I: Interp)
    requires |kvs| > 1
    requires forall v :: (rest, v) in I <==> OptTail(kvs[1..], star, v, I)
    ensures MatchesSyms([Opt(CommaRef(kvs[0])), Ref(rest)], s, I) <==> OptTail(kvs, star, s, I)
  {
    var x, g := Ref(kvs[0]), CommaRef(kvs[0]);
    var xs := [Opt(g), Ref(rest)];
    assert xs[1..] == [Ref(rest)];
    if MatchesSyms(xs, s, I) {
      var b :| 0 <= b <= |s| && Matches(Opt(g), s[..b], I) && MatchesSyms([Ref(rest)], s[b..], I);
      MatchesOne(Ref(rest), s[b..], I);
      OptMatches(g, s[..b], I);
      OptionalBack(kvs, star, s, b, I);
    }
    if OptTail(kvs, star, s, I) {
      var b := OptionalForth(kvs, star, s, I);
      OptMatches(g, s[..b], I);
      MatchesOne(Ref(rest), s[b..], I);
    }
  }

  lemma OptionalBack(kvs: seq<string>, star: bool, s: string, b: nat, I: Interp)
    requires |kvs| > 1 && b <= |s| && (s[..b] == "" || Matches(CommaRef(kvs[0]), s[..b], I))
             && OptTail(kvs[1..], star, s[b..], I)
    ensures OptTail(kvs, star, s, I)
  {
    var ms :| Pick(kvs[1..], star, ms, I) && Tail(ms, s[b..], COMMA, I);
    if b == 0 {
      assert s[0..] == s;
    } else {
      GroupIsItem(Ref(kvs[0]), COMMA, s, b, I);
      var a: nat :| ItemAt(Ref(kvs[0]), s, a, b, COMMA, I);
      ConsTailAt(ms, s, a, b, COMMA, I);
      var all := [s[a..b]] + ms;
      assert all[0] == s[a..b] && all[1..] == ms;
      assert Pick(kvs, star, all, I);
    }
  }

  lemma OptionalForth(kvs: seq<string>, star: bool, s: string, I: Interp) returns (b: nat)
    requires |kvs| > 1 && OptTail(kvs, star, s, I)
    ensures b <= |s| && (s[..b] == "" || Matches(CommaRef(kvs[0]), s[..b], I)) && OptTail(kvs[1..], star, s[b..], I)
  {
    var ms :| Pick(kvs, star, ms, I) && Tail(ms, s, COMMA, I);
    if Pick(kvs[1..], star, ms, I) {
      b := 0;
      assert s[..0] == "" && s[0..] == s;
    } else {
      var a: nat, e: nat :| Step(ms[0], s, a, e, COMMA, I) && Tail(ms[1..], s[e..], COMMA, I);
      b := e;
      assert ItemAt(Ref(kvs[0]), s, a, b, COMMA, I);
      GroupIsItem(Ref(kvs[0]), COMMA, s, b, I);
    }
  }

  /** The last name: at most once, or any number of times. */
  lemma LastOptional(kv: string, star: bool, s: string, I: Interp)
    ensures MatchesSyms([if star then Star(CommaRef(kv)) else Opt(CommaRef(kv))], s, I) <==> OptTail([kv], star, s, I)
  {
    var g := CommaRef(kv);
    var x := if star then Star(g) else Opt(g);
    MatchesOne(x, s, I);
    if Matches(x, s, I) {
      var k: nat :| RepCount(0, if star then None else Some(1), k) && MatchesTimes(g, k, s, I);
      TimesIsTail(Ref(kv), COMMA, k, s, I);
      var ms :| |ms| == k && EachMatches(Ref(kv), ms, I) && Tail(ms, s, COMMA, I);
      PickOfOne(kv, star, ms, I);
    }
    if OptTail([kv], star, s, I) {
      var ms :| Pick([kv], star, ms, I) && Tail(ms, s, COMMA, I);
      PickOfOne(kv, star, ms, I);
      TimesIsTail(Ref(kv), COMMA, |ms|, s, I);
      assert RepCount(0, if star then None else Some(1), |ms|);
    }
  }

  lemma PickOfOne(kv: string, star: bool, ms: seq<string>, I: Interp)
    ensures Pick([kv], star, ms, I) <==> EachMatches(Ref(kv), ms, I) && (star || |ms| <= 1)
  {
    var kvs: seq<string> := [kv];
    var none: seq<string> := [];
    assert kvs[1..] == none;
    if !star {
      assert Pick(none, star, ms, I) <==> ms == [];
      if ms != [] {
        assert Pick(none, star, ms[1..], I) <==> ms[1..] == [];
        assert Pick(kvs, star, ms, I) <==> (kv, ms[0]) in I && ms[1..] == [];
        if |ms| == 1 { assert Matches(Ref(kv), ms[0], I) <==> (kv, ms[0]) in I; }
      }
    }
  }

  /** A first member and what the rest rule allows. */
  lemma FirstThenRest(kvs: seq<string>, star: bool, rest: string, s: string, I: Interp)
    requires |kvs| > 1
    requires forall v :: (rest, v) in I <==> OptTail(kvs[1..], star, v, I)
    ensures MatchesSyms([Ref(kvs[0]), Ref(rest)], s, I) <==> OptHead(kvs, star, s, I)
  {
    var xs := [Ref(kvs[0]), Ref(rest)];
    assert xs[1..] == [Ref(rest)];
    if MatchesSyms(xs, s, I) {
      var b :| 0 <= b <= |s| && Matches(xs[0], s[..b], I) && MatchesSyms([Ref(rest)], s[b..], I);
      MatchesOne(Ref(rest), s[b..], I);
      HeadBack(kvs, star, s, b, I);
    }
    if OptHead(kvs, star, s, I) {
      var b := HeadForth(kvs, star, s, I);
      MatchesOne(Ref(rest), s[b..], I);
    }
  }

  lemma HeadBack(kvs: seq<string>, star: bool, s: string, b: nat, I: Interp)
    requires kvs != [] && b <= |s| && (kvs[0], s[..b]) in I
    requires OptTail(if star && |kvs| == 1 then kvs else kvs[1..], star, s[b..], I)
    ensures OptHead(kvs, star, s, I)
  {
    var ms :| Pick(if star && |kvs| == 1 then kvs else kvs[1..], star, ms, I) && Tail(ms, s[b..], COMMA, I);
    var all := [s[..b]] + ms;
    assert all[0] == s[..b] && all[1..] == ms;
    assert PickFirst(kvs, star, all, I) && Joined(all, s, COMMA, I);
  }

  lemma HeadForth(kvs: seq<string>, star: bool, s: string, I: Interp) returns (b: nat)
    requires kvs != [] && OptHead(kvs, star, s, I)
    ensures b <= |s| && (kvs[0], s[..b]) in I && OptTail(if star && |kvs| == 1 then kvs else kvs[1..], star, s[b..], I)
  {
    var ms :| PickFirst(kvs, star, ms, I) && Joined(ms, s, COMMA, I);
    b := |ms[0]|;
    assert s[..b] == ms[0];
  }

  lemma LastFirst(kv: string, star: bool, s: string, I: Interp)
    ensures MatchesSyms(if star then [Ref(kv), Star(CommaRef(kv))] else [Ref(kv)], s, I) <==> OptHead([kv], star, s, I)
  {
    if star {
      var xs := [Ref(kv), Star(CommaRef(kv))];
      assert xs[1..] == [Star(CommaRef(kv))];
      if MatchesSyms(xs, s, I) {
        var b :| 0 <= b <= |s| && Matches(xs[0], s[..b], I) && MatchesSyms([Star(CommaRef(kv))], s[b..], I);
        LastOptional(kv, true, s[b..], I);
        HeadBack([kv], true, s, b, I);
      }
      if OptHead([kv], true, s, I) {
        var b := HeadForth([kv], true, s, I);
        LastOptional(kv, true, s[b..], I);
      }
    } else {
      MatchesOne(Ref(kv), s, I);
      assert [kv][1..] == [];
      if (kv, s) in I {
        assert s[..|s|] == s && s[|s|..] == "";
        assert Pick([], false, [], I) && Tail([], "", COMMA, I);
        HeadBack([kv], false, s, |s|, I);
      }
      if OptHead([kv], false, s, I) {
        var b := HeadForth([kv], false, s, I);
        var ms :| Pick([], false, ms, I) && Tail(ms, s[b..], COMMA, I);
        assert s[..b] == s;
      }
    }
  }

  /** A list that is not empty is picked from the names if and only if it begins with one of them and goes on
      with those behind it. */
  lemma {:induction false} PickFromSome(kvs: seq<string>, star: bool, ms: seq<string>, I: Interp)
    requires ms != []
    ensures Pick(kvs, star, ms, I) <==> exists i :: 0 <= i < |kvs| && PickFirst(kvs[i..], star, ms, I)
    decreases |kvs|
  {
    if kvs != [] {
      assert kvs[0..] == kvs;
      if star && |kvs| == 1 {
        assert ms == [ms[0]] + ms[1..];
        assert EachMatches(Ref(kvs[0]), ms, I) <==>
               Matches(Ref(kvs[0]), ms[0], I) && EachMatches(Ref(kvs[0]), ms[1..], I);
      } else {
        PickFromSome(kvs[1..], star, ms, I);
        assert forall i :: 0 <= i < |kvs| - 1 ==> kvs[1..][i..] == kvs[i + 1..];
        if i :| 0 <= i < |kvs| && PickFirst(kvs[i..], star, ms, I) {
          if i > 0 { assert PickFirst(kvs[1..][i - 1..], star, ms, I); }
        }
        if i :| 0 <= i < |kvs[1..]| && PickFirst(kvs[1..][i..], star, ms, I) {
          assert PickFirst(kvs[i + 1..], star, ms, I);
        }
      }
    }
  }

  // ---------------------------------------------------------------------------------------------
  // The inside of an object
  // ---------------------------------------------------------------------------------------------

  /** Required members and then optional ones. */
  ghost predicate ObjectInner(req: seq<string>, opt: seq<string>, star: bool, s: string, I: Interp) {
    exists rs, os :: EachDerives(req, rs, I) && Pick(opt, star, os, I) && Joined(rs + os, s, COMMA, I)
  }

  /** One member at least, picked from the names. */
  ghost predicate SomePicked(opt: seq<string>, star: bool, s: string, I: Interp) {
    exists os :: os != [] && Pick(opt, star, os, I) && Joined(os, s, COMMA, I)
  }

  /** What follows the required members, given the alternatives for the optional ones. */
  function OptionalPart(req: seq<string>, alts: seq<Body>): seq<Sym> {
    if req == [] then [Opt(Group(alts))] else [Opt(Group([Body(COMMA + [Group(alts)])]))]
  }

  /** One alternative for each optional name the members may begin with. */
  lemma SomePickedByHead(opt: seq<string>, star: bool, s: string, I: Interp)
    ensures SomePicked(opt, star, s, I) <==> exists i :: 0 <= i < |opt| && OptHead(opt[i..], star, s, I)
  {
    if SomePicked(opt, star, s, I) {
      var os :| os != [] && Pick(opt, star, os, I) && Joined(os, s, COMMA, I);
      PickFromSome(opt, star, os, I);
    }
    if i :| 0 <= i < |opt| && OptHead(opt[i..], star, s, I) {
      var os :| PickFirst(opt[i..], star, os, I) && Joined(os, s, COMMA, I);
      PickFromSome(opt, star, os, I);
    }
  }

  lemma NothingPicked(opt: seq<string>, star: bool, I: Interp)
    ensures Pick(opt, star, [], I)
    decreases |opt|
  {
    if opt != [] && !(star && |opt| == 1) { NothingPicked(opt[1..], star, I); }
  }

  /** Without required members. */
  lemma InnerNoRequired(opt: seq<string>, star: bool, alts: seq<Body>, s: string, I: Interp)
    requires MatchesAlts(alts, s, I) <==> SomePicked(opt, star, s, I)
    ensures MatchesSyms(OptionalPart([], alts), s, I) <==> ObjectInner([], opt, star, s, I)
  {
    var none: seq<string> := [];
    MatchesOne(Opt(Group(alts)), s, I);
    OptMatches(Group(alts), s, I);
    NothingPicked(opt, star, I);
    if s == "" {
      assert none + none == none;
      assert EachDerives(none, none, I) && Joined(none, s, COMMA, I);
    }
    if SomePicked(opt, star, s, I) {
      var os :| os != [] && Pick(opt, star, os, I) && Joined(os, s, COMMA, I);
      assert none + os == os && EachDerives(none, none, I);
    }
    if ObjectInner(none, opt, star, s, I) {
      var rs, os :| EachDerives(none, rs, I) && Pick(opt, star, os, I) && Joined(rs + os, s, COMMA, I);
      assert rs + os == os;
    }
  }

  /** Only required members. */
  lemma InnerNoOptional(req: seq<string>, s: string, I: Interp)
    ensures MatchesSyms(RefList(req), s, I) <==> ObjectInner(req, [], false, s, I)
  {
    RefListMeans(req, s, I);
    var none: seq<string> := [];
    if RefListOf(req, s, I) {
      var vs :| EachDerives(req, vs, I) && Joined(vs, s, COMMA, I);
      assert vs + none == vs && Pick(none, false, none, I);
    }
    if ObjectInner(req, none, false, s, I) {
      var rs, os :| EachDerives(req, rs, I) && Pick(none, false, os, I) && Joined(rs + os, s, COMMA, I);
      assert rs + os == rs;
    }
  }

  /** Required members, and perhaps a comma and optional ones. */
  lemma InnerBoth(req: seq<string>, opt: seq<string>, star: bool, alts: seq<Body>, s: string, I: Interp)
    requires req != []
    requires forall t :: MatchesAlts(alts, t, I) <==> SomePicked(opt, star, t, I)
    ensures MatchesSyms(RefList(req) + OptionalPart(req, alts), s, I) <==> ObjectInner(req, opt, star, s, I)
  {
    var more := Group([Body(COMMA + [Group(alts)])]);
    if MatchesSyms(RefList(req) + [Opt(more)], s, I) {
      var a := MatchesSplit(RefList(req), [Opt(more)], s, I);
      MatchesOne(Opt(more), s[a..], I);
      OptMatches(more, s[a..], I);
      RefListMeans(req, s[..a], I);
      if s[a..] == "" {
        assert s[..a] == s;
        NothingPicked(opt, star, I);
        InnerOnlyRequired(req, opt, star, s, I);
      } else {
        var b := CommaGroupForth(alts, s, a, I);
        InnerJoin(req, opt, star, s, a, b, I);
      }
    }
    if ObjectInner(req, opt, star, s, I) {
      var a, b := InnerSplit(req, opt, star, s, I);
      RefListMeans(req, s[..a], I);
      if a < |s| { CommaGroupBack(alts, s, a, b, I); }
      OptMatches(more, s[a..], I);
      MatchesOne(Opt(more), s[a..], I);
      MatchesConcat(RefList(req), [Opt(more)], s, a, I);
    }
  }

  lemma InnerOnlyRequired(req: seq<string>, opt: seq<string>, star: bool, s: string, I: Interp)
    requires RefListOf(req, s, I) && Pick(opt, star, [], I)
    ensures ObjectInner(req, opt, star, s, I)
  {
    var vs :| EachDerives(req, vs, I) && Joined(vs, s, COMMA, I);
    var none: seq<string> := [];
    assert vs + none == vs;
  }

  lemma CommaGroupForth(alts: seq<Body>, s: string, a: nat, I: Interp) returns (b: nat)
    requires a <= |s| && Matches(Group([Body(COMMA + [Group(alts)])]), s[a..], I)
    ensures a <= b <= |s| && MatchesSyms(COMMA, s[a..b], I) && MatchesAlts(alts, s[b..], I)
  {
    var t := s[a..];
    MatchesAltsOne(COMMA + [Group(alts)], t, I);
    var m := MatchesSplit(COMMA, [Group(alts)], t, I);
    b := a + m;
    assert t[..m] == s[a..b] && t[m..] == s[b..];
    MatchesOne(Group(alts), t[m..], I);
  }

  lemma CommaGroupBack(alts: seq<Body>, s: string, a: nat, b: nat, I: Interp)
    requires a <= b <= |s| && MatchesSyms(COMMA, s[a..b], I) && MatchesAlts(alts, s[b..], I)
    ensures Matches(Group([Body(COMMA + [Group(alts)])]), s[a..], I)
  {
    var t := s[a..];
    assert t[..b - a] == s[a..b] && t[b - a..] == s[b..];
    MatchesOne(Group(alts), s[b..], I);
    MatchesConcat(COMMA, [Group(alts)], t, b - a, I);
    MatchesAltsOne(COMMA + [Group(alts)], t, I);
  }

  lemma InnerJoin(req: seq<string>, opt: seq<string>, star: bool, s: string, a: nat, b: nat, I: Interp)
    requires req != [] && a <= b <= |s| && RefListOf(req, s[..a], I) && MatchesSyms(COMMA, s[a..b], I)
    requires SomePicked(opt, star, s[b..], I)
    ensures ObjectInner(req, opt, star, s, I)
  {
    var rs :| EachDerives(req, rs, I) && Joined(rs, s[..a], COMMA, I);
    var os :| os != [] && Pick(opt, star, os, I) && Joined(os, s[b..], COMMA, I);
    assert JoinAt(rs, os, s, a, b, COMMA, I);
    JoinTwo(rs, os, s, a, b, COMMA, I);
  }

  lemma InnerSplit(req: seq<string>, opt: seq<string>, star: bool, s: string, I: Interp) returns (a: nat, b: nat)
    requires req != [] && ObjectInner(req, opt, star, s, I)
    ensures a <= |s| && RefListOf(req, s[..a], I)
    ensures a < |s| ==> a <= b <= |s| && MatchesSyms(COMMA, s[a..b], I) && SomePicked(opt, star, s[b..], I)
  {
    var rs, os :| EachDerives(req, rs, I) && Pick(opt, star, os, I) && Joined(rs + os, s, COMMA, I);
    if os == [] {
      assert rs + os == rs;
      a, b := |s|, |s|;
      assert s[..a] == s;
    } else {
      a, b := SplitTwo(rs, os, s, COMMA, I);
    }
  }

  // ---------------------------------------------------------------------------------------------
  // Members
  // ---------------------------------------------------------------------------------------------

  function MemberSyms(name: string, value: string): seq<Sym> { [Lit(Quoted(name)), SP, Lit(":"), SP, Ref(value)] }

  function AdditionalSyms(key: string, value: string): seq<Sym> { [Ref(key), Lit(":"), SP, Ref(value)] }

  /** A colon, white space up to c, and a value. */
  ghost predicate ColonValue(T: Table, m: string, b: nat, c: nat, value: string, I: Interp) {
    b < c <= |m| && m[b] == ':' && Blank(T, m[b + 1..c]) && (value, m[c..]) in I
  }

  /** White space up to i, then more symbols. */
  ghost predicate SpaceUpTo(T: Table, t: string, i: nat, rest: seq<Sym>, I: Interp) {
    i <= |t| && Blank(T, t[..i]) && MatchesSyms(rest, t[i..], I)
  }

  lemma SpaceThen(T: Table, t: string, rest: seq<Sym>, I: Interp)
    requires SpaceOk(T, I)
    ensures MatchesSyms([SP] + rest, t, I) <==> exists i: nat :: SpaceUpTo(T, t, i, rest, I)
  {
    var xs := [SP] + rest;
    assert xs[0] == SP && xs[1..] == rest;
    if MatchesSyms(xs, t, I) {
      var i :| 0 <= i <= |t| && Matches(SP, t[..i], I) && MatchesSyms(xs[1..], t[i..], I);
      assert SpaceUpTo(T, t, i, rest, I);
    }
    if i: nat :| SpaceUpTo(T, t, i, rest, I) {
      assert Matches(SP, t[..i], I);
    }
  }

  lemma ColonThen(T: Table, m: string, b: nat, value: string, I: Interp)
    requires SpaceOk(T, I) && b <= |m|
    ensures MatchesSyms([Lit(":"), SP, Ref(value)], m[b..], I) <==> exists c: nat :: ColonValue(T, m, b, c, value, I)
  {
    var t := m[b..];
    assert [Lit(":")] + ([SP] + [Ref(value)]) == [Lit(":"), SP, Ref(value)];
    LitThen(":", [SP] + [Ref(value)], t, I);
    if t != "" {
      var u := m[b + 1..];
      assert t[..1] == [m[b]] && t[1..] == u;
      SpaceThen(T, u, [Ref(value)], I);
      ColonSlices(T, m, b, u, value, I);
    }
  }

  lemma SliceBehind(m: string, u: string, b: nat, c: nat)
    requires b < c <= |m| && u == m[b + 1..]
    ensures var i := c - b - 1; i <= |u| && u[..i] == m[b + 1..c] && u[i..] == m[c..]
  {
  }

  lemma ColonThere(T: Table, m: string, b: nat, c: nat, u: string, value: string, I: Interp)
    requires b < |m| && u == m[b + 1..] && ColonValue(T, m, b, c, value, I)
    ensures m[b] == ':' && SpaceUpTo(T, u, c - b - 1, [Ref(value)], I)
  {
    SliceBehind(m, u, b, c);
    MatchesOne(Ref(value), m[c..], I);
  }

  lemma ColonFrom(T: Table, m: string, b: nat, c: nat, u: string, value: string, I: Interp)
    requires b < c <= |m| && u == m[b + 1..] && m[b] == ':' && SpaceUpTo(T, u, c - b - 1, [Ref(value)], I)
    ensures ColonValue(T, m, b, c, value, I)
  {
    SliceBehind(m, u, b, c);
    MatchesOne(Ref(value), m[c..], I);
  }

  lemma ColonSlices(T: Table, m: string, b: nat, u: string, value: string, I: Interp)
    requires b < |m| && u == m[b + 1..]
    ensures (exists c: nat :: ColonValue(T, m, b, c, value, I)) <==>
            m[b] == ':' && exists i: nat :: SpaceUpTo(T, u, i, [Ref(value)], I)
  {
    if c: nat :| ColonValue(T, m, b, c, value, I) { ColonThere(T, m, b, c, u, value, I); }
    if m[b] == ':' {
      if i: nat :| SpaceUpTo(T, u, i, [Ref(value)], I) { ColonFrom(T, m, b, b + 1 + i, u, value, I); }
    }
  }

  lemma MemberMeans(T: Table, name: string, value: string, m: string, I: Interp)
    requires SpaceOk(T, I)
    ensures MatchesSyms(MemberSyms(name, value), m, I) <==>
            exists b: nat, c: nat :: KeyColon(T, name, m, b, c) && (value, m[c..]) in I
  {
    var q, rest := Quoted(name), [Lit(":"), SP, Ref(value)];
    assert [Lit(q)] + ([SP] + rest) == MemberSyms(name, value);
    LitThen(q, [SP] + rest, m, I);
    if |q| <= |m| {
      SpaceThen(T, m[|q|..], rest, I);
      if MatchesSyms(MemberSyms(name, value), m, I) {
        var i: nat :| SpaceUpTo(T, m[|q|..], i, rest, I);
        MemberForth(T, name, value, m, i, I);
      }
      if b: nat, c: nat :| KeyColon(T, name, m, b, c) && (value, m[c..]) in I {
        MemberBack(T, name, value, m, b, c, I);
      }
    }
  }

  lemma MemberForth(T: Table, name: string, value: string, m: string, i: nat, I: Interp)
    requires SpaceOk(T, I) && |Quoted(name)| <= |m| && m[..|Quoted(name)|] == Quoted(name)
    requires SpaceUpTo(T, m[|Quoted(name)|..], i, [Lit(":"), SP, Ref(value)], I)
    ensures exists b: nat, c: nat :: KeyColon(T, name, m, b, c) && (value, m[c..]) in I
  {
    var n := |Quoted(name)|;
    var b := n + i;
    assert m[n..][..i] == m[n..b] && m[n..][i..] == m[b..];
    ColonThen(T, m, b, value, I);
    var c: nat :| ColonValue(T, m, b, c, value, I);
    assert KeyColon(T, name, m, b, c);
  }

  lemma MemberBack(T: Table, name: string, value: string, m: string, b: nat, c: nat, I: Interp)
    requires SpaceOk(T, I) && KeyColon(T, name, m, b, c) && (value, m[c..]) in I
    ensures SpaceUpTo(T, m[|Quoted(name)|..], b - |Quoted(name)|, [Lit(":"), SP, Ref(value)], I)
  {
    var n := |Quoted(name)|;
    var t, i := m[n..], b - n;
    assert t[..i] == m[n..b];
    assert t[i..] == m[b..];
    ColonValueMatches(T, name, value, m, b, c, I);
  }

  lemma ColonValueMatches(T: Table, name: string, value: string, m: string, b: nat, c: nat, I: Interp)
    requires SpaceOk(T, I) && KeyColon(T, name, m, b, c) && (value, m[c..]) in I
    ensures MatchesSyms([Lit(":"), SP, Ref(value)], m[b..], I)
  {
    assert ColonValue(T, m, b, c, value, I);
    ColonThen(T, m, b, value, I);
  }

  lemma AdditionalMeans(T: Table, key: string, value: string, m: string, I: Interp)
    requires SpaceOk(T, I)
    ensures MatchesSyms(AdditionalSyms(key, value), m, I) <==>
            exists b: nat, c: nat :: ColonValue(T, m, b, c, value, I) && (key, m[..b]) in I
  {
    var rest := [Lit(":"), SP, Ref(value)];
    var xs := AdditionalSyms(key, value);
    assert xs == [Ref(key)] + rest && xs[1..] == rest;
    if MatchesSyms(xs, m, I) {
      var b :| 0 <= b <= |m| && Matches(xs[0], m[..b], I) && MatchesSyms(rest, m[b..], I);
      ColonThen(T, m, b, value, I);
      var c: nat :| ColonValue(T, m, b, c, value, I);
    }
    if b: nat, c: nat :| ColonValue(T, m, b, c, value, I) && (key, m[..b]) in I {
      ColonThen(T, m, b, value, I);
      assert Matches(xs[0], m[..b], I);
    }
  }

  // ---------------------------------------------------------------------------------------------
  // From rule names to properties
  // ---------------------------------------------------------------------------------------------

  /** The rule names of the required properties from i on. */
  function RequiredKvs(sc: Schema, kvs: seq<string>, i: nat): seq<string>
    requires sc.Object? && |kvs| == |sc.props| && i <= |kvs|
    decreases |kvs| - i
  {
    if i == |kvs| then []
    else if sc.props[i].name in sc.required then [kvs[i]] + RequiredKvs(sc, kvs, i + 1)
    else RequiredKvs(sc, kvs, i + 1)
  }

  /** The rule names of the other properties from i on, and those in `more`. */
  function OptionalKvs(sc: Schema, kvs: seq<string>, i: nat, more: seq<string>): seq<string>
    requires sc.Object? && |kvs| == |sc.props| && i <= |kvs|
    decreases |kvs| - i
  {
    if i == |kvs| then more
    else if sc.props[i].name in sc.required then OptionalKvs(sc, kvs, i + 1, more)
    else [kvs[i]] + OptionalKvs(sc, kvs, i + 1, more)
  }

  ghost predicate KvsMean(T: Table, sc: Schema, kvs: seq<string>, I: Interp)
    requires sc.Object?
  {
    |kvs| == |sc.props| && forall j, m :: 0 <= j < |kvs| ==> ((kvs[j], m) in I <==> Member(T, Emitting(I), sc, j, m))
  }

  ghost predicate MoreMeans(T: Table, sc: Schema, more: seq<string>, I: Interp)
    requires sc.Object?
  {
    && (sc.additional.NoMore? <==> more == [])
    && (more != [] ==> |more| == 1 && forall m :: (more[0], m) in I <==> AdditionalMember(T, Emitting(I), sc, m))
  }

  lemma {:induction false} RequiredIs(T: Table, sc: Schema, kvs: seq<string>, i: nat, ms: seq<string>, I: Interp)
    requires sc.Object? && KvsMean(T, sc, kvs, I) && i <= |kvs|
    ensures EachDerives(RequiredKvs(sc, kvs, i), ms, I) <==> RequiredMembers(T, Emitting(I), sc, i, ms)
    decreases |kvs| - i
  {
    if i < |kvs| {
      if sc.props[i].name in sc.required {
        var rest := RequiredKvs(sc, kvs, i + 1);
        if ms != [] {
          RequiredIs(T, sc, kvs, i + 1, ms[1..], I);
          assert EachDerives([kvs[i]] + rest, ms, I) <==> (kvs[i], ms[0]) in I && EachDerives(rest, ms[1..], I) by {
            DerivesCons(kvs[i], rest, ms, I);
          }
        }
      } else {
        RequiredIs(T, sc, kvs, i + 1, ms, I);
      }
    }
  }

  lemma DerivesCons(k: string, rest: seq<string>, ms: seq<string>, I: Interp)
    requires ms != []
    ensures EachDerives([k] + rest, ms, I) <==> (k, ms[0]) in I && EachDerives(rest, ms[1..], I)
  {
    var all := [k] + rest;
    assert all[1..] == rest && all[0] == k;
    assert forall j :: 0 <= j < |rest| ==> rest[j] == all[j + 1];
    if EachDerives(rest, ms[1..], I) && (k, ms[0]) in I {
      forall j | 0 <= j < |ms| ensures (all[j], ms[j]) in I { if j > 0 { assert ms[1..][j - 1] == ms[j]; } }
    }
  }

  lemma {:induction false} OptionalIs(T: Table, sc: Schema, kvs: seq<string>, more: seq<string>, i: nat,
                                      ms: seq<string>, I: Interp)
    requires sc.Object? && KvsMean(T, sc, kvs, I) && MoreMeans(T, sc, more, I) && i <= |kvs|
    ensures Pick(OptionalKvs(sc, kvs, i, more), more != [], ms, I) <==> OptionalMembers(T, Emitting(I), sc, i, ms)
    decreases |kvs| - i
  {
    if i == |kvs| {
      if more != [] {
        assert EachMatches(Ref(more[0]), ms, I) <==>
               forall j :: 0 <= j < |ms| ==> AdditionalMember(T, Emitting(I), sc, ms[j]);
      }
    } else if sc.props[i].name in sc.required {
      OptionalIs(T, sc, kvs, more, i + 1, ms, I);
    } else {
      var rest := OptionalKvs(sc, kvs, i + 1, more);
      KeepsMore(sc, kvs, i + 1, more);
      OptionalIs(T, sc, kvs, more, i + 1, ms, I);
      if ms != [] { OptionalIs(T, sc, kvs, more, i + 1, ms[1..], I); }
      var all := [kvs[i]] + rest;
      assert all[0] == kvs[i] && all[1..] == rest;
    }
  }

  lemma {:induction false} KeepsMore(sc: Schema, kvs: seq<string>, i: nat, more: seq<string>)
    requires sc.Object? && |kvs| == |sc.props| && i <= |kvs|
    ensures |OptionalKvs(sc, kvs, i, more)| >= |more|
    decreases |kvs| - i
  {
    if i < |kvs| { KeepsMore(sc, kvs, i + 1, more); }
  }

  /** The members of an object, said of rule names and of properties. */
  lemma InnerIsMembers(T: Table, sc: Schema, kvs: seq<string>, more: seq<string>, s: string, I: Interp)
    requires sc.Object? && KvsMean(T, sc, kvs, I) && MoreMeans(T, sc, more, I) && SpaceOk(T, I)
    ensures ObjectInner(RequiredKvs(sc, kvs, 0), OptionalKvs(sc, kvs, 0, more), more != [], s, I) <==>
            ObjectMembers(T, Emitting(I), sc, s)
  {
    var req, opt, star := RequiredKvs(sc, kvs, 0), OptionalKvs(sc, kvs, 0, more), more != [];
    if ObjectInner(req, opt, star, s, I) {
      var rs, os :| EachDerives(req, rs, I) && Pick(opt, star, os, I) && Joined(rs + os, s, COMMA, I);
      RequiredIs(T, sc, kvs, 0, rs, I);
      OptionalIs(T, sc, kvs, more, 0, os, I);
      JoinedSame(T, rs + os, s, I);
    }
    if ObjectMembers(T, Emitting(I), sc, s) {
      var rs, os :| RequiredMembers(T, Emitting(I), sc, 0, rs) && OptionalMembers(T, Emitting(I), sc, 0, os)
          && Joined(rs + os, s, COMMA, Builtin(T));
      RequiredIs(T, sc, kvs, 0, rs, I);
      OptionalIs(T, sc, kvs, more, 0, os, I);
      JoinedSame(T, rs + os, s, I);
    }
  }

  // ---------------------------------------------------------------------------------------------
  // The same names under two interpretations
  // ---------------------------------------------------------------------------------------------

  predicate NamesIn(kvs: seq<string>, N: set<string>) { forall i :: 0 <= i < |kvs| ==> kvs[i] in N }

  lemma {:induction false} PickAgree(kvs: seq<string>, star: bool, ms: seq<string>, I: Interp, J: Interp,
                                     N: set<string>)
    requires NamesIn(kvs, N) && AgreeOn(I, J, N)
    ensures Pick(kvs, star, ms, I) <==> Pick(kvs, star, ms, J)
    decreases |kvs|
  {
    if kvs == [] {
    } else if star && |kvs| == 1 {
      forall i | 0 <= i < |ms| ensures Matches(Ref(kvs[0]), ms[i], I) <==> Matches(Ref(kvs[0]), ms[i], J) {
        assert (kvs[0], ms[i]) in I <==> (kvs[0], ms[i]) in J;
      }
    } else {
      PickAgree(kvs[1..], star, ms, I, J, N);
      if ms != [] {
        PickAgree(kvs[1..], star, ms[1..], I, J, N);
        assert (kvs[0], ms[0]) in I <==> (kvs[0], ms[0]) in J;
      }
    }
  }

  lemma TailAgree(T: Table, ms: seq<string>, s: string, I: Interp, J: Interp)
    requires SpaceOk(T, I) && SpaceOk(T, J)
    ensures Tail(ms, s, COMMA, I) <==> Tail(ms, s, COMMA, J)
    ensures Joined(ms, s, COMMA, I) <==> Joined(ms, s, COMMA, J)
  {
    if Tail(ms, s, COMMA, I) { TailSame(T, ms, s, I, J); }
    if Tail(ms, s, COMMA, J) { TailSame(T, ms, s, J, I); }
    JoinedSame(T, ms, s, I);
    JoinedSame(T, ms, s, J);
  }

  lemma OptTailAgree(T: Table, kvs: seq<string>, star: bool, s: string, I: Interp, J: Interp, N: set<string>)
    requires NamesIn(kvs, N) && AgreeOn(I, J, N) && SpaceOk(T, I) && SpaceOk(T, J)
    ensures OptTail(kvs, star, s, I) <==> OptTail(kvs, star, s, J)
  {
    forall ms
      ensures Pick(kvs, star, ms, I) <==> Pick(kvs, star, ms, J)
      ensures Tail(ms, s, COMMA, I) <==> Tail(ms, s, COMMA, J)
    {
      PickAgree(kvs, star, ms, I, J, N);
      TailAgree(T, ms, s, I, J);
    }
  }

  lemma OptHeadAgree(T: Table, kvs: seq<string>, star: bool, s: string, I: Interp, J: Interp, N: set<string>)
    requires kvs != [] && NamesIn(kvs, N) && AgreeOn(I, J, N) && SpaceOk(T, I) && SpaceOk(T, J)
    ensures OptHead(kvs, star, s, I) <==> OptHead(kvs, star, s, J)
  {
    var others := if star && |kvs| == 1 then kvs else kvs[1..];
    forall ms
      ensures PickFirst(kvs, star, ms, I) <==> PickFirst(kvs, star, ms, J)
      ensures Joined(ms, s, COMMA, I) <==> Joined(ms, s, COMMA, J)
    {
      if ms != [] {
        PickAgree(others, star, ms[1..], I, J, N);
        assert (kvs[0], ms[0]) in I <==> (kvs[0], ms[0]) in J;
      }
      TailAgree(T, ms, s, I, J);
    }
  }

  /** The members may begin with one of the first n names. */
  ghost predicate HeadsUpTo(kvs: seq<string>, star: bool, n: nat, s: string, I: Interp)
    requires n <= |kvs|
  {
    exists i :: 0 <= i < n && OptHead(kvs[i..], star, s, I)
  }

  lemma HeadsAgree(T: Table, kvs: seq<string>, star: bool, n: nat, s: string, I: Interp, J: Interp, N: set<string>)
    requires n <= |kvs| && NamesIn(kvs, N) && AgreeOn(I, J, N) && SpaceOk(T, I) && SpaceOk(T, J)
    ensures HeadsUpTo(kvs, star, n, s, I) <==> HeadsUpTo(kvs, star, n, s, J)
  {
    forall i | 0 <= i < n ensures OptHead(kvs[i..], star, s, I) <==> OptHead(kvs[i..], star, s, J) {
      OptHeadAgree(T, kvs[i..], star, s, I, J, N);
    }
  }
}
