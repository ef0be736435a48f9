/** Keys other than the listed ones: the trie of `_not_strings` and the grammar written from it. */
module NotStrings {
  import opened Options
  import opened Gbnf
  import opened Rules
  import opened Symbols
  import opened KeyClasses
  import opened IntRange

  // ---------------------------------------------------------------------------------------------
  // The trie
  // ---------------------------------------------------------------------------------------------

  /** A node owns its children, so the trie is a value; `Insert` is the walk that creates missing nodes. */
  datatype Trie = Trie(children: map<char, Trie>, isEnd: bool)

  const EMPTY: Trie := Trie(map[], false)

  function Insert(t: Trie, w: string): Trie
    decreases |w|
  {
    if w == "" then t.(isEnd := true)
    else
      var child := if w[0] in t.children then t.children[w[0]] else EMPTY;
      t.(children := t.children[w[0] := Insert(child, w[1..])])
  }

  function TrieOf(names: seq<string>): Trie {
    if names == [] then EMPTY else Insert(TrieOf(names[..|names| - 1]), names[|names| - 1])
  }

  predicate HasPath(t: Trie, w: string)
    decreases |w|
  {
    w == "" || (w[0] in t.children && HasPath(t.children[w[0]], w[1..]))
  }

  function NodeAt(t: Trie, w: string): Trie
    requires HasPath(t, w)
    decreases |w|
  {
    if w == "" then t else NodeAt(t.children[w[0]], w[1..])
  }

  /** Leaves below the root are ends of names. */
  predicate LeavesEnd(t: Trie) {
    forall c :: c in t.children ==>
      (t.children[c].children == map[] ==> t.children[c].isEnd) && LeavesEnd(t.children[c])
  }

  predicate PlainTrie(t: Trie) {
    forall c :: c in t.children ==> IsPlain(c) && PlainTrie(t.children[c])
  }

  lemma {:induction false} InsertPath(t: Trie, w: string, v: string)
    ensures HasPath(Insert(t, w), v) <==> HasPath(t, v) || v <= w
    decreases |w|
  {
    if w != "" && v != "" {
      var child := if w[0] in t.children then t.children[w[0]] else EMPTY;
      if v[0] == w[0] {
        InsertPath(child, w[1..], v[1..]);
        assert v <= w <==> v[1..] <= w[1..] by { PrefixTail(v, w); }
        if w[0] !in t.children { assert HasPath(EMPTY, v[1..]) <==> v[1..] == ""; }
      }
    }
  }

  lemma PrefixTail(v: string, w: string)
    requires v != "" && w != "" && v[0] == w[0]
    ensures v <= w <==> v[1..] <= w[1..]
  {
    assert v == [v[0]] + v[1..] && w == [w[0]] + w[1..];
  }

  lemma {:induction false} InsertEnd(t: Trie, w: string, v: string)
    requires HasPath(Insert(t, w), v)
    ensures NodeAt(Insert(t, w), v).isEnd <==> v == w || (HasPath(t, v) && NodeAt(t, v).isEnd)
    decreases |w|
  {
    if w != "" && v != "" && v[0] == w[0] {
      var child := if w[0] in t.children then t.children[w[0]] else EMPTY;
      InsertEnd(child, w[1..], v[1..]);
      assert v == [v[0]] + v[1..] && w == [w[0]] + w[1..];
    }
  }

  lemma {:induction false} InsertShape(t: Trie, w: string)
    requires LeavesEnd(t)
    ensures LeavesEnd(Insert(t, w))
    ensures w != "" ==> Insert(t, w).children != map[]
    ensures w == "" ==> Insert(t, w).isEnd
    ensures PlainTrie(t) && PlainText(w) ==> PlainTrie(Insert(t, w))
    decreases |w|
  {
    if w != "" {
      var child := if w[0] in t.children then t.children[w[0]] else EMPTY;
      InsertShape(child, w[1..]);
      assert w[0] in Insert(t, w).children;
    }
  }

  /** The trie of a list of names: its paths are the prefixes of names, its ends the names. */
  lemma {:induction false} TrieOfNames(names: seq<string>, v: string)
    ensures HasPath(TrieOf(names), v) <==> v == "" || exists w :: w in names && v <= w
    ensures HasPath(TrieOf(names), v) ==> (NodeAt(TrieOf(names), v).isEnd <==> v in names)
    decreases |names|
  {
    if names != [] {
      var front, last := names[..|names| - 1], names[|names| - 1];
      assert names == front + [last];
      TrieOfNames(front, v);
      InsertPath(TrieOf(front), last, v);
      if HasPath(TrieOf(names), v) { InsertEnd(TrieOf(front), last, v); }
      assert last in names && forall w :: w in names <==> w in front || w == last;
    }
  }

  lemma {:induction false} TrieOfShape(names: seq<string>)
    ensures LeavesEnd(TrieOf(names))
    ensures (forall w :: w in names ==> PlainText(w)) ==> PlainTrie(TrieOf(names))
    decreases |names|
  {
    if names != [] {
      TrieOfShape(names[..|names| - 1]);
      InsertShape(TrieOf(names[..|names| - 1]), names[|names| - 1]);
    }
  }

  // ---------------------------------------------------------------------------------------------
  // What a node accepts
  // ---------------------------------------------------------------------------------------------

  /** s is a sequence of JSON string characters, as the given rule defines them. */
  ghost predicate Chars(s: string, charRule: string, I: Interp) {
    exists k: nat :: MatchesTimes(Ref(charRule), k, s, I)
  }

  ghost predicate SomeChars(s: string, charRule: string, I: Interp) {
    exists k: nat :: k >= 1 && MatchesTimes(Ref(charRule), k, s, I)
  }

  /** What may follow a child: more of the trie, or at a leaf at least one more character. */
  ghost predicate AfterChild(child: Trie, s: string, charRule: string, I: Interp)
    decreases child, 1
  {
    if child.children != map[] then Leaves(child, s, charRule, I) else SomeChars(s, charRule, I)
  }

  /** s leaves the trie below node t: following it, one ends neither in the trie nor at a leaf. */
  ghost predicate Leaves(t: Trie, s: string, charRule: string, I: Interp)
    decreases t, 0
  {
    s != "" &&
    if s[0] in t.children then AfterChild(t.children[s[0]], s[1..], charRule, I)
    else s[0] != '"' && Chars(s[1..], charRule, I)
  }

  /** The same for the grammar written from the trie, as it reads: a dash in the class of a node may exclude more. */
  ghost predicate FollowsChild(child: Trie, s: string, charRule: string, I: Interp)
    decreases child, 1
  {
    if child.children != map[] then Passes(child, s, charRule, I) else SomeChars(s, charRule, I)
  }

  ghost predicate Passes(t: Trie, s: string, charRule: string, I: Interp)
    decreases t, 0
  {
    s != "" &&
    if s[0] in t.children then FollowsChild(t.children[s[0]], s[1..], charRule, I)
    else !Excluded(t.children.Keys, s[0]) && Chars(s[1..], charRule, I)
  }

  /** At no node a dash stands beside a greater character, unless its neighbours in ASCII are children as well. */
  predicate DashSafeTrie(t: Trie) {
    DashSafe(t.children.Keys) && forall c :: c in t.children ==> DashSafeTrie(t.children[c])
  }

  /** Whatever more the classes exclude: what passes leaves the trie. */
  lemma {:induction false} PassesLeaves(t: Trie, s: string, charRule: string, I: Interp)
    requires Passes(t, s, charRule, I)
    ensures Leaves(t, s, charRule, I)
    decreases t
  {
    if s[0] in t.children && t.children[s[0]].children != map[] {
      PassesLeaves(t.children[s[0]], s[1..], charRule, I);
    }
  }

  lemma {:induction false} SafePasses(t: Trie, s: string, charRule: string, I: Interp)
    requires DashSafeTrie(t)
    ensures Passes(t, s, charRule, I) <==> Leaves(t, s, charRule, I)
    decreases t
  {
    if s != "" {
      var c := s[0];
      if c in t.children {
        if t.children[c].children != map[] { SafePasses(t.children[c], s[1..], charRule, I); }
      } else if InDashRange(t.children.Keys, c) {
        SafeDash(t.children.Keys, c);
      }
    }
  }

  /** A text that should pass and does not, whatever the character rule means. */
  lemma {:induction false} UnsafeBlocks(t: Trie) returns (s: string)
    requires !DashSafeTrie(t) && PlainTrie(t)
    ensures t.children != map[] && PlainText(s)
    ensures forall charRule, I :: Leaves(t, s, charRule, I) && !Passes(t, s, charRule, I)
    decreases t
  {
    if !DashSafe(t.children.Keys) {
      var d := UnsafeDash(t.children.Keys);
      s := [d];
      assert s[1..] == "";
      assert t.children.Keys != {};
      forall charRule, I ensures Leaves(t, s, charRule, I) && !Passes(t, s, charRule, I) {
        assert MatchesTimes(Ref(charRule), 0, "", I);
        assert Chars("", charRule, I);
      }
    } else {
      var c :| c in t.children && !DashSafeTrie(t.children[c]);
      var rest := UnsafeBlocks(t.children[c]);
      s := [c] + rest;
      assert s[0] == c && s[1..] == rest;
      forall charRule, I ensures Leaves(t, s, charRule, I) && !Passes(t, s, charRule, I) {
        assert Leaves(t.children[c], rest, charRule, I) && !Passes(t.children[c], rest, charRule, I);
      }
    }
  }

  lemma StarChars(s: string, charRule: string, I: Interp)
    ensures MatchesSyms([Star(Ref(charRule))], s, I) <==> Chars(s, charRule, I)
    ensures MatchesSyms([Rep(Ref(charRule), 1, None)], s, I) <==> SomeChars(s, charRule, I)
  {
    MatchesOne(Star(Ref(charRule)), s, I);
    MatchesOne(Rep(Ref(charRule), 1, None), s, I);
    if Chars(s, charRule, I) {
      var k: nat :| MatchesTimes(Ref(charRule), k, s, I);
      assert RepCount(0, None, k);
    }
    if SomeChars(s, charRule, I) {
      var k: nat :| k >= 1 && MatchesTimes(Ref(charRule), k, s, I);
      assert RepCount(1, None, k);
    }
  }

  // ---------------------------------------------------------------------------------------------
  // The grammar of a node
  // ---------------------------------------------------------------------------------------------

  lemma PlainCharClass(c: char, d: char)
    requires IsPlain(c)
    ensures Ok(Class([c])) && (InClass([c], d) <==> d == c)
  {
    assert ReadChar([c]) == Some((c, 1)) && [c][1..] == "";
    assert [(c, c)] + [] == [(c, c)];
    assert ReadRanges([c]) == Some([(c, c)]);
    OneRange(c, c, d);
  }

  /** The alternatives written so far: one for each child in `done`. */
  ghost predicate PassesVia(t: Trie, done: set<char>, s: string, charRule: string, I: Interp) {
    s != "" && s[0] in done && s[0] in t.children && FollowsChild(t.children[s[0]], s[1..], charRule, I)
  }

  /** The alternatives accept exactly what leaves through the children in `done`. */
  ghost predicate AltsPassVia(alts: seq<Body>, t: Trie, done: set<char>, charRule: string) {
    forall s, I :: MatchesAlts(alts, s, I) <==> PassesVia(t, done, s, charRule, I)
  }

  /** The symbols accept exactly the character c and what may follow its child. */
  ghost predicate SymsPassBy(ys: seq<Sym>, c: char, child: Trie, charRule: string) {
    forall s, I :: MatchesSyms(ys, s, I) <==> s != "" && s[0] == c && FollowsChild(child, s[1..], charRule, I)
  }

  method VisitTrie(t: Trie, charRule: string, out: Text<Tok>) returns (ghost alts: seq<Body>)
    requires LeavesEnd(t) && PlainTrie(t) && t.children != map[]
    modifies out
    ensures out.toks == old(out.toks) + ShowAlts(alts) && OkAlts(alts) && AltsRefsIn(alts, {charRule})
    ensures forall s, I :: MatchesAlts(alts, s, I) <==> Passes(t, s, charRule, I)
    decreases t, 1
  {
    ghost var base := out.toks;
    var rejects := "";
    var keys := t.children.Keys;
    alts := [];
    while keys != {}
      invariant keys <= t.children.Keys
      invariant PlainText(rejects) && Ascending(rejects) && CharSetOf(rejects) == t.children.Keys - keys
      invariant forall i, c :: 0 <= i < |rejects| && c in keys ==> rejects[i] < c
      invariant alts == [] || OkAlts(alts)
      invariant AltsRefsIn(alts, {charRule})
      invariant alts != [] <==> keys != t.children.Keys
      invariant out.toks == base + ShowAlts(alts)
      invariant AltsPassVia(alts, t, t.children.Keys - keys, charRule)
      decreases keys
    {
      HasLeast(keys);
      var c :| IsLeast(keys, c);
      OneMoreReject(rejects, t.children.Keys, keys, c);
      rejects := rejects + [c];
      alts := VisitNext(t, c, keys != t.children.Keys, t.children.Keys - keys, charRule, out, base, alts);
      keys := keys - {c};
    }
    out.Write([TBar, TClass(['^', '"'] + rejects), TRef(charRule), TRep(0, None)]);
    alts := LastBranch(t, charRule, rejects, base, alts);
  }

  lemma OneMoreReject(rejects: string, all: set<char>, keys: set<char>, c: char)
    requires keys <= all && IsLeast(keys, c) && Ascending(rejects) && CharSetOf(rejects) == all - keys
    requires forall i, d :: 0 <= i < |rejects| && d in keys ==> rejects[i] < d
    ensures Ascending(rejects + [c]) && CharSetOf(rejects + [c]) == all - (keys - {c})
    ensures forall i, d :: 0 <= i < |rejects + [c]| && d in keys - {c} ==> (rejects + [c])[i] < d
  {
    var r := rejects + [c];
    forall d ensures d in CharSetOf(r) <==> d in CharSetOf(rejects) || d == c {
      if d in CharSetOf(rejects) {
        var i :| 0 <= i < |rejects| && rejects[i] == d;
        assert r[i] == d;
      }
      assert r[|rejects|] == c;
    }
  }

  /** One alternative for a child, behind those written so far. */
  method VisitNext(t: Trie, c: char, more: bool, ghost done: set<char>, charRule: string, out: Text<Tok>,
                   ghost base: seq<Tok>, ghost before: seq<Body>)
    returns (ghost alts: seq<Body>)
    requires LeavesEnd(t) && PlainTrie(t) && c in t.children && c !in done && more == (before != [])
    requires (before == [] || OkAlts(before)) && AltsRefsIn(before, {charRule}) && out.toks == base + ShowAlts(before)
    requires AltsPassVia(before, t, done, charRule)
    modifies out
    ensures alts != [] && OkAlts(alts) && AltsRefsIn(alts, {charRule}) && out.toks == base + ShowAlts(alts)
    ensures AltsPassVia(alts, t, done + {c}, charRule)
    decreases t, 0
  {
    BarBefore(base, before);
    if more {
      out.Write([TBar]);
    }
    ghost var ys := VisitChild(c, t.children[c], charRule, out);
    alts := Branch(base, before, ys);
    AddChild(t, done, c, charRule, before, ys);
  }

  lemma BarBefore(base: seq<Tok>, before: seq<Body>)
    ensures base + ShowAlts(before) + [TBar] == base + (ShowAlts(before) + [TBar])
    ensures before == [] ==> base + ShowAlts(before) == base + Barred(before)
    ensures before != [] ==> base + ShowAlts(before) + [TBar] == base + Barred(before)
  {
  }

  method VisitChild(c: char, child: Trie, charRule: string, out: Text<Tok>) returns (ghost ys: seq<Sym>)
    requires IsPlain(c) && LeavesEnd(child) && PlainTrie(child) && (child.children == map[] ==> child.isEnd)
    modifies out
    ensures out.toks == old(out.toks) + ShowSyms(ys) && OkSyms(ys) && SymsRefsIn(ys, {charRule})
    ensures SymsPassBy(ys, c, child, charRule)
    decreases child, 2
  {
    ghost var base := out.toks;
    out.Write([TClass([c])]);
    if child.children != map[] {
      out.Write([TOpen]);
      ghost var inner := VisitTrie(child, charRule, out);
      out.Write([TClose]);
      InnerTail(inner, child, charRule);
      ys := ChildSymbols(c, Group(inner), child, charRule, base);
    } else if child.isEnd {
      out.Write([TRef(charRule), TRep(1, None)]);
      LeafTail(child, charRule);
      ys := ChildSymbols(c, Rep(Ref(charRule), 1, None), child, charRule, base);
    }
  }

  /** The symbols after a child's character accept what may follow that child. */
  ghost predicate TailFollows(tail: Sym, child: Trie, charRule: string) {
    forall s, I :: Matches(tail, s, I) <==> FollowsChild(child, s, charRule, I)
  }

  lemma InnerTail(inner: seq<Body>, child: Trie, charRule: string)
    requires child.children != map[]
    requires forall s, I :: MatchesAlts(inner, s, I) <==> Passes(child, s, charRule, I)
    ensures TailFollows(Group(inner), child, charRule)
  {
    forall s, I ensures Matches(Group(inner), s, I) <==> FollowsChild(child, s, charRule, I) {
      assert FollowsChild(child, s, charRule, I) <==> Passes(child, s, charRule, I);
      assert Matches(Group(inner), s, I) <==> MatchesAlts(inner, s, I);
    }
  }

  lemma LeafTail(child: Trie, charRule: string)
    requires child.children == map[]
    ensures TailFollows(Rep(Ref(charRule), 1, None), child, charRule)
  {
    var tail := Rep(Ref(charRule), 1, None);
    forall s, I ensures Matches(tail, s, I) <==> FollowsChild(child, s, charRule, I) {
      MatchesOne(tail, s, I);
      StarChars(s, charRule, I);
    }
  }

  lemma ChildSymbols(c: char, tail: Sym, child: Trie, charRule: string, base: seq<Tok>) returns (ys: seq<Sym>)
    requires IsPlain(c) && Ok(tail) && RefsIn(tail, {charRule}) && TailFollows(tail, child, charRule)
    ensures OkSyms(ys) && SymsRefsIn(ys, {charRule})
    ensures base + [TClass([c])] + Show(tail) == base + ShowSyms(ys)
    ensures SymsPassBy(ys, c, child, charRule)
  {
    var x := Class([c]);
    ys := [x] + [tail];
    PlainCharClass(c, c);
    assert [x] + [tail] == [x, tail];
    ShowTwo(x, tail);
    assert base + [TClass([c])] + Show(tail) == base + ([TClass([c])] + Show(tail));
    forall s, I
      ensures MatchesSyms(ys, s, I) <==> s != "" && s[0] == c && FollowsChild(child, s[1..], charRule, I)
    {
      ClassThen([c], [tail], s, I);
      if s != "" {
        PlainCharClass(c, s[0]);
        MatchesOne(tail, s[1..], I);
      }
    }
  }

  lemma AddChild(t: Trie, done: set<char>, c: char, charRule: string, alts: seq<Body>, ys: seq<Sym>)
    requires c in t.children && c !in done
    requires AltsRefsIn(alts, {charRule}) && SymsRefsIn(ys, {charRule})
    requires AltsPassVia(alts, t, done, charRule)
    requires SymsPassBy(ys, c, t.children[c], charRule)
    ensures AltsRefsIn(alts + [Body(ys)], {charRule})
    ensures AltsPassVia(alts + [Body(ys)], t, done + {c}, charRule)
  {
    forall s, I
      ensures MatchesAlts(alts + [Body(ys)], s, I) <==> PassesVia(t, done + {c}, s, charRule, I)
    {
      MatchesAltsConcat(alts, [Body(ys)], s, I);
      MatchesAltsOne(ys, s, I);
    }
  }

  /** The branch for characters that start no child. */
  lemma LastBranch(t: Trie, charRule: string, rejects: string, base: seq<Tok>, alts: seq<Body>)
    returns (more: seq<Body>)
    requires PlainText(rejects) && Ascending(rejects) && CharSetOf(rejects) == t.children.Keys
    requires alts != [] && OkAlts(alts) && AltsRefsIn(alts, {charRule})
    requires AltsPassVia(alts, t, t.children.Keys, charRule)
    ensures OkAlts(more) && AltsRefsIn(more, {charRule})
    ensures base + ShowAlts(alts) + [TBar, TClass(['^', '"'] + rejects), TRef(charRule), TRep(0, None)] ==
            base + ShowAlts(more)
    ensures forall s, I :: MatchesAlts(more, s, I) <==> Passes(t, s, charRule, I)
  {
    var x, y := Class(['^', '"'] + rejects), Star(Ref(charRule));
    RejectClass(rejects, t.children.Keys, 'a');
    ShowTwo(x, y);
    assert SymsRefsIn([x, y], {charRule});
    more := Branch(base, alts, [x, y]);
    EndingText(base, alts, x, y, charRule);
    forall s, I
      ensures MatchesAlts(more, s, I) <==> Passes(t, s, charRule, I)
    {
      MatchesAltsConcat(alts, [Body([x, y])], s, I);
      MatchesAltsOne([x, y], s, I);
      RejectThenChars(rejects, t.children.Keys, x, y, charRule, s, I);
    }
  }

  lemma EndingText(base: seq<Tok>, alts: seq<Body>, x: Sym, y: Sym, charRule: string)
    requires alts != [] && x.Class? && y == Star(Ref(charRule))
    ensures base + ShowAlts(alts) + [TBar, TClass(x.body), TRef(charRule), TRep(0, None)]
         == base + Barred(alts) + ShowSyms([x, y])
  {
    ShowTwo(x, y);
    var a, b := ShowAlts(alts), [TClass(x.body), TRef(charRule), TRep(0, None)];
    assert ShowSyms([x, y]) == b;
    assert [TBar] + b == [TBar, TClass(x.body), TRef(charRule), TRep(0, None)];
    assert base + a + ([TBar] + b) == base + (a + [TBar]) + b;
  }

  lemma RejectThenChars(rejects: string, S: set<char>, x: Sym, y: Sym, charRule: string, s: string, I: Interp)
    requires PlainText(rejects) && Ascending(rejects) && S == CharSetOf(rejects)
    requires x == Class(['^', '"'] + rejects) && y == Star(Ref(charRule))
    ensures MatchesSyms([x, y], s, I) <==> s != "" && !Excluded(S, s[0]) && Chars(s[1..], charRule, I)
  {
    assert [x, y] == [x] + [y];
    ClassThen(x.body, [y], s, I);
    if s != "" {
      RejectClass(rejects, S, s[0]);
      StarChars(s[1..], charRule, I);
    }
  }

  // ---------------------------------------------------------------------------------------------
  // The same language, said of the names themselves
  // ---------------------------------------------------------------------------------------------

  predicate BeginsName(names: seq<string>, v: string) { exists w :: w in names && v <= w }

  predicate HasLonger(names: seq<string>, v: string) { exists w :: w in names && v < w }

  /** Read behind prefix p, s leaves the names after k characters with one that no name has there. */
  ghost predicate DivergesAt(names: seq<string>, p: string, s: string, k: nat, charRule: string, I: Interp) {
    && k < |s| && HasLonger(names, p + s[..k]) && !BeginsName(names, p + s[..k + 1])
    && s[k] != '"' && Chars(s[k + 1..], charRule, I)
  }

  /** Read behind prefix p, s runs past a name that is the beginning of no other. */
  ghost predicate OutgrowsAt(names: seq<string>, p: string, s: string, k: nat, charRule: string, I: Interp) {
    && 1 <= k <= |s| && p + s[..k] in names && !HasLonger(names, p + s[..k]) && SomeChars(s[k..], charRule, I)
  }

  ghost predicate FreshBehind(names: seq<string>, p: string, s: string, charRule: string, I: Interp) {
    exists k: nat :: DivergesAt(names, p, s, k, charRule, I) || OutgrowsAt(names, p, s, k, charRule, I)
  }

  lemma {:induction false} PathSnoc(t: Trie, p: string, c: char)
    ensures HasPath(t, p + [c]) <==> HasPath(t, p) && c in NodeAt(t, p).children
    ensures HasPath(t, p + [c]) ==> NodeAt(t, p + [c]) == NodeAt(t, p).children[c]
    decreases |p|
  {
    var q := p + [c];
    if p == "" {
      assert q == [c] && q[1..] == "";
    } else {
      assert q[0] == p[0] && q[1..] == p[1..] + [c];
      if p[0] in t.children { PathSnoc(t.children[p[0]], p[1..], c); }
    }
  }

  /** A node's children and end mark, in terms of the names. */
  lemma NodeMeans(names: seq<string>, p: string, c: char)
    requires HasPath(TrieOf(names), p)
    ensures c in NodeAt(TrieOf(names), p).children <==> BeginsName(names, p + [c])
    ensures BeginsName(names, p + [c]) ==>
              HasPath(TrieOf(names), p + [c]) && NodeAt(TrieOf(names), p + [c]) == NodeAt(TrieOf(names), p).children[c]
  {
    PathSnoc(TrieOf(names), p, c);
    TrieOfNames(names, p + [c]);
  }

  lemma ChildrenMean(names: seq<string>, p: string)
    requires HasPath(TrieOf(names), p)
    ensures NodeAt(TrieOf(names), p).children != map[] <==> HasLonger(names, p)
  {
    var node := NodeAt(TrieOf(names), p);
    if node.children != map[] {
      var c :| c in node.children;
      NodeMeans(names, p, c);
      var w :| w in names && p + [c] <= w;
      assert p < w;
    }
    if HasLonger(names, p) {
      var w :| w in names && p < w;
      assert p + [w[|p|]] <= w;
      NodeMeans(names, p, w[|p|]);
    }
  }

  lemma Behind(p: string, s: string, k: nat)
    requires k < |s|
    ensures (p + [s[0]]) + s[1..][..k] == p + s[..k + 1] && s[1..][k..] == s[k + 1..]
  {
    assert [s[0]] + s[1..][..k] == s[..k + 1];
  }

  lemma FreshStep(names: seq<string>, p: string, s: string, charRule: string, I: Interp)
    requires s != "" && BeginsName(names, p + [s[0]])
    ensures HasLonger(names, p + [s[0]]) ==>
              (FreshBehind(names, p, s, charRule, I) <==> FreshBehind(names, p + [s[0]], s[1..], charRule, I))
    ensures !HasLonger(names, p + [s[0]]) ==>
            (FreshBehind(names, p, s, charRule, I) <==> SomeChars(s[1..], charRule, I))
  {
    var q, r := p + [s[0]], s[1..];
    assert s[..1] == [s[0]];
    forall k | 0 <= k <= |r| ensures q + r[..k] == p + s[..k + 1] && r[k..] == s[k + 1..] { Behind(p, s, k); }
    if FreshBehind(names, p, s, charRule, I) {
      var k: nat :| DivergesAt(names, p, s, k, charRule, I) || OutgrowsAt(names, p, s, k, charRule, I);
      if DivergesAt(names, p, s, k, charRule, I) {
        assert k > 0;
        LongerThanPrefix(names, p + s[..1], p + s[..k]);
        assert DivergesAt(names, q, r, k - 1, charRule, I);
      } else if k == 1 {
        assert s[1..] == r;
      } else {
        LongerThanPrefix(names, p + s[..1], p + s[..k]);
        assert OutgrowsAt(names, q, r, k - 1, charRule, I);
      }
    }
    if HasLonger(names, q) && FreshBehind(names, q, r, charRule, I) {
      var k: nat :| DivergesAt(names, q, r, k, charRule, I) || OutgrowsAt(names, q, r, k, charRule, I);
      if DivergesAt(names, q, r, k, charRule, I) {
        assert DivergesAt(names, p, s, k + 1, charRule, I);
      } else {
        assert OutgrowsAt(names, p, s, k + 1, charRule, I);
      }
    }
    if !HasLonger(names, q) && SomeChars(r, charRule, I) {
      var w :| w in names && q <= w;
      assert w == q;
      assert OutgrowsAt(names, p, s, 1, charRule, I);
    }
  }

  lemma LongerThanPrefix(names: seq<string>, u: string, v: string)
    requires u <= v
    ensures HasLonger(names, v) ==> HasLonger(names, u)
    ensures v in names && u != v ==> HasLonger(names, u)
  {
    if HasLonger(names, v) {
      var w :| w in names && v < w;
      assert u < w;
    }
  }

  lemma {:induction false} LeavesIsFresh(names: seq<string>, p: string, s: string, charRule: string, I: Interp)
    requires HasPath(TrieOf(names), p) && HasLonger(names, p)
    ensures Leaves(NodeAt(TrieOf(names), p), s, charRule, I) <==> FreshBehind(names, p, s, charRule, I)
    decreases |s|
  {
    if s != "" {
      var c, r := s[0], s[1..];
      NodeMeans(names, p, c);
      assert s[..1] == [c] && s[..0] == "" && p + "" == p;
      if BeginsName(names, p + [c]) {
        FreshStep(names, p, s, charRule, I);
        ChildrenMean(names, p + [c]);
        if HasLonger(names, p + [c]) { LeavesIsFresh(names, p + [c], r, charRule, I); }
      } else {
        FreshHere(names, p, s, charRule, I);
      }
    }
  }

  lemma FreshHere(names: seq<string>, p: string, s: string, charRule: string, I: Interp)
    requires s != "" && HasLonger(names, p) && !BeginsName(names, p + [s[0]])
    ensures FreshBehind(names, p, s, charRule, I) <==> s[0] != '"' && Chars(s[1..], charRule, I)
  {
    assert s[..1] == [s[0]] && s[..0] == "" && p + "" == p;
    if s[0] != '"' && Chars(s[1..], charRule, I) {
      assert DivergesAt(names, p, s, 0, charRule, I);
    }
    forall k: nat | 0 < k <= |s| ensures !BeginsName(names, p + s[..k]) {
      BeginsShorter(names, p + s[..1], p + s[..k]);
    }
    if FreshBehind(names, p, s, charRule, I) {
      var k: nat :| DivergesAt(names, p, s, k, charRule, I) || OutgrowsAt(names, p, s, k, charRule, I);
      NamesBegin(names, p + s[..k]);
    }
  }

  /** A name begins itself, and whatever begins a longer name begins one. */
  lemma NamesBegin(names: seq<string>, u: string)
    ensures u in names || HasLonger(names, u) ==> BeginsName(names, u)
  {
    if w :| w in names && u < w { assert u <= w; }
  }

  // ---------------------------------------------------------------------------------------------
  // Which names have safe dashes
  // ---------------------------------------------------------------------------------------------

  lemma {:induction false} UnsafeAt(t: Trie) returns (u: string)
    requires !DashSafeTrie(t)
    ensures HasPath(t, u) && !DashSafe(NodeAt(t, u).children.Keys)
    decreases t
  {
    if !DashSafe(t.children.Keys) {
      u := "";
    } else {
      var c :| c in t.children && !DashSafeTrie(t.children[c]);
      var v := UnsafeAt(t.children[c]);
      u := [c] + v;
      assert u[1..] == v;
    }
  }

  lemma {:induction false} SafeAt(t: Trie, u: string)
    requires DashSafeTrie(t) && HasPath(t, u)
    ensures DashSafe(NodeAt(t, u).children.Keys)
    decreases |u|
  {
    if u != "" { SafeAt(t.children[u[0]], u[1..]); }
  }

  /** Behind u, one name goes on with a dash and one with a greater character y. */
  predicate DashBeside(names: seq<string>, u: string, y: char) {
    BeginsName(names, u + "-") && BeginsName(names, u + [y]) && y > '-'
  }

  /** A dash beside a greater character is harmless only where names go on with a comma and a full stop, too. */
  lemma SafeNames(names: seq<string>)
    ensures DashSafeTrie(TrieOf(names)) <==>
            forall u, y :: DashBeside(names, u, y) ==> BeginsName(names, u + ",") && BeginsName(names, u + ".")
  {
    var t := TrieOf(names);
    if DashSafeTrie(t) {
      forall u, y | DashBeside(names, u, y) ensures BeginsName(names, u + ",") && BeginsName(names, u + ".") {
        PathOf(names, u, y);
        SafeAt(t, u);
        FourChildren(names, u, y);
      }
    } else {
      var u := UnsafeAt(t);
      var y :| y in NodeAt(t, u).children.Keys && y > '-';
      FourChildren(names, u, y);
      assert DashBeside(names, u, y);
    }
  }

  lemma PathOf(names: seq<string>, u: string, y: char)
    requires BeginsName(names, u + [y])
    ensures HasPath(TrieOf(names), u)
  {
    var w :| w in names && u + [y] <= w;
    assert u <= w;
    TrieOfNames(names, u);
  }

  lemma FourChildren(names: seq<string>, u: string, y: char)
    requires HasPath(TrieOf(names), u)
    ensures var S := NodeAt(TrieOf(names), u).children.Keys;
            && ('-' in S <==> BeginsName(names, u + "-")) && (y in S <==> BeginsName(names, u + [y]))
            && (',' in S <==> BeginsName(names, u + ",")) && ('.' in S <==> BeginsName(names, u + "."))
  {
    NodeMeans(names, u, '-');
    NodeMeans(names, u, y);
    NodeMeans(names, u, ',');
    NodeMeans(names, u, '.');
  }

  /** The dash of `a-x` is unsafe beside `ab`; `a-b` alone does no harm. */
  lemma DashInputs()
    ensures !DashSafeTrie(TrieOf(["a-x", "ab"])) && DashSafeTrie(TrieOf(["a-b"]))
  {
    var bad, good := ["a-x", "ab"], ["a-b"];
    assert bad[0] in bad && "a" + "-" <= bad[0] && bad[1] in bad && "a" + ['b'] <= bad[1];
    assert DashBeside(bad, "a", 'b');
    assert !BeginsName(bad, "a" + ",") by { assert ("a" + ",")[1] == ','; }
    SafeNames(bad);
    forall u, y ensures !DashBeside(good, u, y) {
      if BeginsName(good, u + "-") && BeginsName(good, u + [y]) {
        assert (u + "-")[|u|] == '-' && (u + [y])[|u|] == y;
        assert u + "-" <= good[0] && u + [y] <= good[0];
      }
    }
    SafeNames(good);
  }

  // ---------------------------------------------------------------------------------------------
  // The whole rule
  // ---------------------------------------------------------------------------------------------

  predicate HasNonEmpty(names: seq<string>) { exists w :: w in names && w != "" }

  /** The key bodies that `_not_strings` lets through. With no name but the empty one it lets only that through. */
  ghost predicate KeyBody(names: seq<string>, body: string, charRule: string, I: Interp) {
    if HasNonEmpty(names) then (if body == "" then "" !in names else FreshBehind(names, "", body, charRule, I))
    else body == ""
  }

  ghost predicate KeyText(names: seq<string>, s: string, charRule: string, I: Interp) {
    exists body, w :: s == "\"" + body + "\"" + w && KeyBody(names, body, charRule, I) && ("space", w) in I
  }

  /** What the emitted rule accepts, as it reads. */
  ghost predicate BodyPasses(names: seq<string>, body: string, charRule: string, I: Interp) {
    if HasNonEmpty(names) then (if body == "" then "" !in names else Passes(TrieOf(names), body, charRule, I))
    else body == ""
  }

  ghost predicate TextPasses(names: seq<string>, s: string, charRule: string, I: Interp) {
    exists body, w :: s == "\"" + body + "\"" + w && BodyPasses(names, body, charRule, I) && ("space", w) in I
  }

  lemma PassesIsKey(names: seq<string>, body: string, charRule: string, I: Interp)
    requires BodyPasses(names, body, charRule, I)
    ensures KeyBody(names, body, charRule, I)
  {
    RootMeans(names);
    if HasNonEmpty(names) && body != "" { PassesLeaves(TrieOf(names), body, charRule, I); }
  }

  lemma SafeIsKey(names: seq<string>, body: string, charRule: string, I: Interp)
    requires DashSafeTrie(TrieOf(names))
    ensures BodyPasses(names, body, charRule, I) <==> KeyBody(names, body, charRule, I)
  {
    RootMeans(names);
    SafePasses(TrieOf(names), body, charRule, I);
  }

  /** The rule is exact if and only if all dashes are safe. */
  lemma ExactIfSafe(names: seq<string>, charRule: string)
    requires forall w :: w in names ==> PlainText(w)
    ensures (forall s, I :: TextPasses(names, s, charRule, I) <==> KeyText(names, s, charRule, I)) <==>
            DashSafeTrie(TrieOf(names))
  {
    if DashSafeTrie(TrieOf(names)) {
      forall body, I ensures BodyPasses(names, body, charRule, I) <==> KeyBody(names, body, charRule, I) {
        SafeIsKey(names, body, charRule, I);
      }
    } else {
      TrieOfShape(names);
      var body := UnsafeBlocks(TrieOf(names));
      BlockedText(names, body, charRule);
    }
  }

  const DASHED: seq<string> := ["a-x", "ab"]

  lemma DashedNode(c: char)
    ensures BeginsName(DASHED, "a" + [c]) <==> c in {'-', 'b'}
  {
    assert DASHED[0] in DASHED && DASHED[1] in DASHED;
    assert "a" + "-" <= DASHED[0] && "a" + ['b'] <= DASHED[1];
    if BeginsName(DASHED, "a" + [c]) {
      var w :| w in DASHED && "a" + [c] <= w;
      assert w[1] == ("a" + [c])[1];
    }
  }

  /** Behind `a`, the class excludes everything from the quote to `b`. */
  lemma DashedClass()
    ensures var t := TrieOf(DASHED);
            'a' in t.children && t.children['a'].children.Keys == {'-', 'b'}
            && Excluded(t.children['a'].children.Keys, 'B')
  {
    var t := TrieOf(DASHED);
    assert BeginsName(DASHED, "" + ['a']) by { assert DASHED[1] in DASHED && "" + ['a'] <= DASHED[1]; }
    NodeMeans(DASHED, "", 'a');
    assert "" + ['a'] == "a" && NodeAt(t, "a") == t.children['a'];
    var S := t.children['a'].children.Keys;
    forall c ensures c in S <==> c in {'-', 'b'} {
      NodeMeans(DASHED, "a", c);
      DashedNode(c);
    }
    assert Spans(S, '"', 'b', 'B');
  }

  /** With `a-x` and `ab` excluded, the new key `aB` is rejected. */
  lemma DashedKey(charRule: string, I: Interp)
    ensures KeyBody(DASHED, "aB", charRule, I) && !BodyPasses(DASHED, "aB", charRule, I)
  {
    assert DASHED[1] in DASHED && DASHED[1] != "" && "a" < DASHED[1];
    assert "" + "aB"[..1] == "a" && "" + "aB"[..2] == "a" + ['B'];
    DashedNode('B');
    assert MatchesTimes(Ref(charRule), 0, "aB"[2..], I);
    assert DivergesAt(DASHED, "", "aB", 1, charRule, I);
    DashedClass();
    var child := TrieOf(DASHED).children['a'];
    assert "aB"[1..] == "B" && 'b' in child.children.Keys;
    assert !Passes(child, "B", charRule, I);
    assert FollowsChild(child, "B", charRule, I) == Passes(child, "B", charRule, I);
    assert Passes(TrieOf(DASHED), "aB", charRule, I) == FollowsChild(child, "aB"[1..], charRule, I);
  }

  lemma BlockedText(names: seq<string>, body: string, charRule: string)
    requires TrieOf(names).children != map[] && PlainText(body)
    requires forall I :: Leaves(TrieOf(names), body, charRule, I) && !Passes(TrieOf(names), body, charRule, I)
    ensures exists s, I :: KeyText(names, s, charRule, I) && !TextPasses(names, s, charRule, I)
  {
    RootMeans(names);
    var s, I := "\"" + body + "\"", iset{("space", "")};
    assert s == "\"" + body + "\"" + "";
    assert Leaves(TrieOf(names), body, charRule, I) && body != "";
    assert KeyText(names, s, charRule, I);
    forall b, w | s == "\"" + b + "\"" + w && ("space", w) in I ensures b == body {
      SplitQuoted(s, b, w);
      SplitQuoted(s, body, "");
    }
  }

  method BuildTrie(names: seq<string>) returns (trie: Trie)
    ensures trie == TrieOf(names)
  {
    trie := EMPTY;
    for i := 0 to |names|
      invariant trie == TrieOf(names[..i])
    {
      trie := Insert(trie, names[i]);
      assert names[..i + 1][..i] == names[..i];
    }
    assert names[..|names|] == names;
  }

  /** Emits the rule body of `_not_strings`. It is exact if and only if all dashes in the names are safe. */
  method Exclude(names: seq<string>, charRule: string) returns (rule: seq<Tok>)
    requires forall w :: w in names ==> PlainText(w)
    ensures Parse(rule).Some? && OkAlts(Parse(rule).value) && rule == ShowAlts(Parse(rule).value)
    ensures AltsRefsIn(Parse(rule).value, {charRule, "space"})
    ensures forall s, I :: MatchesAlts(Parse(rule).value, s, I) <==> TextPasses(names, s, charRule, I)
    ensures (forall s, I :: MatchesAlts(Parse(rule).value, s, I) <==> KeyText(names, s, charRule, I)) <==>
            DashSafeTrie(TrieOf(names))
  {
    var trie := BuildTrie(names);
    TrieOfShape(names);
    RootMeans(names);
    var out := new Text<Tok>();
    out.Write([TClass("\""), TOpen]);
    ghost var alts := [Body([])];
    if trie.children != map[] {
      alts := VisitTrie(trie, charRule, out);
    }
    assert out.toks == [TClass("\""), TOpen] + ShowAlts(alts);
    out.Write([TClose] + (if trie.isEnd then [] else [OPT]) + [TClass("\""), TRef("space")]);
    rule := out.toks;
    ghost var xs := KeySymbols(names, charRule, alts);
    WholeRule(names, charRule, rule, xs);
  }

  lemma WholeRule(names: seq<string>, charRule: string, rule: seq<Tok>, xs: seq<Sym>)
    requires forall w :: w in names ==> PlainText(w)
    requires rule == ShowSyms(xs) && OkSyms(xs) && SymsRefsIn(xs, {charRule, "space"})
    requires forall s, I :: MatchesSyms(xs, s, I) <==> TextPasses(names, s, charRule, I)
    ensures Parse(rule) == Some([Body(xs)]) && OkAlts([Body(xs)]) && rule == ShowAlts([Body(xs)])
    ensures AltsRefsIn([Body(xs)], {charRule, "space"})
    ensures forall s, I :: MatchesAlts([Body(xs)], s, I) <==> TextPasses(names, s, charRule, I)
    ensures (forall s, I :: MatchesAlts([Body(xs)], s, I) <==> KeyText(names, s, charRule, I)) <==>
            DashSafeTrie(TrieOf(names))
  {
    OneBodyOk(xs);
    ShowThenParse([Body(xs)]);
    forall s, I ensures MatchesAlts([Body(xs)], s, I) <==> TextPasses(names, s, charRule, I) {
      MatchesAltsOne(xs, s, I);
    }
    ExactIfSafe(names, charRule);
  }

  lemma RootMeans(names: seq<string>)
    ensures var t := TrieOf(names);
            (t.children != map[] <==> HasNonEmpty(names)) && (t.isEnd <==> "" in names)
            && (HasNonEmpty(names) ==>
                  forall s, charRule, I :: Leaves(t, s, charRule, I) <==> FreshBehind(names, "", s, charRule, I))
  {
    var t := TrieOf(names);
    TrieOfNames(names, "");
    ChildrenMean(names, "");
    assert NodeAt(t, "") == t;
    if HasNonEmpty(names) {
      var w :| w in names && w != "";
      assert "" < w;
      forall s, charRule, I ensures Leaves(t, s, charRule, I) <==> FreshBehind(names, "", s, charRule, I) {
        LeavesIsFresh(names, "", s, charRule, I);
      }
    }
    if HasLonger(names, "") {
      var w :| w in names && "" < w;
      assert w != "";
    }
  }

  lemma QuoteClass(c: char)
    ensures Ok(Class("\"")) && (InClass("\"", c) <==> c == '"')
  {
    assert ReadChar("\"") == Some(('"', 1)) && "\""[1..] == "";
    assert [('"', '"')] + [] == [('"', '"')];
    assert ReadRanges("\"") == Some([('"', '"')]);
    OneRange('"', '"', c);
  }

  /** The symbol between the quotes. */
  function BodySymbol(names: seq<string>, alts: seq<Body>): Sym {
    if "" in names then Group(alts) else Opt(Group(alts))
  }

  lemma KeySymbols(names: seq<string>, charRule: string, alts: seq<Body>) returns (xs: seq<Sym>)
    requires OkAlts(alts) && AltsRefsIn(alts, {charRule})
    requires HasNonEmpty(names) ==> forall s, I :: MatchesAlts(alts, s, I) <==> Passes(TrieOf(names), s, charRule, I)
    requires !HasNonEmpty(names) ==> alts == [Body([])]
    ensures OkSyms(xs) && SymsRefsIn(xs, {charRule, "space"})
    ensures ShowSyms(xs) == [TClass("\""), TOpen] + ShowAlts(alts)
                            + ([TClose] + (if "" in names then [] else [OPT]) + [TClass("\""), TRef("space")])
    ensures forall s, I :: MatchesSyms(xs, s, I) <==> TextPasses(names, s, charRule, I)
  {
    var q, g := Class("\""), BodySymbol(names, alts);
    xs := [q] + ([g] + [q, SP]);
    KeyShown(q, g, names, charRule, alts);
    forall s, I
      ensures MatchesSyms(xs, s, I) <==> TextPasses(names, s, charRule, I)
    {
      KeyPoint(names, charRule, alts, s, I);
    }
  }

  lemma KeyShown(q: Sym, g: Sym, names: seq<string>, charRule: string, alts: seq<Body>)
    requires OkAlts(alts) && AltsRefsIn(alts, {charRule}) && q == Class("\"") && g == BodySymbol(names, alts)
    ensures var xs := [q] + ([g] + [q, SP]);
            OkSyms(xs) && SymsRefsIn(xs, {charRule, "space"})
            && ShowSyms(xs) == ([TClass("\"")] + [TOpen]) + ShowAlts(alts)
                               + ([TClose] + (if "" in names then [] else [OPT]) + [TClass("\""), TRef("space")])
  {
    QuoteClass('"');
    RefsWiden(alts, {charRule}, {charRule, "space"});
    BodyShown(g, names, alts, {charRule, "space"});
    ShowTwo(q, SP);
    ShowOne(q);
    ShowSymsConcat([g], [q, SP]);
    ShowSymsConcat([q], [g] + [q, SP]);
    assert [q] + ([g] + [q, SP]) == [q, g, q, SP];
    KeyGrouping([TClass("\"")], [TOpen], ShowAlts(alts), [TClose], if "" in names then [] else [OPT],
                [TClass("\""), TRef("space")]);
  }

  lemma KeyGrouping(q: seq<Tok>, a: seq<Tok>, b: seq<Tok>, c: seq<Tok>, d: seq<Tok>, e: seq<Tok>)
    ensures q + ((a + b + c + d) + e) == (q + a) + b + (c + d + e)
  {
  }

  lemma BodyShown(g: Sym, names: seq<string>, alts: seq<Body>, N: set<string>)
    requires OkAlts(alts) && AltsRefsIn(alts, N) && g == BodySymbol(names, alts)
    ensures Ok(g) && RefsIn(g, N)
    ensures ShowSyms([g]) == [TOpen] + ShowAlts(alts) + [TClose] + (if "" in names then [] else [OPT])
  {
    assert Ok(Group(alts)) && RefsIn(Group(alts), N);
    ShowOne(g);
  }

  lemma QuoteThen(rest: seq<Sym>, s: string, I: Interp)
    ensures MatchesSyms([Class("\"")] + rest, s, I) <==> s != "" && s[0] == '"' && MatchesSyms(rest, s[1..], I)
  {
    ClassThen("\"", rest, s, I);
    if s != "" { QuoteClass(s[0]); }
  }

  lemma BodySymbolMeans(names: seq<string>, charRule: string, alts: seq<Body>, b: string, I: Interp)
    requires HasNonEmpty(names) ==> (MatchesAlts(alts, b, I) <==> Passes(TrieOf(names), b, charRule, I))
    requires !HasNonEmpty(names) ==> alts == [Body([])]
    ensures Matches(BodySymbol(names, alts), b, I) <==> BodyPasses(names, b, charRule, I)
  {
    var g := Group(alts);
    OptMatches(g, b, I);
    assert Matches(g, b, I) <==> MatchesAlts(alts, b, I);
    if !HasNonEmpty(names) { MatchesAltsOne([], b, I); }
  }

  /** At position i stands a quote with nothing but white space behind it. */
  ghost predicate ClosesAt(t: string, i: nat, I: Interp) {
    i < |t| && t[i] == '"' && ("space", t[i + 1..]) in I
  }

  lemma QuoteSpace(t: string, i: nat, I: Interp)
    requires i <= |t|
    ensures MatchesSyms([Class("\""), SP], t[i..], I) <==> ClosesAt(t, i, I)
  {
    assert [Class("\"")] + [SP] == [Class("\""), SP];
    QuoteThen([SP], t[i..], I);
    if i < |t| {
      assert t[i..][1..] == t[i + 1..];
      MatchesOne(SP, t[i + 1..], I);
    }
  }

  /** A symbol, a closing quote and white space. */
  lemma BodyThenQuote(g: Sym, t: string, I: Interp)
    ensures MatchesSyms([g] + [Class("\""), SP], t, I) <==>
            exists i: nat :: ClosesAt(t, i, I) && Matches(g, t[..i], I)
  {
    var rest := [g] + [Class("\""), SP];
    assert rest[0] == g && rest[1..] == [Class("\""), SP];
    if MatchesSyms(rest, t, I) {
      var i: nat :| i <= |t| && Matches(g, t[..i], I) && MatchesSyms(rest[1..], t[i..], I);
      QuoteSpace(t, i, I);
    }
    if i: nat :| ClosesAt(t, i, I) && Matches(g, t[..i], I) {
      QuoteSpace(t, i, I);
    }
  }

  lemma TextPassesAt(names: seq<string>, charRule: string, s: string, I: Interp)
    requires s != "" && s[0] == '"'
    ensures TextPasses(names, s, charRule, I) <==>
            exists i: nat :: ClosesAt(s[1..], i, I) && BodyPasses(names, s[1..][..i], charRule, I)
  {
    var t := s[1..];
    if TextPasses(names, s, charRule, I) {
      var body, w :| s == "\"" + body + "\"" + w && BodyPasses(names, body, charRule, I) && ("space", w) in I;
      SplitQuoted(s, body, w);
      assert ClosesAt(t, |body|, I);
    }
    if i: nat :| ClosesAt(t, i, I) && BodyPasses(names, t[..i], charRule, I) {
      JoinQuoted(s, i);
      var body, w := t[..i], t[i + 1..];
      assert BodyPasses(names, body, charRule, I) && ("space", w) in I;
    }
  }

  lemma JoinQuoted(s: string, i: nat)
    requires s != "" && s[0] == '"' && i < |s| - 1 && s[1..][i] == '"'
    ensures s == "\"" + s[1..][..i] + "\"" + s[1..][i + 1..]
  {
    var t := s[1..];
    assert t == t[..i] + [t[i]] + t[i + 1..];
    assert s == [s[0]] + t;
  }

  lemma SplitQuoted(s: string, body: string, w: string)
    requires s == "\"" + body + "\"" + w
    ensures s[1..][..|body|] == body && |body| < |s[1..]| && s[1..][|body|] == '"' && s[1..][|body| + 1..] == w
  {
    assert s[1..] == body + "\"" + w;
  }

  lemma KeyPoint(names: seq<string>, charRule: string, alts: seq<Body>, s: string, I: Interp)
    requires HasNonEmpty(names) ==> forall b :: MatchesAlts(alts, b, I) <==> Passes(TrieOf(names), b, charRule, I)
    requires !HasNonEmpty(names) ==> alts == [Body([])]
    ensures MatchesSyms([Class("\"")] + ([BodySymbol(names, alts)] + [Class("\""), SP]), s, I) <==>
            TextPasses(names, s, charRule, I)
  {
    var g := BodySymbol(names, alts);
    QuoteThen([g] + [Class("\""), SP], s, I);
    if s != "" && s[0] == '"' {
      var t := s[1..];
      TextPassesAt(names, charRule, s, I);
      BodyThenQuote(g, t, I);
      forall i: nat | i <= |t| ensures Matches(g, t[..i], I) <==> BodyPasses(names, t[..i], charRule, I) {
        BodySymbolMeans(names, charRule, alts, t[..i], I);
      }
    }
  }

  // ---------------------------------------------------------------------------------------------
  // What that means for keys over plain characters
  // ---------------------------------------------------------------------------------------------

  predicate PlainJson(s: string) {
    forall i :: 0 <= i < |s| ==> s[i] !in {'"', '\\', 0x7F as char} && s[i] > 0x1F as char
  }

  /** The character rule is the built-in one as far as single plain characters go, and never derives nothing. */
  ghost predicate CharRuleSane(charRule: string, I: Interp) {
    && (forall c :: PlainJson([c]) ==> (charRule, [c]) in I)
    && (charRule, "") !in I
  }

  lemma {:induction false} PlainChars(s: string, charRule: string, I: Interp)
    requires PlainJson(s) && CharRuleSane(charRule, I)
    ensures MatchesTimes(Ref(charRule), |s|, s, I)
  {
    if s != "" {
      assert s[..1] == [s[0]] && PlainJson([s[0]]);
      assert Matches(Ref(charRule), s[..1], I);
      PlainChars(s[1..], charRule, I);
    }
  }

  lemma {:induction false} LastPrefix(names: seq<string>, s: string, n: nat) returns (k: nat)
    requires names != [] && n <= |s| && !BeginsName(names, s[..n])
    ensures k < n && BeginsName(names, s[..k]) && !BeginsName(names, s[..k + 1])
    decreases n
  {
    k := 0;
    assert names[0] in names && "" <= names[0] && s[..0] == "";
    if n == 0 {
      assert false;
    } else if BeginsName(names, s[..n - 1]) {
      k := n - 1;
    } else {
      k := LastPrefix(names, s, n - 1);
    }
  }

  lemma BeginsShorter(names: seq<string>, u: string, v: string)
    requires u <= v
    ensures BeginsName(names, v) ==> BeginsName(names, u)
    ensures u != v && BeginsName(names, v) ==> HasLonger(names, u)
  {
    if BeginsName(names, v) {
      var w :| w in names && v <= w;
      assert u <= w && (u != v ==> u < w);
    }
  }

  lemma NotEmptyChars(s: string, charRule: string, I: Interp)
    requires SomeChars(s, charRule, I) && CharRuleSane(charRule, I)
    ensures s != ""
  {
    var k: nat :| k >= 1 && MatchesTimes(Ref(charRule), k, s, I);
    var i :| 0 <= i <= |s| && Matches(Ref(charRule), s[..i], I) && MatchesTimes(Ref(charRule), k - 1, s[i..], I);
    assert s[..i] != "";
  }

  /** What diverges from every name begins none. */
  lemma FreshBeginsNone(names: seq<string>, body: string, charRule: string, I: Interp)
    requires FreshBehind(names, "", body, charRule, I) && CharRuleSane(charRule, I)
    ensures !BeginsName(names, body)
  {
    var k: nat :| DivergesAt(names, "", body, k, charRule, I) || OutgrowsAt(names, "", body, k, charRule, I);
    assert "" + body[..k] == body[..k];
    if DivergesAt(names, "", body, k, charRule, I) {
      assert "" + body[..k + 1] == body[..k + 1];
      BeginsShorter(names, body[..k + 1], body);
    } else {
      NotEmptyChars(body[k..], charRule, I);
      BeginsShorter(names, body[..k], body);
    }
  }

  lemma PlainNoneBegunIsFresh(names: seq<string>, body: string, charRule: string, I: Interp)
    requires HasNonEmpty(names) && PlainJson(body) && CharRuleSane(charRule, I) && !BeginsName(names, body)
    ensures FreshBehind(names, "", body, charRule, I)
  {
    assert body[..|body|] == body;
    var k := LastPrefix(names, body, |body|);
    assert "" + body[..k] == body[..k] && "" + body[..k + 1] == body[..k + 1];
    var v :| v in names && v != "";
    assert "" < v;
    if HasLonger(names, body[..k]) {
      PlainChars(body[k + 1..], charRule, I);
      assert DivergesAt(names, "", body, k, charRule, I);
    } else {
      var w :| w in names && body[..k] <= w;
      assert w == body[..k];
      PlainChars(body[k..], charRule, I);
      assert k != 0;
      assert OutgrowsAt(names, "", body, k, charRule, I);
    }
  }

  /** A key is let through exactly when it is not the beginning of an excluded name; the empty key, when it is
      not excluded itself. */
  lemma PlainKeys(names: seq<string>, body: string, charRule: string, I: Interp)
    requires HasNonEmpty(names) && PlainJson(body) && CharRuleSane(charRule, I)
    ensures KeyBody(names, body, charRule, I) <==> if body == "" then "" !in names else !BeginsName(names, body)
  {
    if body != "" {
      if FreshBehind(names, "", body, charRule, I) {
        FreshBeginsNone(names, body, charRule, I);
      } else if !BeginsName(names, body) {
        PlainNoneBegunIsFresh(names, body, charRule, I);
      }
    }
  }

  /** No excluded name gets through, unless the empty name is the only one excluded: that one does. */
  lemma ExcludedNames(names: seq<string>, charRule: string, I: Interp)
    requires names != [] && CharRuleSane(charRule, I)
    ensures (forall w :: w in names ==> !KeyBody(names, w, charRule, I)) <==> HasNonEmpty(names)
  {
    if HasNonEmpty(names) {
      forall w | w in names ensures !KeyBody(names, w, charRule, I) {
        assert BeginsName(names, w);
        if FreshBehind(names, "", w, charRule, I) { FreshBeginsNone(names, w, charRule, I); }
      }
    } else {
      assert names[0] in names;
      assert KeyBody(names, "", charRule, I);
    }
  }
}
