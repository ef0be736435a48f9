/** `build_repetition`: between a minimum and a maximum number of items, with an optional separator. */
module Repetition {
  import opened Options
  import opened Gbnf
  import opened IntRange
  import opened Symbols

  /** s begins with a separator up to a, and then the item up to b. */
  ghost predicate Step(item: string, s: string, a: nat, b: nat, sep: seq<Sym>, I: Interp) {
    a <= b <= |s| && MatchesSyms(sep, s[..a], I) && s[a..b] == item
  }

  /** s is the items one after the other, each of them behind a separator. */
  ghost predicate Tail(items: seq<string>, s: string, sep: seq<Sym>, I: Interp)
    decreases |items|
  {
    if items == [] then s == ""
    else exists a: nat, b: nat :: Step(items[0], s, a, b, sep, I) && Tail(items[1..], s[b..], sep, I)
  }

  /** s is the items with one separator between neighbours. */
  ghost predicate Joined(items: seq<string>, s: string, sep: seq<Sym>, I: Interp) {
    if items == [] then s == ""
    else items[0] <= s && Tail(items[1..], s[|items[0]|..], sep, I)
  }

  ghost predicate EachMatches(x: Sym, items: seq<string>, I: Interp) {
    forall i :: 0 <= i < |items| ==> Matches(x, items[i], I)
  }

  /** Between lo and hi of them. */
  predicate Admits(lo: nat, hi: Option<nat>, k: nat) { lo <= k && (hi.Some? ==> k <= hi.value) }

  /** A list of admissible length whose items match and are joined to s. */
  ghost predicate ListOf(x: Sym, lo: nat, hi: Option<nat>, sep: seq<Sym>, s: string, I: Interp) {
    exists items :: Admits(lo, hi, |items|) && EachMatches(x, items, I) && Joined(items, s, sep, I)
  }

  /** The same for the number of copies that the parser makes of a repetition: at least lo, even if hi is less. */
  ghost predicate UnrolledList(x: Sym, lo: nat, hi: Option<nat>, sep: seq<Sym>, s: string, I: Interp) {
    exists items :: RepCount(lo, hi, |items|) && EachMatches(x, items, I) && Joined(items, s, sep, I)
  }

  /** The source, on lexemes; INT_MAX stands for "no maximum". */
  function BuildRepetition(item: seq<Tok>, minItems: nat, maxItems: int, sep: seq<Tok>): seq<Tok>
    decreases |sep|
  {
    var hasMax := maxItems != INT_MAX;
    if minItems == 0 && maxItems == 1 then item + [OPT]
    else if sep == [] then
      if minItems == 1 && !hasMax then item + [PLUS]
      else if minItems == 0 && !hasMax then item + [STAR]
      else item + [TRep(minItems, if hasMax then Some(maxItems) else None)]
    else
      var result := item + BuildRepetition([TOpen] + sep + item + [TClose],
                                           if minItems == 0 then 0 else minItems - 1,
                                           if hasMax then maxItems - 1 else maxItems, []);
      if minItems == 0 then [TOpen] + result + [TClose, OPT] else result
  }

  function MaxOf(maxItems: int): Option<nat>
    requires maxItems >= 0
  {
    if maxItems == INT_MAX then None else Some(maxItems)
  }

  /** What those lexemes read back as. */
  function RepetitionSyms(x: Sym, minItems: nat, maxItems: int, sep: seq<Sym>): seq<Sym>
    requires maxItems >= 0 && (sep != [] ==> maxItems != 0)
    decreases |sep|
  {
    if (minItems == 0 && maxItems == 1) || sep == [] then [Rep(x, minItems, MaxOf(maxItems))]
    else
      var more := Rep(Group([Body(sep + [x])]), if minItems == 0 then 0 else minItems - 1,
                      if maxItems == INT_MAX then None else Some(maxItems - 1));
      if minItems == 0 then [Opt(Group([Body([x, more])]))] else [x, more]
  }

  lemma RepetitionReads(x: Sym, minItems: nat, maxItems: int, sep: seq<Sym>)
    requires 0 <= maxItems <= INT_MAX && (sep != [] ==> maxItems != 0) && Ok(x) && OkSyms(sep)
    ensures BuildRepetition(Show(x), minItems, maxItems, ShowSyms(sep)) ==
            ShowSyms(RepetitionSyms(x, minItems, maxItems, sep))
    ensures OkSyms(RepetitionSyms(x, minItems, maxItems, sep))
  {
    if (minItems == 0 && maxItems == 1) || sep == [] {
      ShowOne(RepetitionSyms(x, minItems, maxItems, sep)[0]);
    } else {
      var g := SeparatedItem(x, sep);
      var more := Rep(g, if minItems == 0 then 0 else minItems - 1,
                      if maxItems == INT_MAX then None else Some(maxItems - 1));
      SeparatedText(x, minItems, maxItems, sep, g);
      ShowTwo(x, more);
      if minItems == 0 { OptionalPair(x, more); }
    }
  }

  lemma OptionalPair(x: Sym, more: Sym)
    requires OkSyms([x, more])
    ensures OkSyms([Opt(Group([Body([x, more])]))])
    ensures ShowSyms([Opt(Group([Body([x, more])]))]) == [TOpen] + ShowSyms([x, more]) + [TClose, OPT]
  {
    var g, body := Group([Body([x, more])]), ShowSyms([x, more]);
    assert OkAlts([Body([x, more])]);
    ShowOne(Opt(g));
    assert ShowAlts(g.alts) == body && Show(g) == [TOpen] + body + [TClose];
    assert [TOpen] + body + [TClose] + [OPT] == [TOpen] + body + [TClose, OPT];
  }

  /** The text with a separator, with its second part spelled out. */
  lemma SeparatedText(x: Sym, minItems: nat, maxItems: int, sep: seq<Sym>, g: Sym)
    requires 0 <= maxItems <= INT_MAX && !(minItems == 0 && maxItems == 1)
    requires ShowSyms(sep) != [] && Show(g) == [TOpen] + ShowSyms(sep) + Show(x) + [TClose]
    ensures var body := Show(x) + (Show(g) + [TRep(if minItems == 0 then 0 else minItems - 1,
                                                   if maxItems == INT_MAX then None else Some(maxItems - 1))]);
            BuildRepetition(Show(x), minItems, maxItems, ShowSyms(sep)) ==
            if minItems == 0 then [TOpen] + body + [TClose, OPT] else body
  {
    var lo := if minItems == 0 then 0 else minItems - 1;
    var inner := BuildRepetition(Show(g), lo, if maxItems == INT_MAX then maxItems else maxItems - 1, []);
    assert inner == Show(g) + [TRep(lo, if maxItems == INT_MAX then None else Some(maxItems - 1))];
  }

  /** Separator and item in parentheses. */
  lemma SeparatedItem(x: Sym, sep: seq<Sym>) returns (g: Sym)
    requires Ok(x) && OkSyms(sep) && sep != []
    ensures g == Group([Body(sep + [x])]) && Ok(g)
    ensures Show(g) == [TOpen] + ShowSyms(sep) + Show(x) + [TClose]
    ensures ShowSyms(sep) != []
  {
    g := Group([Body(sep + [x])]);
    ShowSymsConcat(sep, [x]);
    ShowOne(x);
    ShowsNonEmpty(sep);
    assert [TOpen] + (ShowSyms(sep) + Show(x)) + [TClose] == [TOpen] + ShowSyms(sep) + Show(x) + [TClose];
  }

  lemma ShowsNonEmpty(xs: seq<Sym>)
    requires xs != []
    ensures ShowSyms(xs) != []
  {
    ShowNonEmpty(xs[0]);
  }

  lemma {:induction false} ShowNonEmpty(x: Sym)
    ensures Show(x) != []
  {
  }

  // ---------------------------------------------------------------------------------------------
  // The language
  // ---------------------------------------------------------------------------------------------

  ghost predicate ItemsBehind(x: Sym, k: nat, s: string, sep: seq<Sym>, I: Interp) {
    exists items :: |items| == k && EachMatches(x, items, I) && Tail(items, s, sep, I)
  }

  /** s begins with a separator up to a, and then something that matches x up to b. */
  ghost predicate ItemAt(x: Sym, s: string, a: nat, b: nat, sep: seq<Sym>, I: Interp) {
    a <= b <= |s| && MatchesSyms(sep, s[..a], I) && Matches(x, s[a..b], I)
  }

  ghost predicate ItemUpTo(x: Sym, s: string, b: nat, sep: seq<Sym>, I: Interp) {
    exists a: nat :: ItemAt(x, s, a, b, sep, I)
  }

  lemma TailUncons(x: Sym, k: nat, s: string, sep: seq<Sym>, I: Interp) returns (b: nat)
    requires ItemsBehind(x, k + 1, s, sep, I)
    ensures b <= |s| && ItemUpTo(x, s, b, sep, I) && ItemsBehind(x, k, s[b..], sep, I)
  {
    var items :| |items| == k + 1 && EachMatches(x, items, I) && Tail(items, s, sep, I);
    var a: nat, e: nat :| Step(items[0], s, a, e, sep, I) && Tail(items[1..], s[e..], sep, I);
    b := e;
    assert |items[1..]| == k && EachMatches(x, items[1..], I);
    assert ItemAt(x, s, a, b, sep, I);
  }

  lemma TailCons(x: Sym, k: nat, s: string, b: nat, sep: seq<Sym>, I: Interp)
    requires b <= |s| && ItemUpTo(x, s, b, sep, I) && ItemsBehind(x, k, s[b..], sep, I)
    ensures ItemsBehind(x, k + 1, s, sep, I)
  {
    var a: nat :| ItemAt(x, s, a, b, sep, I);
    var items :| |items| == k && EachMatches(x, items, I) && Tail(items, s[b..], sep, I);
    var all := [s[a..b]] + items;
    assert all[0] == s[a..b] && all[1..] == items;
    assert Step(all[0], s, a, b, sep, I);
    assert EachMatches(x, all, I) && Tail(all, s, sep, I);
  }

  /** A group of separator and item, up to position b. */
  lemma GroupIsItem(x: Sym, sep: seq<Sym>, s: string, b: nat, I: Interp)
    requires b <= |s|
    ensures Matches(Group([Body(sep + [x])]), s[..b], I) <==> ItemUpTo(x, s, b, sep, I)
  {
    MatchesAltsOne(sep + [x], s[..b], I);
    if MatchesSyms(sep + [x], s[..b], I) {
      var a := MatchesSplit(sep, [x], s[..b], I);
      assert s[..b][..a] == s[..a] && s[..b][a..] == s[a..b];
      MatchesOne(x, s[a..b], I);
      assert ItemAt(x, s, a, b, sep, I);
    }
    if ItemUpTo(x, s, b, sep, I) {
      var a: nat :| ItemAt(x, s, a, b, sep, I);
      assert s[..b][..a] == s[..a] && s[..b][a..] == s[a..b];
      MatchesOne(x, s[a..b], I);
      MatchesConcat(sep, [x], s[..b], a, I);
    }
  }

  lemma {:induction false} TimesToTail(x: Sym, sep: seq<Sym>, k: nat, s: string, I: Interp)
    requires MatchesTimes(Group([Body(sep + [x])]), k, s, I)
    ensures ItemsBehind(x, k, s, sep, I)
    decreases k
  {
    var g := Group([Body(sep + [x])]);
    if k == 0 {
      assert EachMatches(x, [], I) && Tail([], s, sep, I);
    } else {
      var b :| 0 <= b <= |s| && Matches(g, s[..b], I) && MatchesTimes(g, k - 1, s[b..], I);
      TimesToTail(x, sep, k - 1, s[b..], I);
      GroupIsItem(x, sep, s, b, I);
      TailCons(x, k - 1, s, b, sep, I);
    }
  }

  lemma {:induction false} TailToTimes(x: Sym, sep: seq<Sym>, k: nat, s: string, I: Interp)
    requires ItemsBehind(x, k, s, sep, I)
    ensures MatchesTimes(Group([Body(sep + [x])]), k, s, I)
    decreases k
  {
    if k > 0 {
      var b := TailUncons(x, k - 1, s, sep, I);
      TailToTimes(x, sep, k - 1, s[b..], I);
      GroupIsItem(x, sep, s, b, I);
    }
  }

  /** k groups of separator and item are a tail of k items. */
  lemma TimesIsTail(x: Sym, sep: seq<Sym>, k: nat, s: string, I: Interp)
    ensures MatchesTimes(Group([Body(sep + [x])]), k, s, I) <==> ItemsBehind(x, k, s, sep, I)
  {
    if MatchesTimes(Group([Body(sep + [x])]), k, s, I) { TimesToTail(x, sep, k, s, I); }
    if ItemsBehind(x, k, s, sep, I) { TailToTimes(x, sep, k, s, I); }
  }

  lemma BareItem(x: Sym, s: string, b: nat, I: Interp)
    requires b <= |s|
    ensures Matches(x, s[..b], I) <==> ItemUpTo(x, s, b, [], I)
  {
    assert s[0..b] == s[..b] && s[..0] == "";
    if Matches(x, s[..b], I) { assert ItemAt(x, s, 0, b, [], I); }
    if ItemUpTo(x, s, b, [], I) {
      var a: nat :| ItemAt(x, s, a, b, [], I);
      assert a == 0;
    }
  }

  /** Without separator, k copies are k items in a row. */
  lemma {:induction false} RowOfTimes(x: Sym, k: nat, s: string, I: Interp)
    requires MatchesTimes(x, k, s, I)
    ensures ItemsBehind(x, k, s, [], I)
    decreases k
  {
    if k == 0 {
      assert EachMatches(x, [], I) && Tail([], s, [], I);
    } else {
      var b :| 0 <= b <= |s| && Matches(x, s[..b], I) && MatchesTimes(x, k - 1, s[b..], I);
      RowOfTimes(x, k - 1, s[b..], I);
      BareItem(x, s, b, I);
      TailCons(x, k - 1, s, b, [], I);
    }
  }

  lemma {:induction false} TimesOfRow(x: Sym, k: nat, s: string, I: Interp)
    requires ItemsBehind(x, k, s, [], I)
    ensures MatchesTimes(x, k, s, I)
    decreases k
  {
    if k > 0 {
      var b := TailUncons(x, k - 1, s, [], I);
      TimesOfRow(x, k - 1, s[b..], I);
      BareItem(x, s, b, I);
    }
  }

  lemma TailIsJoined(items: seq<string>, s: string, I: Interp)
    ensures Tail(items, s, [], I) <==> Joined(items, s, [], I)
  {
    if items != [] {
      if Tail(items, s, [], I) {
        var a: nat, b: nat :| Step(items[0], s, a, b, [], I) && Tail(items[1..], s[b..], [], I);
        assert s[..a] == "" && s[..b] == items[0];
      }
      if Joined(items, s, [], I) {
        assert Step(items[0], s, 0, |items[0]|, [], I);
      }
    }
  }

  /** A repetition without separator. */
  lemma PlainRepetition(x: Sym, lo: nat, hi: Option<nat>, s: string, I: Interp)
    ensures MatchesSyms([Rep(x, lo, hi)], s, I) <==> UnrolledList(x, lo, hi, [], s, I)
  {
    MatchesOne(Rep(x, lo, hi), s, I);
    if UnrolledList(x, lo, hi, [], s, I) {
      var items :| RepCount(lo, hi, |items|) && EachMatches(x, items, I) && Joined(items, s, [], I);
      TailIsJoined(items, s, I);
      TimesOfRow(x, |items|, s, I);
    }
    if Matches(Rep(x, lo, hi), s, I) {
      var k: nat :| RepCount(lo, hi, k) && MatchesTimes(x, k, s, I);
      RowOfTimes(x, k, s, I);
      var items :| |items| == k && EachMatches(x, items, I) && Tail(items, s, [], I);
      TailIsJoined(items, s, I);
    }
  }

  /** At least one item: a first one and a tail. */
  ghost predicate NonEmptyList(x: Sym, lo: nat, hi: Option<nat>, sep: seq<Sym>, s: string, I: Interp) {
    exists items :: items != [] && RepCount(lo, hi, |items| - 1) && EachMatches(x, items, I) && Joined(items, s, sep, I)
  }

  lemma FirstAndTail(x: Sym, lo: nat, hi: Option<nat>, sep: seq<Sym>, s: string, I: Interp)
    ensures MatchesSyms([x, Rep(Group([Body(sep + [x])]), lo, hi)], s, I) <==> NonEmptyList(x, lo, hi, sep, s, I)
  {
    var g := Group([Body(sep + [x])]);
    var more := Rep(g, lo, hi);
    var xs := [x, more];
    assert xs[1..] == [more];
    if MatchesSyms(xs, s, I) {
      var i :| 0 <= i <= |s| && Matches(x, s[..i], I) && MatchesSyms([more], s[i..], I);
      MatchesOne(more, s[i..], I);
      var k: nat :| RepCount(lo, hi, k) && MatchesTimes(g, k, s[i..], I);
      TimesIsTail(x, sep, k, s[i..], I);
      ConsItem(x, k, s, i, lo, hi, sep, I);
    }
    if NonEmptyList(x, lo, hi, sep, s, I) {
      var i, k := UnconsItem(x, s, lo, hi, sep, I);
      TimesIsTail(x, sep, k, s[i..], I);
      assert Matches(more, s[i..], I);
      MatchesOne(more, s[i..], I);
    }
  }

  lemma UnconsItem(x: Sym, s: string, lo: nat, hi: Option<nat>, sep: seq<Sym>, I: Interp) returns (i: nat, k: nat)
    requires NonEmptyList(x, lo, hi, sep, s, I)
    ensures i <= |s| && Matches(x, s[..i], I) && ItemsBehind(x, k, s[i..], sep, I) && RepCount(lo, hi, k)
  {
    var items :| items != [] && RepCount(lo, hi, |items| - 1) && EachMatches(x, items, I) && Joined(items, s, sep, I);
    i, k := |items[0]|, |items| - 1;
    assert s[..i] == items[0];
    assert EachMatches(x, items[1..], I) && |items[1..]| == k;
  }

  lemma ConsItem(x: Sym, k: nat, s: string, i: nat, lo: nat, hi: Option<nat>, sep: seq<Sym>, I: Interp)
    requires i <= |s| && Matches(x, s[..i], I) && ItemsBehind(x, k, s[i..], sep, I) && RepCount(lo, hi, k)
    ensures NonEmptyList(x, lo, hi, sep, s, I)
  {
    var items :| |items| == k && EachMatches(x, items, I) && Tail(items, s[i..], sep, I);
    var all := [s[..i]] + items;
    assert all[0] == s[..i] && all[1..] == items;
    assert EachMatches(x, all, I) && Joined(all, s, sep, I);
  }

  /** The emitted grammar accepts exactly the lists of as many items as the parser makes copies, separated. */
  lemma RepetitionUnrolls(x: Sym, minItems: nat, maxItems: int, sep: seq<Sym>, s: string, I: Interp)
    requires 0 <= maxItems <= INT_MAX && (sep != [] ==> maxItems != 0)
    ensures MatchesSyms(RepetitionSyms(x, minItems, maxItems, sep), s, I) <==>
            UnrolledList(x, minItems, MaxOf(maxItems), sep, s, I)
  {
    var hi := MaxOf(maxItems);
    if sep == [] {
      PlainRepetition(x, minItems, hi, s, I);
    } else if minItems == 0 && maxItems == 1 {
      PlainRepetition(x, 0, hi, s, I);
      AtMostOne(x, sep, s, I);
    } else {
      var lo' := if minItems == 0 then 0 else minItems - 1;
      var hi': Option<nat> := if maxItems == INT_MAX then None else Some(maxItems - 1);
      FirstAndTail(x, lo', hi', sep, s, I);
      OneMore(x, minItems, maxItems, sep, s, I);
      if minItems == 0 {
        var body := [x, Rep(Group([Body(sep + [x])]), lo', hi')];
        MatchesOne(Opt(Group([Body(body)])), s, I);
        OptMatches(Group([Body(body)]), s, I);
        MatchesAltsOne(body, s, I);
      }
    }
  }

  /** The emitted grammar accepts exactly the lists of an admissible number of items, separated, if the minimum is not
      above the maximum. */
  lemma RepetitionMeans(x: Sym, minItems: nat, maxItems: int, sep: seq<Sym>, s: string, I: Interp)
    requires 0 <= maxItems <= INT_MAX && (sep != [] ==> maxItems != 0)
    requires maxItems == INT_MAX || minItems <= maxItems
    ensures MatchesSyms(RepetitionSyms(x, minItems, maxItems, sep), s, I) <==>
            ListOf(x, minItems, MaxOf(maxItems), sep, s, I)
  {
    RepetitionUnrolls(x, minItems, maxItems, sep, s, I);
    forall k: nat ensures Admits(minItems, MaxOf(maxItems), k) <==> RepCount(minItems, MaxOf(maxItems), k) { }
  }

  /** Otherwise it accepts lists of minItems items, which are too long: with an item and a separator that match
      something, it is exact if and only if the minimum is not above the maximum. */
  lemma RepetitionExact(x: Sym, minItems: nat, maxItems: int, sep: seq<Sym>, item: string, glue: string, J: Interp)
    requires 0 <= maxItems <= INT_MAX && (sep != [] ==> maxItems != 0)
    requires Matches(x, item, J) && MatchesSyms(sep, glue, J)
    ensures (forall s, I :: MatchesSyms(RepetitionSyms(x, minItems, maxItems, sep), s, I) <==>
                            ListOf(x, minItems, MaxOf(maxItems), sep, s, I))
            <==> maxItems == INT_MAX || minItems <= maxItems
  {
    if maxItems == INT_MAX || minItems <= maxItems {
      forall s, I
        ensures MatchesSyms(RepetitionSyms(x, minItems, maxItems, sep), s, I) <==>
                ListOf(x, minItems, MaxOf(maxItems), sep, s, I)
      {
        RepetitionMeans(x, minItems, maxItems, sep, s, I);
      }
    } else {
      var items, s := Copies(x, minItems, sep, item, glue, J);
      assert RepCount(minItems, MaxOf(maxItems), |items|);
      RepetitionUnrolls(x, minItems, maxItems, sep, s, J);
      assert !ListOf(x, minItems, MaxOf(maxItems), sep, s, J);
    }
  }

  /** From three to one: three items are accepted. */
  lemma ThreeToOne()
    ensures exists s, I :: MatchesSyms(RepetitionSyms(Lit("1"), 3, 1, [Lit(",")]), s, I)
                           && !ListOf(Lit("1"), 3, MaxOf(1), [Lit(",")], s, I)
  {
    MatchesOne(Lit(","), ",", iset{});
    RepetitionExact(Lit("1"), 3, 1, [Lit(",")], "1", ",", iset{});
    assert forall s, I :: !ListOf(Lit("1"), 3, MaxOf(1), [Lit(",")], s, I);
  }

  /** A list of n copies. */
  lemma Copies(x: Sym, n: nat, sep: seq<Sym>, item: string, glue: string, I: Interp)
    returns (items: seq<string>, s: string)
    requires n > 0 && Matches(x, item, I) && MatchesSyms(sep, glue, I)
    ensures |items| == n && EachMatches(x, items, I) && Joined(items, s, sep, I)
  {
    var more, t := TailCopies(x, n - 1, sep, item, glue, I);
    items, s := [item] + more, item + t;
    assert items[1..] == more && s[|item|..] == t && item <= s;
  }

  lemma {:induction false} TailCopies(x: Sym, n: nat, sep: seq<Sym>, item: string, glue: string, I: Interp)
    returns (items: seq<string>, s: string)
    requires Matches(x, item, I) && MatchesSyms(sep, glue, I)
    ensures |items| == n && EachMatches(x, items, I) && Tail(items, s, sep, I)
  {
    if n == 0 {
      items, s := [], "";
    } else {
      var more, t := TailCopies(x, n - 1, sep, item, glue, I);
      items, s := [item] + more, glue + (item + t);
      var a, b := |glue|, |glue| + |item|;
      assert s[..a] == glue && s[a..b] == item && s[b..] == t && items[1..] == more;
      assert Step(items[0], s, a, b, sep, I);
    }
  }

  /** For at most one item the separator does not matter. */
  lemma AtMostOne(x: Sym, sep: seq<Sym>, s: string, I: Interp)
    ensures UnrolledList(x, 0, Some(1), [], s, I) <==> UnrolledList(x, 0, Some(1), sep, s, I)
  {
    forall items: seq<string> | |items| <= 1 ensures Joined(items, s, [], I) <==> Joined(items, s, sep, I) {
      if |items| == 1 { assert items[1..] == []; }
    }
  }

  lemma OneMore(x: Sym, minItems: nat, maxItems: int, sep: seq<Sym>, s: string, I: Interp)
    requires 1 <= maxItems <= INT_MAX && !(minItems == 0 && maxItems == 1)
    ensures var n := NonEmptyList(x, if minItems == 0 then 0 else minItems - 1,
                                  if maxItems == INT_MAX then None else Some(maxItems - 1), sep, s, I);
            UnrolledList(x, minItems, MaxOf(maxItems), sep, s, I) <==> if minItems == 0 then s == "" || n else n
  {
    var lo' := if minItems == 0 then 0 else minItems - 1;
    var hi': Option<nat> := if maxItems == INT_MAX then None else Some(maxItems - 1);
    forall items: seq<string> | items != []
      ensures RepCount(lo', hi', |items| - 1) <==> RepCount(minItems, MaxOf(maxItems), |items|)
    {
    }
    if minItems == 0 && s == "" {
      assert RepCount(0, MaxOf(maxItems), 0) && EachMatches(x, [], I) && Joined([], s, sep, I);
    }
  }

  // ---------------------------------------------------------------------------------------------
  // The text cannot be read when there is a separator and the maximum is 0
  // ---------------------------------------------------------------------------------------------

  /** With a separator the emitted text can be read if and only if the maximum is not 0. */
  lemma ReadableUnlessNone(x: Sym, minItems: nat, maxItems: int, sep: seq<Sym>, rest: seq<Tok>, acc: seq<Sym>)
    requires 0 <= maxItems <= INT_MAX && sep != [] && Ok(x) && OkSyms(sep)
    requires rest == [] || rest[0].TBar? || rest[0].TClose?
    ensures ParseSyms(BuildRepetition(Show(x), minItems, maxItems, ShowSyms(sep)) + rest, acc).Some? <==> maxItems != 0
  {
    var ts := BuildRepetition(Show(x), minItems, maxItems, ShowSyms(sep));
    if maxItems != 0 {
      RepetitionReads(x, minItems, maxItems, sep);
      ParseShowSyms(RepetitionSyms(x, minItems, maxItems, sep), rest, acc);
    } else {
      var g := SeparatedItem(x, sep);
      SeparatedText(x, minItems, maxItems, sep, g);
      var lo := if minItems == 0 then 0 else minItems - 1;
      if minItems == 0 {
        Unreadable(x, g, lo, [TClose, OPT] + rest, []);
        UnreadableGroup(Show(x) + (Show(g) + [TRep(lo, Some(-1))]), Show(x), Show(g), TRep(lo, Some(-1)), rest, acc);
      } else {
        Unreadable(x, g, lo, rest, acc);
        Regrouped(Show(x), Show(g), TRep(lo, Some(-1)), rest);
      }
    }
  }

  lemma Regrouped(a: seq<Tok>, b: seq<Tok>, t: Tok, c: seq<Tok>)
    ensures a + (b + [t]) + c == a + (b + ([t] + c))
  {
  }

  lemma UnreadableGroup(body: seq<Tok>, a: seq<Tok>, b: seq<Tok>, t: Tok, rest: seq<Tok>, acc: seq<Sym>)
    requires body == a + (b + [t]) && ParseSyms(a + (b + ([t] + ([TClose, OPT] + rest))), []).None?
    ensures ParseSyms([TOpen] + body + [TClose, OPT] + rest, acc).None?
  {
    var ts := [TOpen] + body + [TClose, OPT] + rest;
    Regrouped(a, b, t, [TClose, OPT] + rest);
    assert ts[0] == TOpen && ts[1..] == body + ([TClose, OPT] + rest);
  }

  lemma Unreadable(x: Sym, g: Sym, lo: nat, rest: seq<Tok>, acc: seq<Sym>)
    requires Ok(x) && Ok(g)
    ensures ParseSyms(Show(x) + (Show(g) + ([TRep(lo, Some(-1))] + rest)), acc).None?
  {
    var bad := [TRep(lo, Some(-1))] + rest;
    ParseShow(x, Show(g) + bad, acc);
    ParseShow(g, bad, acc + [x]);
  }
}
