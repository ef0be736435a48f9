/** The class of characters that start no child of a trie node, and how a dash in it reads.

    The characters are written in ascending order, behind the quote. A dash that is not the last of them does not
    stand for itself: the parser reads it as a range between its neighbours. */
module KeyClasses {
  import opened Options
  import opened Gbnf
  import opened Symbols

  /** Printable ASCII characters that stand for themselves in literals, in classes and in a JSON dump. */
  predicate IsPlain(c: char) { 0x20 as char <= c < 0x7F as char && c !in {'"', '\\', ']', '^'} }

  predicate PlainText(s: string) { forall i :: 0 <= i < |s| ==> IsPlain(s[i]) }

  predicate Ascending(s: string) { forall i, j :: 0 <= i < j < |s| ==> s[i] < s[j] }

  /** The neighbour of the dash before it: the greatest character below it, or else the quote. */
  ghost predicate IsBefore(S: set<char>, p: char) {
    if exists c :: c in S && c < '-' then p in S && p < '-' && forall c :: c in S && c < '-' ==> c <= p
    else p == '"'
  }

  /** The neighbour of the dash behind it: the least character above it. */
  predicate IsAfter(S: set<char>, y: char) { y in S && y > '-' && forall c :: c in S && c > '-' ==> y <= c }

  /** The range that a dash among the characters S spans. */
  ghost predicate InDashRange(S: set<char>, d: char) {
    '-' in S && exists p, y :: Spans(S, p, y, d)
  }

  ghost predicate Spans(S: set<char>, p: char, y: char, d: char) { IsBefore(S, p) && IsAfter(S, y) && p <= d <= y }

  /** What the class excludes as the parser reads it. */
  ghost predicate Excluded(S: set<char>, d: char) { d == '"' || d in S || InDashRange(S, d) }

  /** A dash beside a greater character does no harm only if its neighbours are its neighbours in ASCII. */
  predicate DashSafe(S: set<char>) {
    '-' in S && (exists y :: y in S && y > '-') ==> ',' in S && '.' in S
  }

  // ---------------------------------------------------------------------------------------------
  // Smallest and greatest characters
  // ---------------------------------------------------------------------------------------------

  lemma SomeChar(S: set<char>)
    ensures S == {} || exists c :: c in S
  {
    if forall c :: c !in S { assert S == {}; }
  }

  predicate IsLeast(S: set<char>, c: char) { c in S && forall d :: d in S ==> c <= d }

  lemma {:induction false} HasLeast(S: set<char>)
    requires S != {}
    ensures exists c :: IsLeast(S, c)
    decreases |S|
  {
    SomeChar(S);
    var c :| c in S;
    var rest := S - {c};
    if rest == {} {
      assert S == {c};
      assert IsLeast(S, c);
    } else {
      HasLeast(rest);
      var d :| IsLeast(rest, d);
      var least := if c < d then c else d;
      forall e | e in S ensures least <= e { if e != c { assert e in rest; } }
      assert IsLeast(S, least);
    }
  }

  lemma {:induction false} HasGreatest(S: set<char>) returns (c: char)
    requires S != {}
    ensures c in S && forall d :: d in S ==> d <= c
    decreases |S|
  {
    SomeChar(S);
    c :| c in S;
    var rest := S - {c};
    var first := c;
    if rest != {} {
      var d := HasGreatest(rest);
      c := if c < d then d else c;
    }
    forall e | e in S ensures e <= c { if e != first { assert e in rest; } }
  }

  lemma HasAfter(S: set<char>) returns (y: char)
    requires exists c :: c in S && c > '-'
    ensures IsAfter(S, y)
  {
    var above := set c | c in S && c > '-';
    var c :| c in S && c > '-';
    assert c in above;
    HasLeast(above);
    y :| IsLeast(above, y);
    forall e | e in S && e > '-' ensures y <= e { assert e in above; }
  }

  lemma HasBefore(S: set<char>) returns (p: char)
    ensures IsBefore(S, p) && p < '-'
  {
    var below := set c | c in S && c < '-';
    assert forall c :: c in S && c < '-' ==> c in below;
    if below == {} {
      p := '"';
    } else {
      p := HasGreatest(below);
    }
  }

  /** A dash reads as it should exactly if it is safe; an unsafe one excludes a plain character too many. */
  lemma SafeDash(S: set<char>, d: char)
    requires DashSafe(S) && InDashRange(S, d)
    ensures d in S
  {
    var p, y :| Spans(S, p, y, d);
  }

  lemma UnsafeDash(S: set<char>) returns (d: char)
    requires !DashSafe(S)
    ensures IsPlain(d) && d !in S && Excluded(S, d)
  {
    var y := HasAfter(S);
    var p := HasBefore(S);
    d := if '.' in S then ',' else '.';
    assert Spans(S, p, y, d);
  }

  // ---------------------------------------------------------------------------------------------
  // Reading the class
  // ---------------------------------------------------------------------------------------------

  function Singles(text: string): seq<(char, char)> {
    if text == "" then [] else [(text[0], text[0])] + Singles(text[1..])
  }

  /** Characters that are neither a dash nor special read as themselves. */
  lemma {:induction false} SinglesRead(u: string, t: string)
    requires forall i :: 0 <= i < |u| ==> u[i] !in {']', '\\', '-'}
    requires ReadRanges(t).Some? && (|t| < 2 || t[0] != '-')
    ensures ReadRanges(u + t) == Some(Singles(u) + ReadRanges(t).value)
    decreases |u|
  {
    if u == "" {
      assert u + t == t && Singles(u) + ReadRanges(t).value == ReadRanges(t).value;
    } else {
      SinglesRead(u[1..], t);
      OneSingleMore(u, t, ReadRanges(t).value);
    }
  }

  lemma OneSingleMore(u: string, t: string, d: seq<(char, char)>)
    requires u != "" && (forall i :: 0 <= i < |u| ==> u[i] !in {']', '\\', '-'}) && (|t| < 2 || t[0] != '-')
    requires ReadRanges(u[1..] + t) == Some(Singles(u[1..]) + d)
    ensures ReadRanges(u + t) == Some(Singles(u) + d)
  {
    BehindFirst(u, t);
    SingleThen(u + t, u[0], u[1..] + t, Singles(u[1..]), d);
  }

  lemma BehindFirst(u: string, t: string)
    requires u != "" && (forall i :: 0 <= i < |u| ==> u[i] !in {']', '\\', '-'}) && (|t| < 2 || t[0] != '-')
    ensures (u + t)[1..] == u[1..] + t && (u + t)[0] == u[0]
    ensures |u[1..] + t| < 2 || (u[1..] + t)[0] != '-'
  {
    if |u| == 1 {
      assert u[1..] + t == t;
    } else {
      assert (u[1..] + t)[0] == u[1];
    }
  }

  lemma SingleThen(text: string, c: char, rest: string, b: seq<(char, char)>, d: seq<(char, char)>)
    requires text != "" && text[0] == c && text[1..] == rest && c !in {']', '\\'}
    requires ReadRanges(rest) == Some(b + d) && (|rest| < 2 || rest[0] != '-')
    ensures ReadRanges(text) == Some(([(c, c)] + b) + d)
  {
    PlainCharacter(text, c);
    OneCharacterReads(text, 1, c, rest);
    assert [(c, c)] + (b + d) == ([(c, c)] + b) + d;
  }

  lemma {:induction false} InSingles(u: string, d: char)
    ensures InRanges(Singles(u), d) <==> d in u
  {
    if u != "" {
      InSingles(u[1..], d);
      assert u == [u[0]] + u[1..];
      InBoth([(u[0], u[0])], Singles(u[1..]), d);
      InOne(u[0], u[0], d);
    }
  }

  lemma InOne(lo: char, hi: char, d: char)
    ensures InRanges([(lo, hi)], d) <==> lo <= d <= hi
  {
    var r := (lo, hi);
    assert r in [r];
  }

  lemma InBoth(a: seq<(char, char)>, b: seq<(char, char)>, d: char)
    ensures InRanges(a + b, d) <==> InRanges(a, d) || InRanges(b, d)
  {
    if InRanges(a, d) {
      var r :| r in a && r.0 <= d <= r.1;
      assert r in a + b;
    }
    if InRanges(b, d) {
      var r :| r in b && r.0 <= d <= r.1;
      assert r in a + b;
    }
  }

  function CharSetOf(r: string): set<char> { set i | 0 <= i < |r| :: r[i] }

  /** Without a dash, or with one at the end, the characters exclude themselves. */
  lemma ReadsWithoutDash(u: string, d: char)
    requires forall i :: 0 <= i < |u| ==> u[i] !in {']', '\\', '-'}
    ensures ReadRanges(u).Some? && (InRanges(ReadRanges(u).value, d) <==> d in u)
  {
    assert u + "" == u && Singles(u) + [] == Singles(u);
    assert ReadRanges("") == Some([]);
    SinglesRead(u, "");
    InSingles(u, d);
  }

  lemma ReadsWithLastDash(u: string, d: char)
    requires forall i :: 0 <= i < |u| ==> u[i] !in {']', '\\', '-'}
    ensures ReadRanges(u + "-").Some? && (InRanges(ReadRanges(u + "-").value, d) <==> d in u || d == '-')
  {
    PlainCharacter("-", '-');
    assert ReadRanges("") == Some([]);
    OneCharacterReads("-", 1, '-', "");
    var dash := [('-', '-')];
    assert dash + [] == dash;
    SinglesRead(u, "-");
    InBoth(Singles(u), dash, d);
    InSingles(u, d);
    InOne('-', '-', d);
  }

  /** A dash with a greater character behind it reads as a range from u's last character to y. */
  lemma ReadsWithRange(u: string, p: char, y: char, v: string, d: char)
    requires p !in {']', '\\', '-'} && y !in {']', '\\'}
    requires forall i :: 0 <= i < |u| ==> u[i] !in {']', '\\', '-'}
    requires forall i :: 0 <= i < |v| ==> v[i] !in {']', '\\', '-'}
    ensures var text := u + ([p, '-', y] + v);
            ReadRanges(text).Some? && (InRanges(ReadRanges(text).value, d) <==> d in u || p <= d <= y || d in v)
  {
    assert v + "" == v && Singles(v) + [] == Singles(v);
    SinglesRead(v, "");
    var t := [p, '-', y] + v;
    OneRangeReads(t, p, y, v);
    SinglesRead(u, t);
    InBoth(Singles(u), ReadRanges(t).value, d);
    InBoth([(p, y)], Singles(v), d);
    InOne(p, y, d);
    InSingles(u, d);
    InSingles(v, d);
  }

  /** The neighbours of a dash at place j of the ascending characters. */
  lemma Neighbours(r: string, j: nat)
    requires PlainText(r) && Ascending(r) && j + 1 < |r| && r[j] == '-'
    ensures IsBefore(CharSetOf(r), if j == 0 then '"' else r[j - 1]) && IsAfter(CharSetOf(r), r[j + 1])
  {
    var S := CharSetOf(r);
    assert r[j + 1] in S;
    forall c | c in S ensures (c < '-' ==> j > 0 && c <= r[j - 1]) && (c > '-' ==> r[j + 1] <= c) {
      var i :| 0 <= i < |r| && r[i] == c;
    }
    if j > 0 { assert r[j - 1] in S; }
  }

  /** The neighbours are unique, so the range is. */
  lemma RangeIs(S: set<char>, p: char, y: char, d: char)
    requires '-' in S && IsBefore(S, p) && IsAfter(S, y)
    ensures InDashRange(S, d) <==> p <= d <= y
  {
    if InDashRange(S, d) {
      var p', y' :| Spans(S, p', y', d);
    }
    if p <= d <= y { assert Spans(S, p, y, d); }
  }

  lemma NoRange(S: set<char>, d: char)
    requires forall c :: c in S ==> c <= '-'
    ensures !InDashRange(S, d)
  {
  }

  lemma Glue(q: string, a: string, u: string, p: char, t: string)
    requires u + [p] == q + a
    ensures q + (a + t) == u + ([p] + t)
  {
    assert q + (a + t) == q + a + t && u + ([p] + t) == u + [p] + t;
  }

  /** The text in front of a dash and behind it. */
  lemma TextAround(r: string, j: nat) returns (u: string, p: char)
    requires j + 1 < |r|
    ensures p == (if j == 0 then '"' else r[j - 1]) && u + [p] == ['"'] + r[..j]
    ensures ['"'] + r == u + ([p, r[j], r[j + 1]] + r[j + 2..])
  {
    var before := ['"'] + r[..j];
    u, p := before[..j], before[j];
    var m, v := [r[j], r[j + 1]], r[j + 2..];
    assert r == r[..j] + (m + v);
    assert [p, r[j], r[j + 1]] + v == [p] + (m + v);
    Glue(['"'], r[..j], u, p, m + v);
  }

  lemma ReadsMiddleDash(r: string, j: nat, d: char)
    requires PlainText(r) && Ascending(r) && j + 1 < |r| && r[j] == '-'
    ensures ReadRanges(['"'] + r).Some?
    ensures InRanges(ReadRanges(['"'] + r).value, d) <==> d == '"' || d in r || InDashRange(CharSetOf(r), d)
  {
    var u, p := TextAround(r, j);
    BeforeDash(r, j, u, p);
    ReadsWithRange(u, p, r[j + 1], r[j + 2..], d);
    Neighbours(r, j);
    assert r[j] in CharSetOf(r);
    RangeIs(CharSetOf(r), p, r[j + 1], d);
    Parts(r, j, d);
    assert d in u + [p] <==> d == '"' || d in r[..j];
  }

  lemma BeforeDash(r: string, j: nat, u: string, p: char)
    requires PlainText(r) && Ascending(r) && j + 1 < |r| && r[j] == '-' && u + [p] == ['"'] + r[..j]
    ensures p !in {']', '\\', '-'} && forall i :: 0 <= i < |u| ==> u[i] !in {']', '\\', '-'}
  {
    var before := ['"'] + r[..j];
    assert forall i :: 0 <= i < |u| ==> u[i] == before[i];
    assert p == before[|u|];
  }

  lemma Parts(r: string, j: nat, d: char)
    requires j + 1 < |r|
    ensures d in r <==> d in r[..j] || d == r[j] || d == r[j + 1] || d in r[j + 2..]
  {
    assert r == r[..j] + [r[j], r[j + 1]] + r[j + 2..];
  }

  lemma LastDash(r: string, u: string, d: char)
    requires r == u + "-"
    ensures ['"'] + r == (['"'] + u) + "-"
    ensures d in CharSetOf(r) <==> d in u || d == '-'
    ensures d in ['"'] + u <==> d == '"' || d in u
  {
    assert d in r <==> d in CharSetOf(r);
  }

  lemma ClassReadsLastDash(r: string, u: string, d: char)
    requires PlainText(r) && Ascending(r) && r == u + "-"
    ensures ReadRanges(['"'] + r).Some?
    ensures InRanges(ReadRanges(['"'] + r).value, d) <==> Excluded(CharSetOf(r), d)
  {
    LastDash(r, u, d);
    BeforeLast(r, u);
    ReadsWithLastDash(['"'] + u, d);
    NoRange(CharSetOf(r), d);
  }

  lemma BeforeLast(r: string, u: string)
    requires PlainText(r) && Ascending(r) && r == u + "-"
    ensures forall i :: 0 <= i < |['"'] + u| ==> (['"'] + u)[i] !in {']', '\\', '-'}
    ensures forall c :: c in CharSetOf(r) ==> c <= '-'
  {
    assert forall i :: 0 <= i < |u| ==> u[i] == r[i] && r[i] < r[|u|];
  }

  lemma ClassReads(r: string, d: char)
    requires PlainText(r) && Ascending(r)
    ensures ReadRanges(['"'] + r).Some?
    ensures InRanges(ReadRanges(['"'] + r).value, d) <==> Excluded(CharSetOf(r), d)
  {
    assert d in r <==> d in CharSetOf(r);
    if '-' !in r {
      ReadsWithoutDash(['"'] + r, d);
    } else if r[|r| - 1] == '-' {
      assert r == r[..|r| - 1] + "-";
      ClassReadsLastDash(r, r[..|r| - 1], d);
    } else {
      var j :| 0 <= j < |r| && r[j] == '-';
      ReadsMiddleDash(r, j, d);
    }
  }

  lemma NegatedClass(t: string, d: char)
    requires t != "" && t[0] == '"' && ReadRanges(t).Some?
    ensures Ok(Class(['^'] + t))
    ensures InClass(['^'] + t, d) <==> !InRanges(ReadRanges(t).value, d)
  {
    var body := ['^'] + t;
    assert body[0] == '^' && body[1..] == t;
    PlainCharacter(t, '"');
  }

  /** The closing class of a node with the children S. */
  lemma RejectClass(r: string, S: set<char>, d: char)
    requires PlainText(r) && Ascending(r) && S == CharSetOf(r)
    ensures Ok(Class(['^', '"'] + r))
    ensures InClass(['^', '"'] + r, d) <==> !Excluded(S, d)
  {
    ClassReads(r, d);
    NegatedClass(['"'] + r, d);
    assert ['^', '"'] + r == ['^'] + (['"'] + r);
  }
}
