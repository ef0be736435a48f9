/** Character classes and repetitions of them: which texts they accept. */
module ClassTexts {
  import opened Options
  import opened Gbnf
  import opened Symbols
  import opened KeyClasses

  // ---------------------------------------------------------------------------------------------
  // Class texts, one part at a time
  // ---------------------------------------------------------------------------------------------

  /** A class text that reads: c is in one of its ranges. */
  predicate Lists(text: string, c: char) { ReadRanges(text).Some? && InRanges(ReadRanges(text).value, c) }

  lemma NothingLists(c: char)
    ensures ReadRanges("") == Some([]) && !Lists("", c)
  {
  }

  lemma CharLists(text: string, n: nat, x: char, rest: string, c: char)
    requires ReadChar(text) == Some((x, n)) && text[n..] == rest && (|rest| < 2 || rest[0] != '-')
    requires ReadRanges(rest).Some?
    ensures ReadRanges(text).Some? && ReadRanges(text).value != [] && (Lists(text, c) <==> c == x || Lists(rest, c))
  {
    OneCharacterReads(text, n, x, rest);
    InBoth([(x, x)], ReadRanges(rest).value, c);
    InOne(x, x, c);
  }

  lemma RangeLists(text: string, lo: char, hi: char, rest: string, c: char)
    requires lo !in {']', '\\'} && hi !in {']', '\\'} && text == [lo, '-', hi] + rest && ReadRanges(rest).Some?
    ensures ReadRanges(text).Some? && ReadRanges(text).value != []
    ensures Lists(text, c) <==> lo <= c <= hi || Lists(rest, c)
  {
    OneRangeReads(text, lo, hi, rest);
    InBoth([(lo, hi)], ReadRanges(rest).value, c);
    InOne(lo, hi, c);
  }

  lemma ClassIsList(text: string, c: char)
    requires text != "" && text[0] != '^' && ReadRanges(text).Some? && ReadRanges(text).value != []
    ensures InClass(text, c) <==> Lists(text, c)
  {
  }

  predicate IsHex(c: char) { '0' <= c <= '9' || 'a' <= c <= 'f' || 'A' <= c <= 'F' }

  lemma HexClass(text: string, c: char)
    requires text == "0-9a-fA-F"
    ensures InClass(text, c) <==> IsHex(c)
  {
    var lower, upper := text[3..], text[6..];
    assert text == ['0', '-', '9'] + lower && lower == ['a', '-', 'f'] + upper && upper == ['A', '-', 'F'] + "";
    NothingLists(c);
    RangeLists(upper, 'A', 'F', "", c);
    RangeLists(lower, 'a', 'f', upper, c);
    RangeLists(text, '0', '9', lower, c);
    ClassIsList(text, c);
  }

  /** A class of two plain characters. */
  lemma TwoClass(text: string, x: char, y: char, c: char)
    requires text == [x, y] && x !in {']', '\\', '^'} && y !in {']', '\\'}
    ensures InClass(text, c) <==> c in {x, y}
  {
    NothingLists(c);
    PlainCharacter(text[1..], y);
    CharLists(text[1..], 1, y, "", c);
    PlainCharacter(text, x);
    CharLists(text, 1, x, text[1..], c);
    ClassIsList(text, c);
  }

  predicate IsBlankTab(c: char) { c in {' ', '\t'} }

  lemma BlankTabIs(text: string, c: char)
    requires text == " \\t"
    ensures InClass(text, c) <==> IsBlankTab(c)
  {
    NothingLists(c);
    assert ReadChar(text[1..]) == Some(('\t', 2));
    CharLists(text[1..], 2, '\t', "", c);
    PlainCharacter(text, ' ');
    CharLists(text, 1, ' ', text[1..], c);
    ClassIsList(text, c);
  }

  lemma BackslashClassIs(text: string, c: char)
    requires text == "\\\\"
    ensures InClass(text, c) <==> c == '\\'
  {
    NothingLists(c);
    EscapedBackslash(text);
    CharLists(text, 2, '\\', "", c);
    ClassIsList(text, c);
  }

  /** What may stand behind a backslash. */
  predicate IsEscape(c: char) { c in {'"', '\\', 'b', 'f', 'n', 'r', 't'} }

  lemma EscapeLetters(text: string, c: char)
    requires text == "bfnrt"
    ensures ReadRanges(text).Some? && (Lists(text, c) <==> c in {'b', 'f', 'n', 'r', 't'})
  {
    NothingLists(c);
    PlainCharacter(text[4..], 't');
    CharLists(text[4..], 1, 't', "", c);
    PlainCharacter(text[3..], 'r');
    CharLists(text[3..], 1, 'r', text[4..], c);
    PlainCharacter(text[2..], 'n');
    CharLists(text[2..], 1, 'n', text[3..], c);
    PlainCharacter(text[1..], 'f');
    CharLists(text[1..], 1, 'f', text[2..], c);
    PlainCharacter(text, 'b');
    CharLists(text, 1, 'b', text[1..], c);
  }

  lemma EscapeParts(text: string)
    requires text == "\"\\\\bfnrt"
    ensures text[0] == '"' && text[1] == text[2] == '\\' && text[3..] == "bfnrt"
    ensures text[1..][2..] == text[3..] && |text| == 8
  {
  }

  lemma EscapeClass(text: string, c: char)
    requires text == "\"\\\\bfnrt"
    ensures InClass(text, c) <==> IsEscape(c)
  {
    EscapeParts(text);
    EscapeLetters(text[3..], c);
    EscapedBackslash(text[1..]);
    CharLists(text[1..], 2, '\\', text[3..], c);
    PlainCharacter(text, '"');
    CharLists(text, 1, '"', text[1..], c);
    ClassIsList(text, c);
  }

  // ---------------------------------------------------------------------------------------------
  // Repetitions
  // ---------------------------------------------------------------------------------------------

  /** The class is the characters of which P holds. */
  ghost predicate ClassOf(text: string, P: char -> bool) { forall c :: InClass(text, c) <==> P(c) }

  predicate AllOf(P: char -> bool, t: string) { forall i :: 0 <= i < |t| ==> P(t[i]) }

  lemma {:induction false} TimesAllOf(text: string, P: char -> bool, k: nat, t: string, I: Interp)
    requires ClassOf(text, P) && MatchesTimes(Class(text), k, t, I)
    ensures |t| == k && AllOf(P, t)
    decreases k
  {
    if k > 0 {
      var i :| 0 <= i <= |t| && Matches(Class(text), t[..i], I) && MatchesTimes(Class(text), k - 1, t[i..], I);
      TimesAllOf(text, P, k - 1, t[i..], I);
      assert i == 1 && t[..1][0] == t[0];
      forall j | 0 <= j < |t| ensures P(t[j]) { if j > 0 { assert t[1..][j - 1] == t[j]; } }
    }
  }

  lemma {:induction false} AllOfTimes(text: string, P: char -> bool, t: string, I: Interp)
    requires ClassOf(text, P) && AllOf(P, t)
    ensures MatchesTimes(Class(text), |t|, t, I)
  {
    if t != "" {
      AllOfTimes(text, P, t[1..], I);
      assert t[..1] == [t[0]] && Matches(Class(text), t[..1], I);
    }
  }

  lemma ClassRep(text: string, P: char -> bool, lo: nat, hi: Option<nat>, t: string, I: Interp)
    requires ClassOf(text, P)
    ensures Matches(Rep(Class(text), lo, hi), t, I) <==> RepCount(lo, hi, |t|) && AllOf(P, t)
  {
    if k: nat :| RepCount(lo, hi, k) && MatchesTimes(Class(text), k, t, I) { TimesAllOf(text, P, k, t, I); }
    if AllOf(P, t) { AllOfTimes(text, P, t, I); }
  }

  /** So many characters of a class, then more symbols. */
  lemma RepThen(text: string, P: char -> bool, n: nat, rest: seq<Sym>, s: string, I: Interp)
    requires ClassOf(text, P)
    ensures MatchesSyms([Exactly(n, Class(text))] + rest, s, I) <==>
            |s| >= n && AllOf(P, s[..n]) && MatchesSyms(rest, s[n..], I)
  {
    var x := Exactly(n, Class(text));
    if MatchesSyms([x] + rest, s, I) {
      var i := MatchesSplit([x], rest, s, I);
      MatchesOne(x, s[..i], I);
      ClassRep(text, P, n, Some(n), s[..i], I);
      assert i == n;
    }
    if |s| >= n && AllOf(P, s[..n]) && MatchesSyms(rest, s[n..], I) {
      ClassRep(text, P, n, Some(n), s[..n], I);
      MatchesOne(x, s[..n], I);
      MatchesConcat([x], rest, s, n, I);
    }
  }
}
