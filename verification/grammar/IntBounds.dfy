/** What the grammars for integers with one bound accept: for which bounds that is what it should be. */
module IntBounds {
  import opened Options
  import opened Gbnf
  import opened Symbols
  import opened Decimal
  import opened IntRange

  // ---------------------------------------------------------------------------------------------
  // Numerals from a bound on
  // ---------------------------------------------------------------------------------------------

  /** Digit strings of at most `most` digits, leading zeros allowed, that are longer than m or not below it. */
  predicate InTail(m: string, most: nat, t: string) {
    AllDigits(t) && |m| <= |t| <= most && (|t| == |m| ==> Le(m, t))
  }

  function TailP(m: string, most: nat): string -> bool { t => InTail(m, most, t) }

  /** Numerals without leading zeros of at most `most` digits, from n on. */
  predicate FromOn(n: nat, most: nat, s: string) { Canonical(s) && |s| <= most && n <= Val(s) }

  function FromOnP(n: nat, most: nat): string -> bool { s => FromOn(n, most, s) }

  /** Every digit but the last is at least 2. */
  predicate TwosUp(d: string) { forall i :: 0 <= i < |d| - 1 ==> d[i] >= '2' }

  /** Every digit but the first and the last is. */
  predicate InnerTwosUp(s: string) { forall i :: 1 <= i < |s| - 1 ==> s[i] >= '2' }

  lemma InnerIsRest(s: string)
    requires s != ""
    ensures InnerTwosUp(s) <==> TwosUp(s[1..])
  {
    if TwosUp(s[1..]) {
      forall i | 1 <= i < |s| - 1 ensures s[i] >= '2' { assert s[1..][i - 1] == s[i]; }
    }
  }

  lemma TwosUpHead(s: string)
    requires |s| >= 2
    ensures TwosUp(s) <==> s[0] >= '2' && TwosUp(s[1..])
  {
    if s[0] >= '2' && TwosUp(s[1..]) {
      forall i | 0 <= i < |s| - 1 ensures s[i] >= '2' { if i > 0 { assert s[1..][i - 1] == s[i]; } }
    }
  }

  lemma FromOnIsTail(n: nat, most: nat, s: string)
    ensures FromOn(n, most, s) <==> Canonical(s) && InTail(ToString(n), most, s)
  {
    var m := ToString(n);
    ToStringValue(n);
    ToStringCanonical(n);
    if Canonical(s) {
      if |s| < |m| { LongerIsGreater(s, m); }
      if |m| < |s| { LongerIsGreater(m, s); }
      if |s| == |m| { LeIsNumeric(m, s); }
    }
  }

  /** The digit strings of a tail, by their first digit. */
  lemma TailByHead(m: string, most: nat, s: string)
    requires |m| >= 2 && AllDigits(m) && most >= 1
    ensures InTail(m, most, s) <==>
            && s != "" && IsDigit(s[0]) && AllDigits(s[1..]) && |s| <= most
            && (s[0] < m[0] ==> |s| > |m|)
            && (s[0] == m[0] ==> InTail(m[1..], most - 1, s[1..]))
            && (s[0] > m[0] ==> |s| >= |m|)
  {
    if s != "" { DigitsByHead(s); }
  }

  lemma DigitsByHead(s: string)
    requires s != ""
    ensures AllDigits(s) <==> IsDigit(s[0]) && AllDigits(s[1..])
  {
    if IsDigit(s[0]) && AllDigits(s[1..]) {
      forall i | 0 <= i < |s| ensures IsDigit(s[i]) { if i > 0 { assert s[1..][i - 1] == s[i]; } }
    }
  }

  lemma OneDigitTail(m: string, most: nat, s: string)
    requires |m| == 1 && AllDigits(m)
    ensures InTail(m, most, s) <==>
            s != "" && IsDigit(s[0]) && AllDigits(s[1..]) && |s| <= most && (s[0] < m[0] ==> |s| >= 2)
  {
    if s != "" { DigitsByHead(s); }
    if |s| == 1 { assert Le(m[1..], s[1..]); }
  }

  // ---------------------------------------------------------------------------------------------
  // The alternatives that are written
  // ---------------------------------------------------------------------------------------------

  /** A digit from lo to hi, and then so many digits. */
  predicate HeadAndMore(lo: char, hi: char, least: nat, most: nat, s: string) {
    s != "" && lo <= s[0] <= hi && AllDigits(s[1..]) && least <= |s| - 1 <= most
  }

  function DigitAlt(lo: char, hi: char, least: nat, most: nat): Body {
    Body([Class(DigitRangeText(lo, hi)), Digits(least, Some(most))])
  }

  lemma DigitAltMeans(lo: char, hi: char, least: nat, most: nat, s: string, I: Interp)
    requires NearDigit(lo) && NearDigit(hi) && least <= most
    ensures MatchesAlts([DigitAlt(lo, hi, least, most)], s, I) <==> HeadAndMore(lo, hi, least, most, s)
  {
    var x, y := Class(DigitRangeText(lo, hi)), Digits(least, Some(most));
    assert [x] + [y] == [x, y];
    MatchesAltsOne([x] + [y], s, I);
    ClassThen(DigitRangeText(lo, hi), [y], s, I);
    if s != "" {
      DigitClass(lo, hi, s[0]);
      DigitsMatch(least, Some(most), s[1..], I);
    }
  }

  function SameAlt(c: char, inner: seq<Body>): Body { Body([Class(DigitRangeText(c, c)), Group(inner)]) }

  lemma SameAltMeans(c: char, inner: seq<Body>, s: string, I: Interp)
    requires NearDigit(c)
    ensures MatchesAlts([SameAlt(c, inner)], s, I) <==> s != "" && s[0] == c && MatchesAlts(inner, s[1..], I)
  {
    var x, y := Class(DigitRangeText(c, c)), Group(inner);
    assert [x] + [y] == [x, y];
    MatchesAltsOne([x] + [y], s, I);
    ClassThen(DigitRangeText(c, c), [y], s, I);
    if s != "" {
      DigitClass(c, c, s[0]);
      MatchesOne(y, s[1..], I);
    }
  }

  /** The alternatives for a minimum of `len` digits that begins with c; `start` is the least digit written. */
  function LongAlts(start: char, c: char, len: nat, less: nat, inner: seq<Body>): seq<Body>
    requires IsDigit(c) && len >= 1
  {
    (if c > '1' then [DigitAlt(start, (c as int - 1) as char, len, less)] else [])
    + [SameAlt(c, inner)]
    + (if c < '9' then [DigitAlt((c as int + 1) as char, '9', len - 1, less)] else [])
  }

  lemma LongAltsMean(start: char, c: char, len: nat, less: nat, inner: seq<Body>, s: string, I: Interp)
    requires start in {'0', '1'} && IsDigit(c) && 1 <= len <= less
    ensures MatchesAlts(LongAlts(start, c, len, less, inner), s, I) <==>
            || (c > '1' && HeadAndMore(start, (c as int - 1) as char, len, less, s))
            || (s != "" && s[0] == c && MatchesAlts(inner, s[1..], I))
            || (c < '9' && HeadAndMore((c as int + 1) as char, '9', len - 1, less, s))
  {
    var below := if c > '1' then [DigitAlt(start, (c as int - 1) as char, len, less)] else [];
    var above := if c < '9' then [DigitAlt((c as int + 1) as char, '9', len - 1, less)] else [];
    MatchesAltsConcat(below + [SameAlt(c, inner)], above, s, I);
    MatchesAltsConcat(below, [SameAlt(c, inner)], s, I);
    SameAltMeans(c, inner, s, I);
    if c > '1' { DigitAltMeans(start, (c as int - 1) as char, len, less, s, I); }
    if c < '9' { DigitAltMeans((c as int + 1) as char, '9', len - 1, less, s, I); }
  }

  // ---------------------------------------------------------------------------------------------
  // When they are exact
  // ---------------------------------------------------------------------------------------------

  /** The alternatives for what may follow, given up to n, where `most` digits are left; it accepts nines of every
      possible length. */
  ghost predicate TailExactly(inner: seq<Body>, n: nat, most: nat) {
    && (DenotesAlts(inner, TailP(ToString(n), most)) <==> TwosUp(ToString(n)))
    && TakesNines(inner, |ToString(n)|, most)
  }

  lemma ExactByAll(alts: seq<Body>, P: string -> bool)
    requires forall s, I :: MatchesAlts(alts, s, I) <==> P(s)
    ensures DenotesAlts(alts, P)
  {
  }

  lemma NinesInTail(m: string, k: nat, most: nat)
    requires AllDigits(m) && |m| <= k <= most
    ensures InTail(m, most, Nines(k))
  {
    if k == |m| { NinesGreatest(m); }
  }

  lemma NotDenoted(alts: seq<Body>, P: string -> bool, s: string)
    requires Accepts(alts, s) && !P(s)
    ensures !DenotesAlts(alts, P)
  {
    var I: Interp := iset{};
    assert MatchesAlts(alts, s, I);
  }

  /** The rest d of a minimum is passed on as a number: without leading zeros, that is exact as its digits tell. */
  lemma RestExactly(d: string, inner: seq<Body>, most: nat)
    requires d != "" && AllDigits(d) && |d| <= most && TailExactly(inner, Val(d), most)
    ensures DenotesAlts(inner, TailP(d, most)) <==> TwosUp(d)
  {
    var m := ToString(Val(d));
    if Canonical(d) {
      CanonicalUnique(d, Val(d));
    } else {
      ZeroHead(d);
      assert Accepts(inner, Nines(|m|));
      NotDenoted(inner, TailP(d, most), Nines(|m|));
    }
  }

  /** With a leading zero, the number has fewer digits; and the zero is not the last digit. */
  lemma ZeroHead(d: string)
    requires d != "" && AllDigits(d) && !Canonical(d)
    ensures |ToString(Val(d))| < |d| && !TwosUp(d)
  {
    ValHead(d);
    var m := ToString(Val(d));
    ToStringValue(Val(d));
    ToStringCanonical(Val(d));
    ValBelow(d[1..]);
    if |m| >= |d| {
      ValAtLeast(m);
      Pow10Mono(|d| - 1, |m| - 1);
    }
  }

  /** What follows the first digit decides, if all smaller first digits are provided for. */
  lemma LongExact(start: char, m: string, less: nat, inner: seq<Body>, P: string -> bool)
    requires start in {'0', '1'} && |m| >= 2 && AllDigits(m) && m[0] != '0' && |m| <= less
    requires forall s :: s != "" && s[0] >= start ==> (P(s) <==> InTail(m, less + 1, s))
    requires forall s :: s == "" || s[0] < start ==> !P(s)
    requires m[0] == '1' ==> start == '1'
    ensures DenotesAlts(LongAlts(start, m[0], |m|, less, inner), P) <==> DenotesAlts(inner, TailP(m[1..], less))
  {
    var c, alts := m[0], LongAlts(start, m[0], |m|, less, inner);
    if DenotesAlts(inner, TailP(m[1..], less)) {
      forall s, I ensures MatchesAlts(alts, s, I) <==> P(s) {
        LongAltsMean(start, c, |m|, less, inner, s, I);
        TailByHead(m, less + 1, s);
        if s != "" { assert MatchesAlts(inner, s[1..], I) <==> TailP(m[1..], less)(s[1..]); }
      }
    }
    if DenotesAlts(alts, P) {
      forall t, I ensures MatchesAlts(inner, t, I) <==> TailP(m[1..], less)(t) {
        var s := [c] + t;
        assert s[1..] == t;
        LongAltsMean(start, c, |m|, less, inner, s, I);
        TailByHead(m, less + 1, s);
        assert MatchesAlts(alts, s, I) <==> P(s);
      }
    }
  }

  /** A minimum that is not last in its numeral and begins with 1: what begins with 0 is not provided for. */
  lemma OneIsNotExact(m: string, less: nat, inner: seq<Body>)
    requires |m| >= 2 && AllDigits(m) && m[0] == '1' && |m| <= less
    ensures !DenotesAlts(LongAlts('0', '1', |m|, less, inner), TailP(m, less + 1))
  {
    var s := "0" + Zeros(|m|);
    var I: Interp := iset{};
    LongAltsMean('0', '1', |m|, less, inner, s, I);
    assert InTail(m, less + 1, s);
    assert !MatchesAlts(LongAlts('0', '1', |m|, less, inner), s, I);
  }

  /** Nines of all possible lengths are accepted. */
  ghost predicate TakesNines(alts: seq<Body>, least: nat, most: nat) {
    forall k: nat :: least <= k <= most ==> Accepts(alts, Nines(k))
  }

  lemma NinesAreHuge(alts: seq<Body>, least: nat)
    requires TakesNines(alts, least, 16) && least <= 16
    ensures AcceptsHuge(alts)
  {
    assert Huge(Nines(16)) && Accepts(alts, Nines(16));
  }

  lemma LongNines(m: string, less: nat, inner: seq<Body>, n: nat, k: nat, start: char)
    requires start in {'0', '1'} && |m| >= 2 && AllDigits(m) && m[0] != '0' && |m| <= less && |m| <= k <= less + 1
    requires n == Val(m[1..]) && TailExactly(inner, n, less)
    ensures Accepts(LongAlts(start, m[0], |m|, less, inner), Nines(k))
  {
    var s := Nines(k);
    assert s[1..] == Nines(k - 1);
    ShorterNumber(m[1..]);
    forall I ensures MatchesAlts(LongAlts(start, m[0], |m|, less, inner), s, I) {
      LongAltsMean(start, m[0], |m|, less, inner, s, I);
      assert Accepts(inner, Nines(k - 1));
    }
  }

  lemma ShorterNumber(d: string)
    requires d != "" && AllDigits(d)
    ensures |ToString(Val(d))| <= |d|
  {
    if Canonical(d) { CanonicalUnique(d, Val(d)); } else { ZeroHead(d); }
  }

  /** A minimum of two digits or more, anywhere but at the beginning of the numeral. */
  lemma LongTail(n: nat, less: nat, inner: seq<Body>)
    requires n >= 10 && |ToString(n)| <= less && TailExactly(inner, Val(ToString(n)[1..]), less)
    ensures var m := ToString(n); m[0] != '0' && TailExactly(LongAlts('0', m[0], |m|, less, inner), n, less + 1)
  {
    var m := ToString(n);
    TwoDigits(n);
    var alts := LongAlts('0', m[0], |m|, less, inner);
    TwosUpHead(m);
    if m[0] == '1' {
      OneIsNotExact(m, less, inner);
    } else {
      RestExactly(m[1..], inner, less);
      LongExact('0', m, less, inner, TailP(m, less + 1));
    }
    forall k: nat | |m| <= k <= less + 1 ensures Accepts(alts, Nines(k)) {
      LongNines(m, less, inner, Val(m[1..]), k, '0');
    }
  }

  lemma TwoDigits(n: nat)
    requires n >= 10
    ensures var m := ToString(n); |m| >= 2 && m[0] != '0' && AllDigits(m[1..])
  {
    ToStringCanonical(n);
  }

  /** At the beginning: exact if and only if every digit but the first and the last is at least 2. */
  lemma LongFromOn(n: nat, less: nat, inner: seq<Body>, start: char)
    requires n >= 10 && |ToString(n)| <= less && TailExactly(inner, Val(ToString(n)[1..]), less)
    requires start == '1' || (start == '0' && ToString(n)[0] == '1')
    ensures var m := ToString(n);
            m[0] != '0'
            && (DenotesAlts(LongAlts(start, m[0], |m|, less, inner), FromOnP(n, less + 1)) <==> InnerTwosUp(m))
  {
    var m := ToString(n);
    TwoDigits(n);
    InnerIsRest(m);
    RestExactly(m[1..], inner, less);
    if m[0] == '1' { assert LongAlts(start, '1', |m|, less, inner) == LongAlts('1', '1', |m|, less, inner); }
    forall s
      ensures s != "" && s[0] >= '1' ==> (FromOnP(n, less + 1)(s) <==> InTail(m, less + 1, s))
      ensures s == "" || s[0] < '1' ==> !FromOnP(n, less + 1)(s)
    {
      FromOnIsTail(n, less + 1, s);
      if s == "0" { assert |m| > 1; }
    }
    LongExact('1', m, less, inner, FromOnP(n, less + 1));
  }

  /** The alternatives for a minimum of one digit c > 0. */
  function DigitAlts(start: char, c: char, less: nat): seq<Body>
    requires IsDigit(c) && c > '0'
  {
    (if c > start then [DigitAlt(start, (c as int - 1) as char, 1, less)] else []) + [DigitAlt(c, '9', 0, less)]
  }

  lemma DigitAltsMean(start: char, c: char, less: nat, s: string, I: Interp)
    requires start in {'0', '1'} && IsDigit(c) && c > '0' && less >= 1
    ensures MatchesAlts(DigitAlts(start, c, less), s, I) <==>
            s != "" && start <= s[0] <= '9' && AllDigits(s[1..]) && |s| <= less + 1 && (s[0] < c ==> |s| >= 2)
  {
    var below := if c > start then [DigitAlt(start, (c as int - 1) as char, 1, less)] else [];
    MatchesAltsConcat(below, [DigitAlt(c, '9', 0, less)], s, I);
    DigitAltMeans(c, '9', 0, less, s, I);
    if c > start { DigitAltMeans(start, (c as int - 1) as char, 1, less, s, I); }
  }

  function DigitOf(n: nat): char
    requires n <= 9
  {
    (n + '0' as int) as char
  }

  lemma OneDigitNumeral(n: nat)
    requires n <= 9
    ensures ToString(n) == [DigitOf(n)]
  {
  }

  lemma DigitTail(n: nat, less: nat)
    requires 1 <= n <= 9 && less >= 1
    ensures TailExactly(DigitAlts('0', DigitOf(n), less), n, less + 1)
    ensures Accepts(DigitAlts('0', DigitOf(n), less), Zeros(2))
  {
    var m, alts := ToString(n), DigitAlts('0', DigitOf(n), less);
    OneDigitNumeral(n);
    forall s, I ensures MatchesAlts(alts, s, I) <==> TailP(m, less + 1)(s) {
      DigitAltsMean('0', DigitOf(n), less, s, I);
      OneDigitTail(m, less + 1, s);
    }
    forall k: nat | 1 <= k <= less + 1 ensures Accepts(alts, Nines(k)) {
      NinesInTail(m, k, less + 1);
      forall I ensures MatchesAlts(alts, Nines(k), I) { assert TailP(m, less + 1)(Nines(k)); }
    }
    forall I ensures MatchesAlts(alts, Zeros(2), I) { assert InTail(m, less + 1, Zeros(2)); }
  }

  lemma DigitFromOn(n: nat, less: nat)
    requires 1 <= n <= 9 && less >= 1
    ensures TakesNines(DigitAlts('1', DigitOf(n), less), 1, less + 1)
    ensures DenotesAlts(DigitAlts('1', DigitOf(n), less), FromOnP(n, less + 1)) && InnerTwosUp(ToString(n))
  {
    var m := ToString(n);
    OneDigitNumeral(n);
    forall s, I ensures MatchesAlts(DigitAlts('1', DigitOf(n), less), s, I) <==> FromOnP(n, less + 1)(s) {
      DigitAltsMean('1', DigitOf(n), less, s, I);
      OneDigitTail(m, less + 1, s);
      FromOnIsTail(n, less + 1, s);
      if s != "" { DigitsByHead(s); }
    }
    forall k: nat | 1 <= k <= less + 1 ensures Accepts(DigitAlts('1', DigitOf(n), less), Nines(k)) {
      forall I ensures MatchesAlts(DigitAlts('1', DigitOf(n), less), Nines(k), I) {
        DigitAltsMean('1', DigitOf(n), less, Nines(k), I);
      }
    }
  }

  lemma ZeroTail(most: nat)
    requires most >= 1
    ensures TailExactly([Body([Digits(1, Some(most))])], 0, most)
  {
    var alts := [Body([Digits(1, Some(most))])];
    OneDigitNumeral(0);
    forall s, I ensures MatchesAlts(alts, s, I) <==> TailP("0", most)(s) {
      MatchesAltsOne([Digits(1, Some(most))], s, I);
      DigitsMatch(1, Some(most), s, I);
      OneDigitTail("0", most, s);
      if s != "" { DigitsByHead(s); }
    }
    forall k: nat | 1 <= k <= most ensures Accepts(alts, Nines(k)) {
      NinesInTail("0", k, most);
      forall I ensures MatchesAlts(alts, Nines(k), I) { assert TailP("0", most)(Nines(k)); }
    }
  }

  /** "0", or a digit that is not 0 and more of them. */
  function AnyAlts(less: nat): seq<Body> { [Body([Class("0")]), DigitAlt('1', '9', 0, less)] }

  lemma AnyNines(less: nat)
    ensures TakesNines(AnyAlts(less), 1, less + 1)
  {
    forall k: nat | 1 <= k <= less + 1 ensures Accepts(AnyAlts(less), Nines(k)) {
      forall I ensures MatchesAlts(AnyAlts(less), Nines(k), I) {
        DigitAltMeans('1', '9', 0, less, Nines(k), I);
        assert AnyAlts(less)[1] == DigitAlt('1', '9', 0, less);
      }
    }
  }

  lemma AnyExactly(less: nat)
    requires less >= 1
    ensures MinExactly(AnyAlts(less), 0, less + 1, true)
  {
    OneDigitNumeral(0);
    AnyFromOn(less);
    AnyNines(less);
  }

  lemma ZeroExactly(most: nat)
    requires most >= 1
    ensures MinExactly([Body([Digits(1, Some(most))])], 0, most, false)
  {
    OneDigitNumeral(0);
    ZeroTail(most);
  }

  lemma AnyFromOn(less: nat)
    ensures DenotesAlts(AnyAlts(less), FromOnP(0, less + 1)) && InnerTwosUp(ToString(0))
  {
    OneDigitNumeral(0);
    var zero := [Class("0")];
    assert AnyAlts(less) == [Body(zero)] + [DigitAlt('1', '9', 0, less)];
    forall s, I ensures MatchesAlts(AnyAlts(less), s, I) <==> FromOnP(0, less + 1)(s) {
      MatchesAltsConcat([Body(zero)], [DigitAlt('1', '9', 0, less)], s, I);
      MatchesAltsOne(zero, s, I);
      MatchesOne(Class("0"), s, I);
      DigitAltMeans('1', '9', 0, less, s, I);
      assert DigitRangeText('0', '0') == "0";
      if s != "" {
        DigitClass('0', '0', s[0]);
        DigitsByHead(s);
      }
    }
  }

  lemma LongZeros(n: nat, less: nat, inner: seq<Body>)
    requires n >= 10 && |ToString(n)| <= less && ToString(n)[0] >= '2'
    ensures var m := ToString(n); Accepts(LongAlts('0', m[0], |m|, less, inner), Zeros(|m| + 1))
  {
    var m := ToString(n);
    TwoDigits(n);
    var s := Zeros(|m| + 1);
    forall I ensures MatchesAlts(LongAlts('0', m[0], |m|, less, inner), s, I) {
      LongAltsMean('0', m[0], |m|, less, inner, s, I);
    }
  }

  /** A zero inside the minimum: a shorter numeral, below the minimum, is accepted. */
  lemma ZeroInside(n: nat, less: nat, inner: seq<Body>, start: char) returns (s: string)
    requires n >= 10 && |ToString(n)| <= less && start in {'0', '1'}
    requires var d := ToString(n)[1..]; !Canonical(d) && TailExactly(inner, Val(d), less)
    ensures var m := ToString(n); m[0] != '0' && Accepts(LongAlts(start, m[0], |m|, less, inner), s)
    ensures Canonical(s) && Val(s) < n
  {
    var m := ToString(n);
    var k := |ToString(Val(m[1..]))|;
    TwoDigits(n);
    ZeroHead(m[1..]);
    s := [m[0]] + Nines(k);
    assert s[1..] == Nines(k);
    forall I ensures MatchesAlts(LongAlts(start, m[0], |m|, less, inner), s, I) {
      LongAltsMean(start, m[0], |m|, less, inner, s, I);
      assert Accepts(inner, Nines(k));
    }
    ToStringValue(n);
    ToStringCanonical(n);
    LongerIsGreater(s, m);
  }

  /** A one inside the minimum: a longer numeral, above the minimum, is refused. */
  lemma OneInside(n: nat, less: nat, inner: seq<Body>, start: char) returns (s: string)
    requires n >= 10 && |ToString(n)| < less && start in {'0', '1'}
    requires var d := ToString(n)[1..];
             |d| >= 2 && d[0] == '1' && forall t, I :: t != "" && t[0] == '0' ==> !MatchesAlts(inner, t, I)
    ensures var m := ToString(n);
            m[0] != '0' && forall I :: !MatchesAlts(LongAlts(start, m[0], |m|, less, inner), s, I)
    ensures Canonical(s) && |s| == |ToString(n)| + 1 && Val(s) > n
  {
    var m := ToString(n);
    TwoDigits(n);
    s := [m[0]] + Zeros(|m|);
    assert s[1..] == Zeros(|m|) && s[1..][0] == '0';
    forall I ensures !MatchesAlts(LongAlts(start, m[0], |m|, less, inner), s, I) {
      LongAltsMean(start, m[0], |m|, less, inner, s, I);
    }
    ToStringValue(n);
    ToStringCanonical(n);
    LongerIsGreater(m, s);
  }

  /** What is true of the alternatives for a minimum n alone. */
  ghost predicate MinExactly(alts: seq<Body>, n: nat, most: nat, topLevel: bool) {
    var m := ToString(n);
    |m| < most ==>
      && TakesNines(alts, |m|, most)
      && (topLevel || (|m| >= 2 && m[0] == '1') ==> (DenotesAlts(alts, FromOnP(n, most)) <==> InnerTwosUp(m)))
      && (!topLevel ==> TailExactly(alts, n, most))
      && (!topLevel && n > 0 && (|m| == 1 || m[0] >= '2') ==> Accepts(alts, Zeros(|m| + 1)))
  }

  lemma LongExactly(n: nat, less: nat, inner: seq<Body>, topLevel: bool)
    requires n >= 10 && |ToString(n)| <= less && MinExactly(inner, Val(ToString(n)[1..]), less, false)
    ensures var m := ToString(n);
            IsDigit(m[0])
            && MinExactly(LongAlts(if topLevel then '1' else '0', m[0], |m|, less, inner), n, less + 1, topLevel)
  {
    var m := ToString(n);
    TwoDigits(n);
    ShorterNumber(m[1..]);
    if topLevel || m[0] == '1' { LongFromOn(n, less, inner, if topLevel then '1' else '0'); }
    forall k: nat | |m| <= k <= less + 1
      ensures Accepts(LongAlts(if topLevel then '1' else '0', m[0], |m|, less, inner), Nines(k))
    {
      LongNines(m, less, inner, Val(m[1..]), k, if topLevel then '1' else '0');
    }
    if !topLevel {
      LongTail(n, less, inner);
      if m[0] >= '2' { LongZeros(n, less, inner); }
    }
  }

  /** The same with the alternatives part by part, however many digits are left. */
  lemma LongParts(n: nat, most: nat, less: nat, inner: seq<Body>, topLevel: bool, alts: seq<Body>)
    requires n >= 10 && less == (if most - 1 < 1 then 1 else most - 1)
    requires MinExactly(inner, Val(ToString(n)[1..]), less, false)
    requires var m, start := ToString(n), if topLevel then '1' else '0';
             alts == (if m[0] > '1' then [DigitAlt(start, (m[0] as int - 1) as char, |m|, less)] else [])
                     + [SameAlt(m[0], inner)]
                     + (if m[0] < '9' then [DigitAlt((m[0] as int + 1) as char, '9', |m| - 1, less)] else [])
    ensures MinExactly(alts, n, most, topLevel)
  {
    var m := ToString(n);
    TwoDigits(n);
    if |m| <= less { LongExactly(n, less, inner, topLevel); } else { NoDigitsLeft(alts, n, most, topLevel); }
  }

  lemma DigitExactly(n: nat, less: nat, topLevel: bool)
    requires 1 <= n <= 9 && less >= 1
    ensures MinExactly(DigitAlts(if topLevel then '1' else '0', DigitOf(n), less), n, less + 1, topLevel)
  {
    OneDigitNumeral(n);
    if topLevel { DigitFromOn(n, less); } else { DigitTail(n, less); }
  }

  // ---------------------------------------------------------------------------------------------
  // All bounds
  // ---------------------------------------------------------------------------------------------

  const MOST: nat := 16

  /** s is a numeral without leading zeros, of at most 16 digits, of an integer that keeps the bounds that are given;
      "-0" counts as 0 if there is a negative minimum. */
  predicate NumeralText(minV: int, maxV: int, s: string) {
    || (Canonical(s) && |s| <= MOST && WithinBounds(minV, maxV, Val(s)))
    || (s != "" && s[0] == '-' && Canonical(s[1..]) && |s[1..]| <= MOST && WithinBounds(minV, maxV, 0 - Val(s[1..]))
        && (s[1..] == "0" ==> HasMin(minV) && minV < 0))
  }

  predicate WithinBounds(minV: int, maxV: int, v: int) { (HasMin(minV) ==> minV <= v) && (HasMax(maxV) ==> v <= maxV) }

  function NumeralP(minV: int, maxV: int): string -> bool { s => NumeralText(minV, maxV, s) }

  /** The bounds for which the grammar is exact. Two bounds: the minimum must not be -INT_MAX. A minimum alone: it is
      negative and not -INT_MAX, or all its digits but the first and the last are at least 2. A maximum alone: it is not
      negative, or its numeral has several digits, the first of them 1 and the inner ones at least 2. */
  predicate ExactBounds(minV: int, maxV: int) {
    if HasMin(minV) && HasMax(maxV) then minV != -INT_MAX
    else if HasMin(minV) then -INT_MAX < minV < 0 || (minV >= 0 && InnerTwosUp(ToString(minV)))
    else maxV >= 0 || (maxV <= -10 && ToString(-maxV)[0] == '1' && InnerTwosUp(ToString(-maxV)))
  }

  lemma SmallNumeral(n: nat)
    requires n <= INT_MAX
    ensures |ToString(n)| <= 10
  {
    var s := ToString(n);
    ToStringValue(n);
    ToStringCanonical(n);
    if |s| > 10 {
      ValAtLeast(s);
      Pow10Mono(10, |s| - 1);
      TenToTheTenth();
    }
  }

  lemma ShortEnough(s: string)
    requires Canonical(s) && Val(s) <= INT_MAX
    ensures |s| <= 10
  {
    CanonicalUnique(s, Val(s));
    SmallNumeral(Val(s));
  }

  /** 25 is exact as a minimum alone, 100 and 215 are not; -15 is exact as a maximum alone, -5 is not. */
  lemma BoundInputs()
    ensures ExactBounds(25, INT_MAX) && !ExactBounds(100, INT_MAX) && !ExactBounds(215, INT_MAX)
    ensures ExactBounds(INT_MIN, -15) && !ExactBounds(INT_MIN, -5)
  {
    assert ToString(25) == "25" && ToString(15) == "15";
    assert ToString(100) == "100" && ToString(215) == "215";
    assert !InnerTwosUp("100") by { assert "100"[1] == '0'; }
    assert !InnerTwosUp("215") by { assert "215"[1] == '1'; }
  }

  lemma BothBoundsText(minV: int, maxV: int, s: string)
    requires INT_MIN < minV && maxV < INT_MAX
    ensures NumeralText(minV, maxV, s) <==> IntText(minV, maxV, s)
  {
    if Canonical(s) && Val(s) <= maxV { ShortEnough(s); }
    if s != "" && s[0] == '-' && Canonical(s[1..]) {
      var t := s[1..];
      if Val(t) <= INT_MAX { ShortEnough(t); }
      if Val(t) == 0 { CanonicalUnique(t, 0); }
    }
  }

  /** With a minimum alone, numerals of 16 digits are accepted. */
  lemma MinimumIsHuge(alts: seq<Body>, n: nat)
    requires n <= INT_MAX && MinExactly(alts, n, MOST, true)
    ensures AcceptsHuge(alts)
  {
    SmallNumeral(n);
    NinesAreHuge(alts, |ToString(n)|);
  }

  lemma NoDigitsLeft(alts: seq<Body>, n: nat, most: nat, topLevel: bool)
    requires |ToString(n)| >= most
    ensures MinExactly(alts, n, most, topLevel)
  {
  }

  lemma MinusIsNeg(inner: seq<Body>, P: string -> bool)
    ensures DenotesAlts([Body([Lit("-"), Group(inner)])], NegP(P)) <==> DenotesAlts(inner, P)
  {
    var alts := [Body([Lit("-"), Group(inner)])];
    if DenotesAlts(inner, P) { MinusGroup(inner, P); }
    if DenotesAlts(alts, NegP(P)) {
      forall t, I ensures MatchesAlts(inner, t, I) <==> P(t) {
        var s := "-" + t;
        assert s[1..] == t && s[..1] == "-" && s[0] == '-';
        MinusThen(inner, s, I);
        assert MatchesAlts(alts, s, I) <==> NegP(P)(s);
      }
    }
  }

  lemma MinusThen(inner: seq<Body>, s: string, I: Interp)
    ensures MatchesAlts([Body([Lit("-"), Group(inner)])], s, I) <==>
            s != "" && s[0] == '-' && MatchesAlts(inner, s[1..], I)
  {
    var xs := [Lit("-")] + [Group(inner)];
    assert xs == [Lit("-"), Group(inner)];
    MatchesAltsOne(xs, s, I);
    LitThen("-", [Group(inner)], s, I);
    if s != "" {
      assert s[..1] == [s[0]];
      MatchesOne(Group(inner), s[1..], I);
    }
  }

  lemma DenotesSame(alts: seq<Body>, P: string -> bool, Q: string -> bool)
    requires forall s :: P(s) <==> Q(s)
    ensures DenotesAlts(alts, P) <==> DenotesAlts(alts, Q)
  {
    if DenotesAlts(alts, P) { AltsSame(alts, P, Q); }
    if DenotesAlts(alts, Q) { AltsSame(alts, Q, P); }
  }

  /** A minimum alone that is not negative. */
  lemma MinimumExact(minV: nat, alts: seq<Body>)
    requires minV <= INT_MAX && MinExactly(alts, minV, MOST, true)
    ensures DenotesAlts(alts, NumeralP(minV, INT_MAX)) <==> ExactBounds(minV, INT_MAX)
  {
    SmallNumeral(minV);
    forall s ensures FromOnP(minV, MOST)(s) <==> NumeralP(minV, INT_MAX)(s) { NoMinus(minV, s); }
    DenotesSame(alts, FromOnP(minV, MOST), NumeralP(minV, INT_MAX));
  }

  lemma NoMinus(minV: nat, s: string)
    ensures FromOn(minV, MOST, s) <==> NumeralText(minV, INT_MAX, s)
  {
    if s != "" && s[0] == '-' && Canonical(s[1..]) && Val(s[1..]) == 0 { CanonicalUnique(s[1..], 0); }
  }

  /** A negative minimum alone. */
  lemma NegativeMinimumExact(minV: int, inner: seq<Body>)
    requires -INT_MAX < minV < 0 && DenotesAlts(inner, IntTextP(0, -minV))
    ensures DenotesAlts([Body([Lit("-"), Group(inner)])] + AnyAlts(15), NumeralP(minV, INT_MAX))
  {
    var P, Q := NegP(IntTextP(0, -minV)), FromOnP(0, MOST);
    MinusGroup(inner, IntTextP(0, -minV));
    AnyFromOn(15);
    AltsOr([Body([Lit("-"), Group(inner)])], P, AnyAlts(15), Q);
    forall s ensures Or(P, Q)(s) <==> NumeralP(minV, INT_MAX)(s) { DownTo(minV, s); }
    AltsSame([Body([Lit("-"), Group(inner)])] + AnyAlts(15), Or(P, Q), NumeralP(minV, INT_MAX));
  }

  lemma DownTo(minV: int, s: string)
    requires -INT_MAX < minV < 0
    ensures NumeralText(minV, INT_MAX, s) <==> NegP(IntTextP(0, -minV))(s) || FromOn(0, MOST, s)
  {
    if s != "" && s[0] == '-' && Canonical(s[1..]) && Val(s[1..]) <= -minV { ShortEnough(s[1..]); }
  }

  /** A minus sign and 1 to 16 digits, the first not zero. */
  lemma AnyNegative(s: string, I: Interp)
    ensures MatchesAlts([Body([Lit("-")] + DigitAlt('1', '9', 0, 15).syms)], s, I) <==>
            s != "" && s[0] == '-' && HeadAndMore('1', '9', 0, 15, s[1..])
  {
    var zs := DigitAlt('1', '9', 0, 15).syms;
    MatchesAltsOne([Lit("-")] + zs, s, I);
    LitThen("-", zs, s, I);
    if s != "" {
      assert s[..1] == [s[0]];
      MatchesAltsOne(zs, s[1..], I);
      DigitAltMeans('1', '9', 0, 15, s[1..], I);
    }
  }

  /** A maximum alone that is not negative. */
  lemma MaximumExact(maxV: int, inner: seq<Body>)
    requires 0 <= maxV < INT_MAX && DenotesAlts(inner, IntTextP(0, maxV))
    ensures DenotesAlts([Body([Lit("-")] + DigitAlt('1', '9', 0, 15).syms)] + inner, NumeralP(INT_MIN, maxV))
  {
    var first := [Body([Lit("-")] + DigitAlt('1', '9', 0, 15).syms)];
    forall s, I ensures MatchesAlts(first + inner, s, I) <==> NumeralP(INT_MIN, maxV)(s) {
      MatchesAltsConcat(first, inner, s, I);
      AnyNegative(s, I);
      assert MatchesAlts(inner, s, I) <==> IntTextP(0, maxV)(s);
      UpTo(maxV, s);
    }
  }

  lemma UpTo(maxV: int, s: string)
    requires 0 <= maxV < INT_MAX
    ensures NumeralText(INT_MIN, maxV, s) <==>
            IntText(0, maxV, s) || (s != "" && s[0] == '-' && HeadAndMore('1', '9', 0, 15, s[1..]))
  {
    if Canonical(s) && Val(s) <= maxV { ShortEnough(s); }
    if s != "" && s[0] == '-' && s[1..] != "" { DigitsByHead(s[1..]); }
  }

  /** A negative maximum alone. */
  lemma NegativeMaximumExact(maxV: int, inner: seq<Body>)
    requires INT_MIN < maxV < 0 && MinExactly(inner, -maxV, MOST, false)
    ensures DenotesAlts([Body([Lit("-"), Group(inner)])], NumeralP(INT_MIN, maxV)) <==> ExactBounds(INT_MIN, maxV)
  {
    var n: nat := -maxV;
    var m := ToString(n);
    SmallNumeral(n);
    forall s ensures NegP(FromOnP(n, MOST))(s) <==> NumeralP(INT_MIN, maxV)(s) { OnlyMinus(maxV, s); }
    DenotesSame([Body([Lit("-"), Group(inner)])], NegP(FromOnP(n, MOST)), NumeralP(INT_MIN, maxV));
    MinusIsNeg(inner, FromOnP(n, MOST));
    if n <= 9 { OneDigitNumeral(n); } else { TwoDigits(n); }
    if |m| == 1 || m[0] >= '2' { NotDenoted(inner, FromOnP(n, MOST), Zeros(|m| + 1)); }
  }

  lemma OnlyMinus(maxV: int, s: string)
    requires INT_MIN < maxV < 0
    ensures NumeralText(INT_MIN, maxV, s) <==> s != "" && s[0] == '-' && FromOn(-maxV, MOST, s[1..])
  {
    if s != "" && s[0] == '-' && s[1..] == "0" { CanonicalUnique("0", 0); }
  }

  /** Two bounds. */
  lemma BothBoundsExact(minV: int, maxV: int, alts: seq<Body>)
    requires INT_MIN < minV <= maxV < INT_MAX && (DenotesAlts(alts, IntTextP(minV, maxV)) <==> minV != -INT_MAX)
    ensures DenotesAlts(alts, NumeralP(minV, maxV)) <==> ExactBounds(minV, maxV)
  {
    forall s ensures IntTextP(minV, maxV)(s) <==> NumeralP(minV, maxV)(s) { BothBoundsText(minV, maxV, s); }
    DenotesSame(alts, IntTextP(minV, maxV), NumeralP(minV, maxV));
  }
}
