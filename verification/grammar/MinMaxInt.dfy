/** `_build_min_max_int`: the grammar of the integers between two bounds, of which one may be absent. */
module MinMaxInt {
  import opened Options
  import opened Gbnf
  import opened Symbols
  import opened Decimal
  import opened IntRange
  import opened IntBounds

  // ---------------------------------------------------------------------------------------------
  // A minimum that is not negative
  // ---------------------------------------------------------------------------------------------

  /** A bar behind the alternatives. */
  method WriteBar(out: Text<PlainTok>, ghost base: seq<Tok>, ghost alts: seq<Body>)
    requires out.toks == base + ShowAlts(alts) && alts != []
    modifies out
    ensures out.toks == base + Barred(alts)
  {
    out.Write([TBar]);
    Associates(base, ShowAlts(alts), [TBar]);
  }

  /** One more alternative: a digit from lo to hi and more digits. */
  method WriteDigits(lo: char, hi: char, least: nat, most: nat, out: Text<PlainTok>, ghost base: seq<Tok>,
                     ghost alts: seq<Body>)
    returns (ghost more: seq<Body>)
    requires NearDigit(lo) && NearDigit(hi) && most < INT_MAX
    requires out.toks == base + Barred(alts) && (alts == [] || OkAlts(alts))
    modifies out
    ensures out.toks == base + ShowAlts(more) && OkAlts(more) && more == alts + [DigitAlt(lo, hi, least, most)]
  {
    ghost var ys := DigitAndMore(lo, hi, least, most, out);
    more := Branch(base, alts, ys);
  }

  /** Only a minimum, and it is not negative. */
  method MinOnly(minV: nat, out: Text<PlainTok>, decimalsLeft: nat, topLevel: bool) returns (ghost alts: seq<Body>)
    requires minV <= INT_MAX && 1 <= decimalsLeft <= 16
    modifies out
    ensures out.toks == old(out.toks) + ShowAlts(alts) && OkAlts(alts)
    ensures MinExactly(alts, minV, decimalsLeft, topLevel)
    decreases minV, 1
  {
    ghost var base := out.toks;
    var less := if decimalsLeft - 1 < 1 then 1 else decimalsLeft - 1;
    if minV == 0 {
      if topLevel {
        alts := AnyNumber(out, less, base, []);
        assert [] + AnyAlts(less) == AnyAlts(less);
        AnyExactly(less);
        if decimalsLeft == 1 { NoDigitsLeft(alts, minV, 1, topLevel); }
      } else {
        ghost var x := MoreDigits(1, decimalsLeft, out);
        alts := [Body([x])];
        ShowOne(x);
        ZeroExactly(decimalsLeft);
      }
    } else if minV <= 9 {
      alts := MinOnlyDigit(minV, out, less, topLevel);
      DigitExactly(minV, less, topLevel);
      if decimalsLeft == 1 { NoDigitsLeft(alts, minV, 1, topLevel); }
    } else {
      alts := MinOnlyLong(minV, out, decimalsLeft, topLevel);
    }
  }

  /** "0", or up to 1 + less digits without leading zero. */
  method AnyNumber(out: Text<PlainTok>, less: nat, ghost base: seq<Tok>, ghost before: seq<Body>)
    returns (ghost alts: seq<Body>)
    requires less < INT_MAX && out.toks == base + Barred(before) && (before == [] || OkAlts(before))
    modifies out
    ensures out.toks == base + ShowAlts(alts) && OkAlts(alts) && alts == before + AnyAlts(less)
  {
    out.Write([TClass("0")]);
    ghost var ys := [Class("0")];
    OneCharReads('0');
    ShowOne(ys[0]);
    alts := Branch(base, before, ys);
    WriteBar(out, base, alts);
    alts := WriteDigits('1', '9', 0, less, out, base, alts);
  }

  method MinOnlyDigit(minV: nat, out: Text<PlainTok>, less: nat, topLevel: bool) returns (ghost alts: seq<Body>)
    requires 1 <= minV <= 9 && less < INT_MAX
    modifies out
    ensures out.toks == old(out.toks) + ShowAlts(alts) && OkAlts(alts)
    ensures alts == DigitAlts(if topLevel then '1' else '0', DigitOf(minV), less)
  {
    ghost var base := out.toks;
    alts := [];
    var c := (minV + '0' as int) as char;
    var rangeStart := if topLevel then '1' else '0';
    if c > rangeStart {
      alts := WriteDigits(rangeStart, (c as int - 1) as char, 1, less, out, base, alts);
      WriteBar(out, base, alts);
    }
    alts := WriteDigits(c, '9', 0, less, out, base, alts);
  }

  /** The branch for a minimum with two digits or more. */
  method MinOnlyLong(minV: nat, out: Text<PlainTok>, decimalsLeft: nat, topLevel: bool) returns (ghost alts: seq<Body>)
    requires 10 <= minV <= INT_MAX && 1 <= decimalsLeft <= 16
    modifies out
    ensures out.toks == old(out.toks) + ShowAlts(alts) && OkAlts(alts)
    ensures MinExactly(alts, minV, decimalsLeft, topLevel)
    decreases minV, 0
  {
    ghost var base := out.toks;
    ghost var inner;
    var less := if decimalsLeft - 1 < 1 then 1 else decimalsLeft - 1;
    var minS := ToString(minV);
    var len := |minS|;
    var c := minS[0];
    DropHead(minV);
    alts := SmallerHead(c, len, less, topLevel, out);
    alts, inner := SameHead(c, Val(minS[1..]), minV, out, less, base, alts);
    alts := GreaterHead(c, len, less, out, base, alts);
    LongParts(minV, decimalsLeft, less, inner, topLevel, alts);
  }

  /** Numbers whose leading digit is below the minimum's need more digits. */
  method SmallerHead(c: char, len: nat, less: nat, topLevel: bool, out: Text<PlainTok>) returns (ghost alts: seq<Body>)
    requires IsDigit(c) && less < INT_MAX
    modifies out
    ensures out.toks == old(out.toks) + Barred(alts) && (alts == [] || OkAlts(alts))
    ensures alts == if c > '1' then [DigitAlt(if topLevel then '1' else '0', (c as int - 1) as char, len, less)] else []
  {
    ghost var base := out.toks;
    alts := [];
    if c > '1' {
      alts := WriteDigits(if topLevel then '1' else '0', (c as int - 1) as char, len, less, out, base, alts);
      WriteBar(out, base, alts);
    }
  }

  /** Numbers whose leading digit is above the minimum's are as long or longer. */
  method GreaterHead(c: char, len: nat, less: nat, out: Text<PlainTok>, ghost base: seq<Tok>, ghost alts: seq<Body>)
    returns (ghost more: seq<Body>)
    requires IsDigit(c) && len >= 1 && less < INT_MAX
    requires out.toks == base + ShowAlts(alts) && alts != [] && OkAlts(alts)
    modifies out
    ensures out.toks == base + ShowAlts(more) && OkAlts(more)
    ensures more == alts + if c < '9' then [DigitAlt((c as int + 1) as char, '9', len - 1, less)] else []
  {
    more := alts;
    if c < '9' {
      WriteBar(out, base, alts);
      more := WriteDigits((c as int + 1) as char, '9', len - 1, less, out, base, alts);
    }
  }

  /** The leading digit of the minimum, then what its other digits demand. */
  method SameHead(c: char, rest: nat, ghost minV: nat, out: Text<PlainTok>, less: nat, ghost base: seq<Tok>,
                  ghost alts: seq<Body>)
    returns (ghost more: seq<Body>, ghost inner: seq<Body>)
    requires IsDigit(c) && rest < minV <= INT_MAX && 1 <= less <= 16
    requires out.toks == base + Barred(alts) && (alts == [] || OkAlts(alts))
    modifies out
    ensures out.toks == base + ShowAlts(more) && OkAlts(more) && more == alts + [SameAlt(c, inner)]
    ensures MinExactly(inner, rest, less, false)
    decreases rest, 2
  {
    ghost var x := DigitRange(c, c, out);
    out.Write([TOpen]);
    inner := MinOnly(rest, out, less, false);
    out.Write([TClose]);
    SameHeadText(base + Barred(alts), x, inner);
    more := Branch(base, alts, [x, Group(inner)]);
  }

  lemma SameHeadText(base: seq<Tok>, x: Sym, inner: seq<Body>)
    ensures base + Show(x) + [TOpen] + ShowAlts(inner) + [TClose] == base + ShowSyms([x, Group(inner)])
    ensures Ok(x) && OkAlts(inner) ==> OkSyms([x, Group(inner)])
  {
    ShowTwo(x, Group(inner));
    FourTexts(base, Show(x), [TOpen], ShowAlts(inner), [TClose]);
    assert Show(x) + [TOpen] + (ShowAlts(inner) + [TClose]) == Show(x) + Show(Group(inner));
  }

  // ---------------------------------------------------------------------------------------------
  // The whole function
  // ---------------------------------------------------------------------------------------------

  function Rank(minV: int, maxV: int): nat {
    if minV == INT_MIN then 1 else if minV < 0 then 2 else 0
  }

  /** Emits the grammar of the integers between two bounds; answers false where the source throws.
      Both bounds given, it is exact for every minimum but one: negating -INT_MAX yields the value that
      stands for "no maximum". */
  method BuildMinMaxInt(minV: int, maxV: int, out: Text<PlainTok>, decimalsLeft: nat, topLevel: bool)
    returns (ok: bool, ghost alts: seq<Body>)
    requires INT_MIN <= minV <= INT_MAX && INT_MIN < maxV <= INT_MAX
    requires HasMin(minV) && HasMax(maxV) ==> minV <= maxV
    requires 1 <= decimalsLeft <= 16
    modifies out
    ensures ok <==> (HasMin(minV) || HasMax(maxV)) && !(minV == -INT_MAX && !HasMax(maxV))
    ensures ok ==> out.toks == old(out.toks) + ShowAlts(alts) && OkAlts(alts)
    ensures HasMin(minV) && HasMax(maxV) && decimalsLeft == 16 ==>
              (DenotesAlts(alts, IntTextP(minV, maxV)) <==> minV != -INT_MAX)
    ensures !HasMax(maxV) && minV >= 0 ==> MinExactly(alts, minV, decimalsLeft, topLevel)
    ensures !HasMin(minV) && 0 <= maxV < INT_MAX && !topLevel && decimalsLeft == 16 ==>
              DenotesAlts(alts, IntTextP(0, maxV))
    ensures ok && topLevel && decimalsLeft == MOST ==>
              (DenotesAlts(alts, NumeralP(minV, maxV)) <==> ExactBounds(minV, maxV))
    decreases Rank(minV, maxV), 1
  {
    alts := [];
    if HasMin(minV) && HasMax(maxV) {
      ok := true;
      alts := BothBounds(minV, maxV, out, decimalsLeft);
      if decimalsLeft == 16 { BothBoundsExact(minV, maxV, alts); }
    } else if HasMin(minV) {
      if minV < 0 {
        ok, alts := MinOnlyNegative(minV, out, decimalsLeft);
      } else {
        ok := true;
        alts := MinOnly(minV, out, decimalsLeft, topLevel);
        if topLevel && decimalsLeft == MOST { MinimumExact(minV, alts); }
      }
    } else if HasMax(maxV) {
      ok := true;
      alts := MaxOnly(maxV, out, decimalsLeft, topLevel);
    } else {
      ok := false;
    }
  }

  method BothBounds(minV: int, maxV: int, out: Text<PlainTok>, decimalsLeft: nat) returns (ghost alts: seq<Body>)
    requires INT_MIN < minV <= maxV < INT_MAX && 1 <= decimalsLeft <= 16
    modifies out
    ensures out.toks == old(out.toks) + ShowAlts(alts) && OkAlts(alts)
    ensures decimalsLeft == 16 ==> (DenotesAlts(alts, IntTextP(minV, maxV)) <==> minV != -INT_MAX)
    decreases Rank(minV, maxV), 0
  {
    if minV < 0 && maxV < 0 {
      alts := NegativeBounds(minV, maxV, out, decimalsLeft);
    } else if minV < 0 {
      alts := MixedBounds(minV, maxV, out, decimalsLeft);
    } else {
      alts := ByLength(minV, maxV, out, out.toks, [], NoneP());
      AltsSame(alts, UpToP(NoneP(), minV, maxV), IntTextP(minV, maxV));
    }
  }

  method NegativeBounds(minV: int, maxV: int, out: Text<PlainTok>, decimalsLeft: nat) returns (ghost alts: seq<Body>)
    requires INT_MIN < minV <= maxV < 0 && 1 <= decimalsLeft <= 16
    modifies out
    ensures out.toks == old(out.toks) + ShowAlts(alts) && OkAlts(alts)
    ensures decimalsLeft == 16 ==> (DenotesAlts(alts, IntTextP(minV, maxV)) <==> minV != -INT_MAX)
    decreases 1, 2
  {
    ghost var base := out.toks;
    ghost var inner: seq<Body>;
    var ok;
    out.Write([TLit("-"), TOpen]);
    ok, inner := BuildMinMaxInt(-maxV, -minV, out, decimalsLeft, true);
    out.Write([TClose]);
    alts := [Body([Lit("-"), Group(inner)])];
    ShowMinusGroup(inner);
    AroundText(base, [TLit("-"), TOpen], ShowAlts(inner), [TClose]);
    if decimalsLeft == MOST {
      if minV == -INT_MAX { MinimumIsHuge(inner, -maxV); }
      NegativeRange(minV, maxV, inner);
    }
  }

  method MixedBounds(minV: int, maxV: int, out: Text<PlainTok>, decimalsLeft: nat) returns (ghost alts: seq<Body>)
    requires INT_MIN < minV < 0 <= maxV < INT_MAX && 1 <= decimalsLeft <= 16
    modifies out
    ensures out.toks == old(out.toks) + ShowAlts(alts) && OkAlts(alts)
    ensures decimalsLeft == 16 ==> (DenotesAlts(alts, IntTextP(minV, maxV)) <==> minV != -INT_MAX)
    decreases 1, 2
  {
    ghost var base := out.toks;
    ghost var inner: seq<Body>;
    var ok;
    out.Write([TLit("-"), TOpen]);
    ok, inner := BuildMinMaxInt(0, -minV, out, decimalsLeft, true);
    out.Write([TClose, TBar]);
    ghost var before := [Body([Lit("-"), Group(inner)])];
    ShowMinusGroup(inner);
    assert out.toks == base + Barred(before);
    alts := ByLength(0, maxV, out, base, before, NegP(IntTextP(0, -minV)));
    if decimalsLeft == MOST {
      if minV == -INT_MAX { MinimumIsHuge(inner, 0); }
      MixedRange(minV, maxV, inner, alts);
    }
  }

  lemma NegativeRange(minV: int, maxV: int, inner: seq<Body>)
    requires INT_MIN < minV <= maxV < 0
    requires minV != -INT_MAX ==> DenotesAlts(inner, IntTextP(-maxV, -minV))
    requires minV == -INT_MAX ==> AcceptsHuge(inner)
    ensures DenotesAlts([Body([Lit("-"), Group(inner)])], IntTextP(minV, maxV)) <==> minV != -INT_MAX
  {
    var alts := [Body([Lit("-"), Group(inner)])];
    if minV != -INT_MAX {
      MinusGroup(inner, IntTextP(-maxV, -minV));
      AltsSame(alts, NegP(IntTextP(-maxV, -minV)), IntTextP(minV, maxV));
    } else {
      NotExact(minV, maxV, inner, alts);
    }
  }

  lemma MixedRange(minV: int, maxV: int, inner: seq<Body>, alts: seq<Body>)
    requires INT_MIN < minV < 0 <= maxV < INT_MAX
    requires minV != -INT_MAX ==> DenotesAlts(inner, IntTextP(0, -minV))
    requires minV == -INT_MAX ==> AcceptsHuge(inner)
    requires [Body([Lit("-"), Group(inner)])] <= alts
    requires DenotesAlts([Body([Lit("-"), Group(inner)])], NegP(IntTextP(0, -minV))) ==>
               DenotesAlts(alts, UpToP(NegP(IntTextP(0, -minV)), 0, maxV))
    ensures DenotesAlts(alts, IntTextP(minV, maxV)) <==> minV != -INT_MAX
  {
    var B := NegP(IntTextP(0, -minV));
    if minV != -INT_MAX {
      MinusGroup(inner, IntTextP(0, -minV));
      AltsSame(alts, UpToP(B, 0, maxV), IntTextP(minV, maxV));
    } else {
      NotExact(minV, maxV, inner, alts);
    }
  }

  /** A minus sign and a 16-digit numeral is accepted although no such integer is in range. */
  lemma NotExact(minV: int, maxV: int, inner: seq<Body>, alts: seq<Body>)
    requires INT_MIN < minV <= maxV < INT_MAX
    requires AcceptsHuge(inner) && [Body([Lit("-"), Group(inner)])] <= alts
    ensures !DenotesAlts(alts, IntTextP(minV, maxV))
  {
    var h :| Huge(h) && Accepts(inner, h);
    var s := "-" + h;
    assert s[1..] == h;
    HugeIsTooLarge(h);
    assert !IntText(minV, maxV, s);
    var I: Interp := iset{};
    LitThen("-", [Group(inner)], s, I);
    MatchesOne(Group(inner), h, I);
    assert [Lit("-")] + [Group(inner)] == [Lit("-"), Group(inner)];
    assert MatchesAlts(inner, h, I);
    assert MatchesSyms(alts[0].syms, s, I);
    assert MatchesAlts(alts, s, I) && !IntTextP(minV, maxV)(s);
  }

  /** Only a negative minimum: anything from it up to 0 with a sign, or any number without. */
  method MinOnlyNegative(minV: int, out: Text<PlainTok>, decimalsLeft: nat) returns (ok: bool, ghost alts: seq<Body>)
    requires INT_MIN < minV < 0 && 1 <= decimalsLeft <= 16
    modifies out
    ensures ok <==> minV != -INT_MAX
    ensures ok ==> out.toks == old(out.toks) + ShowAlts(alts) && OkAlts(alts)
    ensures ok && decimalsLeft == MOST ==> DenotesAlts(alts, NumeralP(minV, INT_MAX))
    decreases Rank(minV, INT_MAX), 0
  {
    ghost var base := out.toks;
    alts := [];
    ghost var inner;
    out.Write([TLit("-"), TOpen]);
    ok, inner := BuildMinMaxInt(INT_MIN, -minV, out, decimalsLeft, false);
    if ok {
      out.Write([TClose, TBar]);
      MinusText(base, inner);
      alts := AnyNumber(out, decimalsLeft - 1, base, [Body([Lit("-"), Group(inner)])]);
      if decimalsLeft == MOST { NegativeMinimumExact(minV, inner); }
    }
  }

  lemma MinusText(base: seq<Tok>, inner: seq<Body>)
    ensures var alts := [Body([Lit("-"), Group(inner)])];
            && base + [TLit("-"), TOpen] + ShowAlts(inner) + [TClose] == base + ShowAlts(alts)
            && base + [TLit("-"), TOpen] + ShowAlts(inner) + [TClose, TBar] == base + Barred(alts)
            && (OkAlts(inner) ==> OkAlts(alts))
  {
    ShowMinusGroup(inner);
    AroundText(base, [TLit("-"), TOpen], ShowAlts(inner), [TClose]);
    AroundText(base, [TLit("-"), TOpen], ShowAlts(inner), [TClose, TBar]);
    assert [TLit("-"), TOpen] + ShowAlts(inner) + [TClose, TBar]
        == [TLit("-"), TOpen] + ShowAlts(inner) + [TClose] + [TBar];
  }

  method MaxOnly(maxV: int, out: Text<PlainTok>, decimalsLeft: nat, topLevel: bool) returns (ghost alts: seq<Body>)
    requires INT_MIN < maxV < INT_MAX && 1 <= decimalsLeft <= 16
    modifies out
    ensures out.toks == old(out.toks) + ShowAlts(alts) && OkAlts(alts)
    ensures maxV >= 0 && !topLevel && decimalsLeft == MOST ==> DenotesAlts(alts, IntTextP(0, maxV))
    ensures topLevel && decimalsLeft == MOST ==>
              (DenotesAlts(alts, NumeralP(INT_MIN, maxV)) <==> ExactBounds(INT_MIN, maxV))
    decreases 1, 0
  {
    ghost var base := out.toks;
    var ok;
    ghost var inner: seq<Body>;
    if maxV >= 0 {
      alts := [];
      if topLevel {
        alts := SignedNumber(out, if decimalsLeft - 1 < 1 then 1 else decimalsLeft - 1);
      }
      ok, inner := BuildMinMaxInt(0, maxV, out, decimalsLeft, true);
      TwoTexts(base, alts, inner);
      if topLevel && decimalsLeft == MOST { MaximumExact(maxV, inner); }
      alts := alts + inner;
    } else {
      out.Write([TLit("-"), TOpen]);
      ok, inner := BuildMinMaxInt(-maxV, INT_MAX, out, decimalsLeft, false);
      out.Write([TClose]);
      alts := [Body([Lit("-"), Group(inner)])];
      MinusText(base, inner);
      if decimalsLeft == MOST { NegativeMaximumExact(maxV, inner); }
    }
  }

  lemma TwoTexts(base: seq<Tok>, alts: seq<Body>, inner: seq<Body>)
    requires OkAlts(inner) && (alts == [] || OkAlts(alts))
    ensures base + Barred(alts) + ShowAlts(inner) == base + ShowAlts(alts + inner) && OkAlts(alts + inner)
    ensures alts == [] ==> alts + inner == inner
  {
    if alts != [] { ShowAltsConcat(alts, inner); }
    Associates(base, Barred(alts), ShowAlts(inner));
    assert alts == [] ==> alts + inner == inner;
  }

  /** A minus sign and 1 to 1 + less digits, the first not zero; a bar. */
  method SignedNumber(out: Text<PlainTok>, less: nat) returns (ghost alts: seq<Body>)
    requires less < INT_MAX
    modifies out
    ensures out.toks == old(out.toks) + Barred(alts) && OkAlts(alts)
    ensures alts == [Body([Lit("-")] + DigitAlt('1', '9', 0, less).syms)]
  {
    ghost var base := out.toks;
    out.Write([TLit("-")]);
    ghost var zs := DigitAndMore('1', '9', 0, less, out);
    ghost var ys := Prefixed(base, Lit("-"), zs);
    alts := Branch(base, [], ys);
    WriteBar(out, base, alts);
  }

  lemma Prefixed(base: seq<Tok>, x: Sym, zs: seq<Sym>) returns (ys: seq<Sym>)
    requires Ok(x) && OkSyms(zs)
    ensures ys == [x] + zs && OkSyms(ys)
    ensures base + Show(x) + ShowSyms(zs) == base + ShowSyms(ys)
  {
    ys := [x] + zs;
    ShowOne(x);
    ShowSymsConcat([x], zs);
    assert base + Show(x) + ShowSyms(zs) == base + (Show(x) + ShowSyms(zs));
  }

  /** The text for integers with one or two bounds, and what it accepts when it is read back: the numerals of at most
      16 digits of the integers that keep the bounds, if and only if the bounds are exact. It fails if no bound is
      given, and for the minimum -INT_MAX alone, whose negation is taken for "no maximum". */
  method IntegerRule(minV: int, maxV: int) returns (ok: bool, rule: seq<PlainTok>)
    requires INT_MIN <= minV <= INT_MAX && INT_MIN < maxV <= INT_MAX
    requires HasMin(minV) && HasMax(maxV) ==> minV <= maxV
    ensures ok <==> (HasMin(minV) || HasMax(maxV)) && !(minV == -INT_MAX && !HasMax(maxV))
    ensures ok ==> Parse(rule).Some?
                   && (DenotesAlts(Parse(rule).value, NumeralP(minV, maxV)) <==> ExactBounds(minV, maxV))
  {
    var out := new Text<PlainTok>();
    ghost var alts;
    ok, alts := BuildMinMaxInt(minV, maxV, out, 16, true);
    rule := out.toks;
    if ok {
      ShowThenParse(alts);
      assert [] + ShowAlts(alts) == ShowAlts(alts);
    }
  }
}
