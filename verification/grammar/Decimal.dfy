/** Decimal numerals: their value, their canonical form, and comparison digit by digit. */
module Decimal {
  predicate IsDigit(c: char) { '0' <= c <= '9' }

  predicate AllDigits(s: string) { forall i :: 0 <= i < |s| ==> IsDigit(s[i]) }

  function Pow10(n: nat): (p: nat)
    ensures p >= 1
  {
    if n == 0 then 1 else 10 * Pow10(n - 1)
  }

  function DigitChar(d: nat): (c: char)
    requires d < 10
    ensures IsDigit(c)
  {
    (d + '0' as int) as char
  }

  function DigitValue(c: char): (d: nat)
    requires IsDigit(c)
    ensures d < 10
  {
    c as int - '0' as int
  }

  /** The number a digit string stands for, leading zeros allowed. */
  function Val(s: string): nat
    requires AllDigits(s)
  {
    if s == "" then 0 else 10 * Val(s[..|s| - 1]) + DigitValue(s[|s| - 1])
  }

  /** `std::to_string` of a non-negative number. */
  function ToString(n: nat): (s: string)
    ensures AllDigits(s) && |s| >= 1
  {
    if n < 10 then [DigitChar(n)] else ToString(n / 10) + [DigitChar(n % 10)]
  }

  /** No leading zero, except in "0" itself. */
  predicate Canonical(s: string) {
    |s| >= 1 && AllDigits(s) && (s[0] == '0' ==> |s| == 1)
  }

  lemma {:induction false} ToStringValue(n: nat)
    ensures Val(ToString(n)) == n
  {
    var s := ToString(n);
    if n >= 10 {
      ToStringValue(n / 10);
      assert s[..|s| - 1] == ToString(n / 10);
    } else {
      assert s[..0] == "";
    }
  }

  lemma {:induction false} ToStringCanonical(n: nat)
    ensures Canonical(ToString(n)) && (ToString(n)[0] == '0' <==> n == 0)
  {
    if n >= 10 { ToStringCanonical(n / 10); }
  }

  lemma {:induction false} ValBelow(s: string)
    requires AllDigits(s)
    ensures Val(s) < Pow10(|s|)
  {
    if s != "" { ValBelow(s[..|s| - 1]); }
  }

  /** A numeral without leading zero has at least the value its length demands. */
  lemma {:induction false} ValAtLeast(s: string)
    requires AllDigits(s) && s != "" && s[0] != '0'
    ensures Pow10(|s| - 1) <= Val(s)
  {
    if |s| > 1 { ValAtLeast(s[..|s| - 1]); }
  }

  lemma {:induction false} Pow10Mono(a: nat, b: nat)
    requires a <= b
    ensures Pow10(a) <= Pow10(b)
    decreases b
  {
    if a < b { Pow10Mono(a, b - 1); }
  }

  /** Of two canonical numerals the longer is the greater. */
  lemma LongerIsGreater(s: string, t: string)
    requires Canonical(s) && Canonical(t) && |s| < |t|
    ensures Val(s) < Val(t)
  {
    ValBelow(s);
    ValAtLeast(t);
    Pow10Mono(|s|, |t| - 1);
  }

  lemma {:induction false} ValInjective(s: string, t: string)
    requires AllDigits(s) && AllDigits(t) && |s| == |t| && Val(s) == Val(t)
    ensures s == t
  {
    if s != "" {
      var n := |s| - 1;
      ValInjective(s[..n], t[..n]);
      assert s == s[..n] + [s[n]] && t == t[..n] + [t[n]];
    }
  }

  lemma CanonicalUnique(s: string, n: nat)
    requires Canonical(s) && Val(s) == n
    ensures s == ToString(n)
  {
    var t := ToString(n);
    ToStringValue(n);
    ToStringCanonical(n);
    if |s| < |t| { LongerIsGreater(s, t); }
    if |t| < |s| { LongerIsGreater(t, s); }
    ValInjective(s, t);
  }

  lemma ToStringInjective(a: nat, b: nat)
    requires ToString(a) == ToString(b)
    ensures a == b
  {
    ToStringValue(a);
    ToStringValue(b);
  }

  // ---------------------------------------------------------------------------------------------
  // Comparison digit by digit
  // ---------------------------------------------------------------------------------------------

  predicate Le(a: string, b: string)
    requires |a| == |b|
  {
    a == "" || a[0] < b[0] || (a[0] == b[0] && Le(a[1..], b[1..]))
  }

  function Fill(c: char, n: nat): (s: string)
    ensures |s| == n && forall i :: 0 <= i < n ==> s[i] == c
  {
    seq(n, _ => c)
  }

  function Zeros(n: nat): string { Fill('0', n) }
  function Nines(n: nat): string { Fill('9', n) }

  lemma {:induction false} ZerosLeast(s: string)
    requires AllDigits(s)
    ensures Le(Zeros(|s|), s)
  {
    if s != "" {
      ZerosLeast(s[1..]);
      assert Zeros(|s|)[1..] == Zeros(|s| - 1);
    }
  }

  lemma {:induction false} NinesGreatest(s: string)
    requires AllDigits(s)
    ensures Le(s, Nines(|s|))
  {
    if s != "" {
      NinesGreatest(s[1..]);
      assert Nines(|s|)[1..] == Nines(|s| - 1);
    }
  }

  lemma {:induction false} LeReflexive(s: string)
    ensures Le(s, s)
  {
    if s != "" { LeReflexive(s[1..]); }
  }

  lemma TenTimes(d: nat, p: nat)
    ensures 10 * (d * p) == d * (10 * p)
  {
  }

  /** The leading digit weighs more than all the digits after it. */
  lemma {:induction false} ValHead(s: string)
    requires AllDigits(s) && s != ""
    ensures AllDigits(s[1..]) && Val(s) == DigitValue(s[0]) * Pow10(|s| - 1) + Val(s[1..])
  {
    var n := |s| - 1;
    if n == 0 {
      assert s[..0] == "" && s[1..] == "";
    } else {
      var d, p := DigitValue(s[0]), Pow10(n - 1);
      ValHead(s[..n]);
      assert s[1..][..n - 1] == s[..n][1..];
      TenTimes(d, p);
    }
  }

  lemma {:induction false} LeIsNumeric(a: string, b: string)
    requires |a| == |b| && AllDigits(a) && AllDigits(b)
    ensures Le(a, b) <==> Val(a) <= Val(b)
  {
    if a != "" {
      ValHead(a);
      ValHead(b);
      LeIsNumeric(a[1..], b[1..]);
      ValBelow(a[1..]);
      ValBelow(b[1..]);
      var p := Pow10(|a| - 1);
      if a[0] < b[0] {
        HeadDecides(DigitValue(a[0]), DigitValue(b[0]), Val(a[1..]), Val(b[1..]), p);
      } else if b[0] < a[0] {
        HeadDecides(DigitValue(b[0]), DigitValue(a[0]), Val(b[1..]), Val(a[1..]), p);
      }
    }
  }

  lemma HeadDecides(d: nat, e: nat, x: nat, y: nat, p: nat)
    requires d < e && x < p
    ensures d * p + x < e * p + y
  {
    assert (d + 1) * p <= e * p;
  }
}
