/** Declared keys occur at most once in an accepted object, spelled plainly: no additional member begins with one. */
module DeclaredKeys {
  import opened Gbnf
  import opened Rules
  import opened Symbols
  import opened NotStrings
  import opened KeyClasses
  import opened Schemas
  import opened SchemaGrammar
  import opened StringTexts
  import opened AdditionalKeys

  // ---------------------------------------------------------------------------------------------
  // Keys of additional members
  // ---------------------------------------------------------------------------------------------

  predicate NoQuotes(names: seq<string>) { forall w :: w in names ==> '"' !in w }

  lemma QuoteInside(v: string, w: string, n: nat)
    requires n < |v| && v[n] == '"' && '"' !in w
    ensures !(v <= w)
  {
  }

  /** A key that goes on behind a declared name with a quote leaves the names nowhere, */
  lemma NotDiverging(names: seq<string>, name: string, body: string, k: nat, charRule: string, I: Interp)
    requires name in names && NoQuotes(names) && name + "\"" <= body
    ensures !DivergesAt(names, "", body, k, charRule, I)
  {
    if k < |body| {
      assert body[..|name|] == name && body[|name|] == '"' && "" + body[..k] == body[..k];
      if k < |name| {
        assert body[..k + 1] <= name && "" + body[..k + 1] == body[..k + 1];
      } else if k > |name| {
        forall w | w in names ensures !(body[..k] <= w) { QuoteInside(body[..k], w, |name|); }
      }
    }
  }

  /** and outgrows none of them. */
  lemma NotOutgrowing(names: seq<string>, name: string, body: string, k: nat, charRule: string, I: Interp)
    requires name in names && NoQuotes(names) && CharsFormed(charRule, I) && name + "\"" <= body
    ensures !OutgrowsAt(names, "", body, k, charRule, I)
  {
    if k <= |body| {
      assert body[..|name|] == name && body[|name|] == '"' && "" + body[..k] == body[..k];
      if k < |name| {
        assert body[..k] < name;
      } else if k == |name| {
        SomeCharsIs(body[k..], charRule, I);
        if Chars(body[k..], charRule, I) { OddFirst(body[k..], charRule, I); }
      } else {
        forall w | w in names ensures !(body[..k] <= w) { QuoteInside(body[..k], w, |name|); }
      }
    }
  }

  lemma NoQuoteBehind(names: seq<string>, name: string, body: string, charRule: string, I: Interp)
    requires name in names && NoQuotes(names) && CharsFormed(charRule, I) && name + "\"" <= body
    ensures !FreshBehind(names, "", body, charRule, I)
  {
    forall k: nat
      ensures !DivergesAt(names, "", body, k, charRule, I) && !OutgrowsAt(names, "", body, k, charRule, I)
    {
      NotDiverging(names, name, body, k, charRule, I);
      NotOutgrowing(names, name, body, k, charRule, I);
    }
  }

  /** Where the quotes are in a text that begins with a quoted name. */
  lemma QuotedPoints(name: string, m: string)
    requires Quoted(name) <= m && '"' !in name
    ensures |m| >= |name| + 2 && m[0] == '"' && m[|name| + 1] == '"'
    ensures forall x :: 1 <= x <= |name| ==> m[x] == name[x - 1] && m[x] != '"'
  {
    var q := Quoted(name);
    assert q[0] == '"' && q[|name| + 1] == '"';
    forall x | 1 <= x <= |name| ensures m[x] == name[x - 1] && m[x] != '"' { assert q[x] == name[x - 1]; }
  }

  /** The text of a key begins with no declared name in quotes. */
  lemma KeyIsNew(names: seq<string>, name: string, body: string, w: string, charRule: string, I: Interp)
    requires name in names && HasNonEmpty(names) && NoQuotes(names) && CharsFormed(charRule, I)
    requires KeyBody(names, body, charRule, I)
    ensures !(Quoted(name) <= ['"'] + body + ['"'] + w)
  {
    var k := ['"'] + body + ['"'] + w;
    assert k[|body| + 1] == '"';
    if Quoted(name) <= k {
      QuotedPoints(name, k);
      BodyBegins(name, body, w);
      if |body| == |name| {
        ExcludedNames(names, charRule, I);
      } else {
        NoQuoteBehind(names, name, body, charRule, I);
      }
    }
  }

  lemma BodyBegins(name: string, body: string, w: string)
    requires Quoted(name) <= ['"'] + body + ['"'] + w && '"' !in name
    ensures |body| >= |name| && (if |body| == |name| then body == name else name + "\"" <= body)
  {
    var k := ['"'] + body + ['"'] + w;
    QuotedPoints(name, k);
    assert k[|body| + 1] == '"';
    assert forall x :: 1 <= x <= |body| ==> k[x] == body[x - 1];
    forall i | 0 <= i < |name| ensures body[i] == name[i] { assert k[i + 1] == name[i]; }
    if |body| > |name| {
      assert body[|name|] == k[|name| + 1];
      assert body[..|name| + 1] == name + "\"";
    }
  }

  /** A string that is none of the declared names does not begin with one in quotes. */
  lemma StringIsNew(name: string, body: string, w: string, charRule: string, I: Interp)
    requires PlainJson(name) && name != body && Chars(body, charRule, I) && CharsFormed(charRule, I)
    ensures !(Quoted(name) <= ['"'] + body + ['"'] + w)
  {
    if Quoted(name) <= ['"'] + body + ['"'] + w {
      BodyBegins(name, body, w);
      var n := |name|;
      assert body[..n] == name && body[n..][0] == '"';
      PlainUpTo(body, n, charRule, I);
      OddFirst(body[n..], charRule, I);
    }
  }

  lemma NoQuotesInNames(names: seq<string>)
    requires PlainNames(names)
    ensures NoQuotes(names)
  {
    forall w | w in names ensures '"' !in w { assert PlainJson(w); }
  }

  /** No additional member begins with a declared name in quotes. As the emitted grammar reads, that takes a declared
      name that is not empty. */
  lemma AdditionalKeysAreNew(M: Sense, sc: Schema, m: string, i: nat)
    requires sc.Object? && Supported(PrimitiveTable(), sc) && i < |sc.props|
    requires AdditionalMember(PrimitiveTable(), M, sc, m)
    requires M.mode.Emitted? ==> HasNonEmpty(PropNames(sc.props))
    ensures !(Quoted(sc.props[i].name) <= m)
  {
    var names, name := PropNames(sc.props), sc.props[i].name;
    assert names[i] == name;
    var b := MemberKey(PrimitiveTable(), M, sc, m);
    var body, w := KeySplits(M.mode, names, m[..b]);
    KeyAndRest(m, b, body, w);
    DeclaredPlain(sc);
    NoQuotesInNames(names);
    CharIsFormed();
    if M.mode.Emitted? {
      EmittedKey(names, body, w);
      PassesIsKey(names, body, "char", Builtin(PrimitiveTable()));
      KeyIsNew(names, name, body, w + m[b..], "char", Builtin(PrimitiveTable()));
    } else {
      SpecifiedKey(names, body, w);
      StringIsNew(name, body, w + m[b..], "char", Builtin(PrimitiveTable()));
    }
  }

  lemma MemberKey(T: Table, M: Sense, sc: Schema, m: string) returns (b: nat)
    requires sc.Object? && AdditionalMember(T, M, sc, m)
    ensures b < |m| && OtherKey(T, M.mode, PropNames(sc.props), m[..b])
  {
    var c: nat;
    b, c :| b < c <= |m| && OtherKey(T, M.mode, PropNames(sc.props), m[..b]) && m[b] == ':' && Blank(T, m[b + 1..c]) &&
      match sc.additional
      case NoMore => false
      case AnyMore => ("value", m[c..]) in M.kinds
      case MoreOf(more) => Valid(T, M, more, m[c..]);
  }

  lemma KeyAndRest(m: string, b: nat, body: string, w: string)
    requires b <= |m| && m[..b] == "\"" + body + "\"" + w
    ensures m == ['"'] + body + ['"'] + (w + m[b..])
  {
    assert m == m[..b] + m[b..];
  }

  // ---------------------------------------------------------------------------------------------
  // Members
  // ---------------------------------------------------------------------------------------------

  /** How many members begin with the name in quotes. */
  function Spelled(ms: seq<string>, name: string): nat {
    if ms == [] then 0 else (if Quoted(name) <= ms[0] then 1 else 0) + Spelled(ms[1..], name)
  }

  lemma {:induction false} SpelledBoth(a: seq<string>, b: seq<string>, name: string)
    ensures Spelled(a + b, name) == Spelled(a, name) + Spelled(b, name)
  {
    if a == [] {
      assert a + b == b;
    } else {
      assert (a + b)[1..] == a[1..] + b;
      SpelledBoth(a[1..], b, name);
    }
  }

  lemma QuotedApart(a: string, b: string, m: string)
    requires '"' !in a && '"' !in b && Quoted(a) <= m && Quoted(b) <= m
    ensures a == b
  {
    QuotedPoints(a, m);
    QuotedPoints(b, m);
    assert |a| == |b|;
    forall i | 0 <= i < |a| ensures a[i] == b[i] { assert m[i + 1] == a[i]; }
  }

  /** A declared member begins with its own name, and with no other declared one. */
  /** Names are different, and a JSON dump leaves them alone. */
  predicate NamesApart(sc: Schema)
    requires sc.Object?
  {
    && (forall i :: 0 <= i < |sc.props| ==> PlainJson(sc.props[i].name))
    && (forall i, j :: 0 <= i < j < |sc.props| ==> sc.props[i].name != sc.props[j].name)
  }

  lemma SupportedNames(T: Table, sc: Schema)
    requires sc.Object? && Supported(T, sc)
    ensures NamesApart(sc)
  {
    forall i | 0 <= i < |sc.props| ensures PlainJson(sc.props[i].name) { assert GoodName(sc, sc.props[i].name); }
  }

  lemma MemberSpells(T: Table, M: Sense, sc: Schema, j: nat, m: string, i: nat)
    requires sc.Object? && NamesApart(sc) && i < |sc.props| && j < |sc.props| && Member(T, M, sc, j, m)
    ensures Quoted(sc.props[i].name) <= m <==> i == j
  {
    var q := Quoted(sc.props[j].name);
    assert |q| <= |m| && m[..|q|] == q;
    assert q <= m;
    if Quoted(sc.props[i].name) <= m {
      QuotedApart(sc.props[i].name, sc.props[j].name, m);
    }
  }

  lemma {:induction false} RequiredOnce(T: Table, M: Sense, sc: Schema, j: nat, ms: seq<string>, i: nat)
    requires sc.Object? && NamesApart(sc) && i < |sc.props| && j <= |sc.props| && RequiredMembers(T, M, sc, j, ms)
    ensures Spelled(ms, sc.props[i].name) == if j <= i && sc.props[i].name in sc.required then 1 else 0
    decreases |sc.props| - j
  {
    if j < |sc.props| {
      if sc.props[j].name in sc.required {
        MemberSpells(T, M, sc, j, ms[0], i);
        RequiredOnce(T, M, sc, j + 1, ms[1..], i);
      } else {
        RequiredOnce(T, M, sc, j + 1, ms, i);
      }
    }
  }

  /** No additional member begins with the i-th declared name in quotes. */
  ghost predicate AdditionalNew(T: Table, M: Sense, sc: Schema, i: nat)
    requires sc.Object? && i < |sc.props|
  {
    forall m :: AdditionalMember(T, M, sc, m) ==> !(Quoted(sc.props[i].name) <= m)
  }

  lemma {:induction false} NoneSpelled(T: Table, M: Sense, sc: Schema, ms: seq<string>, i: nat)
    requires sc.Object? && i < |sc.props| && AdditionalNew(T, M, sc, i)
    requires forall j :: 0 <= j < |ms| ==> AdditionalMember(T, M, sc, ms[j])
    ensures Spelled(ms, sc.props[i].name) == 0
  {
    if ms != [] {
      forall j | 0 <= j < |ms[1..]| ensures AdditionalMember(T, M, sc, ms[1..][j]) { assert ms[1..][j] == ms[j + 1]; }
      NoneSpelled(T, M, sc, ms[1..], i);
    }
  }

  lemma OptionalHere(T: Table, M: Sense, sc: Schema, j: nat, ms: seq<string>) returns (rest: seq<string>)
    requires sc.Object? && j < |sc.props| && OptionalMembers(T, M, sc, j, ms)
    ensures OptionalMembers(T, M, sc, j + 1, rest)
    ensures rest == ms
            || (sc.props[j].name !in sc.required && ms != [] && Member(T, M, sc, j, ms[0]) && rest == ms[1..])
  {
    rest := if OptionalMembers(T, M, sc, j + 1, ms) then ms else ms[1..];
  }

  lemma OptionalEnd(T: Table, M: Sense, sc: Schema, ms: seq<string>, i: nat)
    requires sc.Object? && i < |sc.props| && OptionalMembers(T, M, sc, |sc.props|, ms) && AdditionalNew(T, M, sc, i)
    ensures Spelled(ms, sc.props[i].name) == 0
  {
    NoneSpelled(T, M, sc, ms, i);
  }

  /** How often the i-th name may occur from property j on. */
  function AtMost(sc: Schema, j: nat, i: nat): nat
    requires sc.Object? && i < |sc.props|
  {
    if j <= i && sc.props[i].name !in sc.required then 1 else 0
  }

  lemma SpelledHere(T: Table, M: Sense, sc: Schema, j: nat, ms: seq<string>, i: nat)
    requires sc.Object? && NamesApart(sc) && i < |sc.props| && j < |sc.props| && sc.props[j].name !in sc.required
    requires ms != [] && Member(T, M, sc, j, ms[0]) && Spelled(ms[1..], sc.props[i].name) <= AtMost(sc, j + 1, i)
    ensures Spelled(ms, sc.props[i].name) <= AtMost(sc, j, i)
  {
    MemberSpells(T, M, sc, j, ms[0], i);
  }

  lemma {:induction false} OptionalOnce(T: Table, M: Sense, sc: Schema, j: nat, ms: seq<string>, i: nat)
    requires sc.Object? && NamesApart(sc) && i < |sc.props| && j <= |sc.props| && OptionalMembers(T, M, sc, j, ms)
    requires AdditionalNew(T, M, sc, i)
    ensures Spelled(ms, sc.props[i].name) <= AtMost(sc, j, i)
    decreases |sc.props| - j
  {
    if j == |sc.props| {
      OptionalEnd(T, M, sc, ms, i);
    } else {
      var rest := OptionalHere(T, M, sc, j, ms);
      OptionalOnce(T, M, sc, j + 1, rest, i);
      if rest != ms { SpelledHere(T, M, sc, j, ms, i); }
    }
  }

  /** The members of an accepted object: each declared key occurs at most once in its plain spelling, a required one
      exactly once. */
  lemma DeclaredOnce(M: Sense, sc: Schema, req: seq<string>, opt: seq<string>, i: nat)
    requires sc.Object? && Supported(PrimitiveTable(), sc) && i < |sc.props|
    requires RequiredMembers(PrimitiveTable(), M, sc, 0, req) && OptionalMembers(PrimitiveTable(), M, sc, 0, opt)
    requires M.mode.Emitted? ==> HasNonEmpty(PropNames(sc.props))
    ensures Spelled(req + opt, sc.props[i].name) <= 1
    ensures sc.props[i].name in sc.required ==> Spelled(req + opt, sc.props[i].name) == 1
  {
    var T := PrimitiveTable();
    forall m | AdditionalMember(T, M, sc, m) ensures !(Quoted(sc.props[i].name) <= m) {
      AdditionalKeysAreNew(M, sc, m, i);
    }
    SupportedNames(T, sc);
    RequiredOnce(T, M, sc, 0, req, i);
    OptionalOnce(T, M, sc, 0, opt, i);
    SpelledBoth(req, opt, sc.props[i].name);
  }
}
