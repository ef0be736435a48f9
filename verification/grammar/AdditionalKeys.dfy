/** Keys of additional members: which texts the emitted rule takes for keys, and which keys it should have taken. */
module AdditionalKeys {
  import opened Gbnf
  import opened Rules
  import opened Symbols
  import opened Repetition
  import opened NotStrings
  import opened KeyClasses
  import opened Schemas
  import opened Tables
  import opened Naming
  import opened SchemaGrammar
  import opened StringTexts
  import opened ObjectTexts
  import NumberTexts
  import Primitives

  // ---------------------------------------------------------------------------------------------
  // Where a key leaves the names
  // ---------------------------------------------------------------------------------------------

  predicate PlainNames(names: seq<string>) { forall w :: w in names ==> PlainJson(w) }

  /** After k characters the body leaves the names, where some of them go on. */
  predicate LeavesAt(names: seq<string>, body: string, k: nat) {
    k < |body| && HasLonger(names, body[..k]) && !BeginsName(names, body[..k + 1])
  }

  /** At k a string goes on: with a plain character, or with a backslash that begins an escape. */
  ghost predicate GoesOnAt(body: string, k: nat, charRule: string, I: Interp)
    requires k < |body|
  {
    PlainJson(body[k..k + 1]) || (body[k] == '\\' && Chars(body[k..], charRule, I))
  }

  lemma PlainPrefix(names: seq<string>, v: string)
    requires PlainNames(names) && BeginsName(names, v)
    ensures PlainJson(v)
  {
    var w :| w in names && v <= w;
    assert forall i :: 0 <= i < |v| ==> v[i] == w[i];
  }

  lemma BeginsUpTo(names: seq<string>, body: string, j: nat)
    requires j <= |body| && BeginsName(names, body[..j])
    ensures forall i :: 0 <= i <= j ==> BeginsName(names, body[..i])
  {
    forall i | 0 <= i <= j ensures BeginsName(names, body[..i]) { BeginsShorter(names, body[..i], body[..j]); }
  }

  lemma LeavesOnce(names: seq<string>, body: string, j: nat, k: nat)
    requires LeavesAt(names, body, j) && LeavesAt(names, body, k)
    ensures j == k
  {
    LongerBegins(names, body[..j]);
    LongerBegins(names, body[..k]);
    BeginsUpTo(names, body, j);
    BeginsUpTo(names, body, k);
  }

  lemma LongerBegins(names: seq<string>, v: string)
    requires HasLonger(names, v)
    ensures BeginsName(names, v)
  {
  }

  lemma Behind(body: string, k: nat)
    requires k < |body|
    ensures body[k..][..1] == body[k..k + 1] && body[k..][1..] == body[k + 1..] && body[k..][0] == body[k]
  {
  }

  /** Where the names are left, the rest decides whether the body is one of string characters. */
  lemma CharsFrom(names: seq<string>, body: string, k: nat, charRule: string, I: Interp)
    requires PlainNames(names) && LeavesAt(names, body, k) && CharsFormed(charRule, I)
    ensures Chars(body, charRule, I) <==> Chars(body[k..], charRule, I)
  {
    LongerBegins(names, body[..k]);
    PlainPrefix(names, body[..k]);
    PlainUpTo(body, k, charRule, I);
  }

  /** What the emitted rule asks where the names are left. */
  ghost predicate RestIsChars(body: string, k: nat, charRule: string, I: Interp)
    requires k < |body|
  {
    body[k] != '"' && Chars(body[k + 1..], charRule, I)
  }

  lemma RestDecides(names: seq<string>, body: string, k: nat, charRule: string, I: Interp)
    requires LeavesAt(names, body, k)
    ensures FreshBehind(names, "", body, charRule, I) <==> RestIsChars(body, k, charRule, I)
  {
    assert "" + body[..k] == body[..k] && "" + body[..k + 1] == body[..k + 1];
    if RestIsChars(body, k, charRule, I) {
      assert DivergesAt(names, "", body, k, charRule, I);
    }
    if j: nat :| DivergesAt(names, "", body, j, charRule, I) || OutgrowsAt(names, "", body, j, charRule, I) {
      assert "" + body[..j] == body[..j];
      if DivergesAt(names, "", body, j, charRule, I) {
        assert "" + body[..j + 1] == body[..j + 1];
        LeavesOnce(names, body, j, k);
      } else {
        NotOutgrown(names, body, j, k);
      }
    }
  }

  /** What leaves the names where some go on outgrows none of them. */
  lemma NotOutgrown(names: seq<string>, body: string, j: nat, k: nat)
    requires LeavesAt(names, body, k) && j <= |body| && body[..j] in names
    ensures HasLonger(names, body[..j])
  {
    assert body[..j] <= body[..j];
    BeginsUpTo(names, body, j);
    assert j <= k;
    if j < k {
      var w :| w in names && body[..k] < w;
      assert body[..j] < w;
    }
  }

  // ---------------------------------------------------------------------------------------------
  // Accepted keys that are strings, and refused ones
  // ---------------------------------------------------------------------------------------------

  /** An accepted key is a string if and only if it goes on as one where it leaves the names. */
  lemma AcceptedKey(names: seq<string>, body: string, charRule: string, I: Interp)
    requires HasNonEmpty(names) && PlainNames(names) && CharsFormed(charRule, I)
    requires KeyBody(names, body, charRule, I)
    ensures Chars(body, charRule, I) <==>
            forall k :: 0 <= k < |body| && LeavesAt(names, body, k) ==> GoesOnAt(body, k, charRule, I)
  {
    if body == "" {
      NoChars(charRule, I);
    } else if k :| 0 <= k < |body| && LeavesAt(names, body, k) {
      RestDecides(names, body, k, charRule, I);
      forall j | 0 <= j < |body| && LeavesAt(names, body, j) ensures j == k { LeavesOnce(names, body, j, k); }
      CharsFrom(names, body, k, charRule, I);
      StringGoesOn(body, k, charRule, I);
    } else {
      OutgrownIsString(names, body, charRule, I);
    }
  }

  lemma StringGoesOn(body: string, k: nat, charRule: string, I: Interp)
    requires k < |body| && CharsFormed(charRule, I) && RestIsChars(body, k, charRule, I)
    ensures Chars(body[k..], charRule, I) <==> GoesOnAt(body, k, charRule, I)
  {
    Behind(body, k);
    if PlainJson(body[k..k + 1]) {
      PlainFirst(body[k..], charRule, I);
    } else if Chars(body[k..], charRule, I) {
      OddFirst(body[k..], charRule, I);
    }
  }

  lemma OutgrownIsString(names: seq<string>, body: string, charRule: string, I: Interp)
    requires PlainNames(names) && CharsFormed(charRule, I) && FreshBehind(names, "", body, charRule, I)
    requires forall k :: 0 <= k < |body| ==> !LeavesAt(names, body, k)
    ensures Chars(body, charRule, I)
  {
    var k: nat :| DivergesAt(names, "", body, k, charRule, I) || OutgrowsAt(names, "", body, k, charRule, I);
    assert "" + body[..k] == body[..k];
    assert k < |body| ==> "" + body[..k + 1] == body[..k + 1] && !LeavesAt(names, body, k);
    if OutgrowsAt(names, "", body, k, charRule, I) {
      assert body[..k] in names && body[..k] <= body[..k];
      PlainPrefix(names, body[..k]);
      SomeCharsIs(body[k..], charRule, I);
      PlainUpTo(body, k, charRule, I);
    }
  }

  /** Among strings, the emitted rule refuses exactly the beginnings of names and those that leave the names with a
      backslash behind which there are no string characters. */
  lemma AcceptedString(names: seq<string>, body: string, charRule: string, I: Interp)
    requires HasNonEmpty(names) && PlainNames(names) && CharsFormed(charRule, I)
    requires Chars(body, charRule, I) && body != ""
    ensures KeyBody(names, body, charRule, I) <==>
            !BeginsName(names, body)
            && forall k :: 0 <= k < |body| && LeavesAt(names, body, k) && body[k] == '\\' ==>
                             Chars(body[k + 1..], charRule, I)
  {
    if BeginsName(names, body) {
      if FreshBehind(names, "", body, charRule, I) { FreshBeginsNone(names, body, charRule, I); }
    } else if k :| 0 <= k < |body| && LeavesAt(names, body, k) {
      RestDecides(names, body, k, charRule, I);
      forall j | 0 <= j < |body| && LeavesAt(names, body, j) ensures j == k { LeavesOnce(names, body, j, k); }
      CharsFrom(names, body, k, charRule, I);
      Behind(body, k);
      OddFirst(body[k..], charRule, I);
      if body[k] != '\\' { PlainFirst(body[k..], charRule, I); }
    } else {
      StringOutgrows(names, body, charRule, I);
    }
  }

  lemma StringOutgrows(names: seq<string>, body: string, charRule: string, I: Interp)
    requires HasNonEmpty(names) && PlainNames(names) && CharsFormed(charRule, I) && Chars(body, charRule, I)
    requires !BeginsName(names, body) && forall k :: 0 <= k < |body| ==> !LeavesAt(names, body, k)
    ensures FreshBehind(names, "", body, charRule, I)
  {
    assert body[..|body|] == body;
    var k := LastPrefix(names, body, |body|);
    assert !LeavesAt(names, body, k);
    var w :| w in names && body[..k] <= w;
    assert w == body[..k] && "" + body[..k] == body[..k];
    PlainPrefix(names, body[..k]);
    PlainUpTo(body, k, charRule, I);
    SomeCharsIs(body[k..], charRule, I);
    var v :| v in names && v != "";
    assert "" < v;
    assert k != 0;
    assert OutgrowsAt(names, "", body, k, charRule, I);
  }

  // ---------------------------------------------------------------------------------------------
  // The texts of keys
  // ---------------------------------------------------------------------------------------------

  lemma EmittedKey(names: seq<string>, body: string, w: string)
    requires names != [] && Blank(PrimitiveTable(), w)
    ensures OtherKey(PrimitiveTable(), Emitted, names, KeyOf(body, w)) <==>
            BodyPasses(names, body, "char", Builtin(PrimitiveTable()))
  {
    if b, v :| KeyOf(body, w) == "\"" + b + "\"" + v && BodyPasses(names, b, "char", Builtin(PrimitiveTable()))
               && ("space", v) in Builtin(PrimitiveTable()) {
      BlankQuoteFree(v);
      BlankQuoteFree(w);
      SameBody(body, w, b, v);
    }
  }

  lemma SpelledText(name: string, k: string)
    requires Quoted(name) <= k
    ensures k == KeyOf(name, k[|Quoted(name)|..])
  {
    var n := |Quoted(name)|;
    assert k == k[..n] + k[n..] && k[..n] == Quoted(name);
  }

  lemma KeyText(body: string, w: string)
    ensures Quoted(body) <= KeyOf(body, w) && KeyOf(body, w)[|Quoted(body)|..] == w
  {
    assert KeyOf(body, w) == Quoted(body) + w;
  }

  lemma SpellsIs(name: string, body: string, w: string)
    requires Blank(PrimitiveTable(), w)
    ensures Spells(PrimitiveTable(), name, KeyOf(body, w)) <==> name == body
  {
    var k := KeyOf(body, w);
    KeyText(body, w);
    if Spells(PrimitiveTable(), name, k) {
      var v := k[|Quoted(name)|..];
      SpelledText(name, k);
      BlankQuoteFree(v);
      BlankQuoteFree(w);
      SameBody(body, w, name, v);
    }
  }

  lemma SpecifiedKey(names: seq<string>, body: string, w: string)
    requires Blank(PrimitiveTable(), w)
    ensures OtherKey(PrimitiveTable(), Specified, names, KeyOf(body, w)) <==>
            Chars(body, "char", Builtin(PrimitiveTable())) && body !in names
  {
    StringMeans(body, w);
    forall n ensures Spells(PrimitiveTable(), n, KeyOf(body, w)) <==> n == body { SpellsIs(n, body, w); }
  }

  /** A text that the emitted rule takes for a key is the key of an additional member if and only if it goes on as a
      string where it leaves the names. */
  lemma AcceptedIsMeant(names: seq<string>, body: string, w: string)
    requires HasNonEmpty(names) && PlainNames(names) && Blank(PrimitiveTable(), w)
    requires OtherKey(PrimitiveTable(), Emitted, names, KeyOf(body, w))
    ensures OtherKey(PrimitiveTable(), Specified, names, KeyOf(body, w)) <==>
            forall k :: 0 <= k < |body| && LeavesAt(names, body, k) ==>
                          GoesOnAt(body, k, "char", Builtin(PrimitiveTable()))
  {
    CharIsFormed();
    EmittedKey(names, body, w);
    SpecifiedKey(names, body, w);
    PassesIsKey(names, body, "char", Builtin(PrimitiveTable()));
    ExcludedNames(names, "char", Builtin(PrimitiveTable()));
    AcceptedKey(names, body, "char", Builtin(PrimitiveTable()));
  }

  /** The key of an additional member is accepted if and only if it begins no declared name, and has string characters
      behind the backslash where it leaves the names with one. */
  lemma MeantIsAccepted(names: seq<string>, body: string, w: string)
    requires HasNonEmpty(names) && PlainNames(names) && DashSafeTrie(TrieOf(names))
    requires Blank(PrimitiveTable(), w) && body != ""
    requires OtherKey(PrimitiveTable(), Specified, names, KeyOf(body, w))
    ensures OtherKey(PrimitiveTable(), Emitted, names, KeyOf(body, w)) <==>
            !BeginsName(names, body)
            && forall k :: 0 <= k < |body| && LeavesAt(names, body, k) && body[k] == '\\' ==>
                             Chars(body[k + 1..], "char", Builtin(PrimitiveTable()))
  {
    CharIsFormed();
    EmittedKey(names, body, w);
    SpecifiedKey(names, body, w);
    SafeIsKey(names, body, "char", Builtin(PrimitiveTable()));
    AcceptedString(names, body, "char", Builtin(PrimitiveTable()));
  }

  // ---------------------------------------------------------------------------------------------
  // Inputs
  // ---------------------------------------------------------------------------------------------

  /** What begins with no plain character leaves plain names at once. */
  lemma LeavesAtOnce(names: seq<string>, body: string)
    requires HasNonEmpty(names) && PlainNames(names) && body != "" && !PlainJson(body[..1])
    ensures LeavesAt(names, body, 0)
  {
    var v :| v in names && v != "";
    assert body[..0] == "" && "" < v;
    if BeginsName(names, body[..1]) { PlainPrefix(names, body[..1]); }
  }

  /** One character that is neither plain nor a quote is accepted as a key. */
  lemma LoneCharacter(names: seq<string>, c: char)
    requires HasNonEmpty(names) && PlainNames(names) && DashSafeTrie(TrieOf(names))
    requires !PlainJson([c]) && c != '"'
    ensures OtherKey(PrimitiveTable(), Emitted, names, KeyOf([c], ""))
    ensures !OtherKey(PrimitiveTable(), Specified, names, KeyOf([c], ""))
  {
    NumberTexts.BlankBegins("");
    CharIsFormed();
    assert [c][..1] == [c] && [c][1..] == "";
    LeavesAtOnce(names, [c]);
    NoChars("char", Builtin(PrimitiveTable()));
    RestDecides(names, [c], 0, "char", Builtin(PrimitiveTable()));
    SafeIsKey(names, [c], "char", Builtin(PrimitiveTable()));
    EmittedKey(names, [c], "");
    SpecifiedKey(names, [c], "");
    if Chars([c], "char", Builtin(PrimitiveTable())) { OddFirst([c], "char", Builtin(PrimitiveTable())); }
  }

  /** What is no string character cannot be accepted behind itself. */
  lemma DoubleIsRefused(names: seq<string>, c: char, charRule: string, I: Interp)
    requires HasNonEmpty(names) && PlainNames(names) && CharsFormed(charRule, I) && !PlainJson([c])
    ensures !FreshBehind(names, "", [c, c], charRule, I) && [c, c] !in names
  {
    var s := [c, c];
    assert s[..1] == [c] && s[1..] == [c] && s[0] == [c][0];
    LeavesAtOnce(names, s);
    if Chars([c], charRule, I) { OddFirst([c], charRule, I); }
    RestDecides(names, s, 0, charRule, I);
  }

  lemma StaleIsRefused(names: seq<string>, body: string)
    requires HasNonEmpty(names) && body != "" && !FreshBehind(names, "", body, "char", Builtin(PrimitiveTable()))
    ensures !OtherKey(PrimitiveTable(), Emitted, names, KeyOf(body, ""))
  {
    NumberTexts.BlankBegins("");
    EmittedKey(names, body, "");
    if BodyPasses(names, body, "char", Builtin(PrimitiveTable())) {
      PassesIsKey(names, body, "char", Builtin(PrimitiveTable()));
    }
  }

  lemma CharsAreMeant(names: seq<string>, body: string)
    requires Chars(body, "char", Builtin(PrimitiveTable())) && body !in names
    ensures OtherKey(PrimitiveTable(), Specified, names, KeyOf(body, ""))
  {
    NumberTexts.BlankBegins("");
    SpecifiedKey(names, body, "");
  }

  lemma TwiceIsRefused(names: seq<string>, s: string, c: char)
    requires HasNonEmpty(names) && PlainNames(names) && !PlainJson([c]) && s == [c, c]
    requires Chars(s, "char", Builtin(PrimitiveTable()))
    ensures OtherKey(PrimitiveTable(), Specified, names, KeyOf(s, ""))
    ensures !OtherKey(PrimitiveTable(), Emitted, names, KeyOf(s, ""))
  {
    CharIsFormed();
    DoubleIsRefused(names, c, "char", Builtin(PrimitiveTable()));
    StaleIsRefused(names, s);
    CharsAreMeant(names, s);
  }

  lemma BackslashIsNotPlain()
    ensures !PlainJson(['\\'])
  {
    assert ['\\'][0] == '\\';
  }

  /** The string of one backslash, escaped, is refused. */
  lemma EscapedBackslashRefused(names: seq<string>)
    requires HasNonEmpty(names) && PlainNames(names)
    ensures OtherKey(PrimitiveTable(), Specified, names, KeyOf(TWO, ""))
    ensures !OtherKey(PrimitiveTable(), Emitted, names, KeyOf(TWO, ""))
  {
    BackslashIsNotPlain();
    BackslashIsEscaped();
    TwiceIsRefused(names, TWO, '\\');
  }

  const TWO: string := ['\\', '\\']

  // ---------------------------------------------------------------------------------------------
  // Objects with such keys
  // ---------------------------------------------------------------------------------------------

  /** The values of additional members. */
  ghost predicate MoreValue(T: Table, M: Sense, sc: Schema, v: string)
    requires sc.Object?
  {
    match sc.additional
    case NoMore => false
    case AnyMore => ("value", v) in M.kinds
    case MoreOf(more) => Valid(T, M, more, v)
  }

  function KeyValue(e: string, v: string): string { KeyOf(e, "") + (":" + v) }

  lemma KeyValuePoints(e: string, v: string)
    requires NoQuote(e) && NoQuote(v)
    ensures var t := KeyValue(e, v);
            && |t| == |e| + 3 + |v| && t[..|e| + 2] == KeyOf(e, "") && t[|e| + 2] == ':' && t[|e| + 3..] == v
            && forall x :: 0 <= x < |t| ==> (t[x] == '"' <==> x == 0 || x == |e| + 1)
  {
    var t, k := KeyValue(e, v), KeyOf(e, "");
    assert |k| == |e| + 2 && t[..|k|] == k && t[|k|..] == ":" + v && (":" + v)[1..] == v;
    forall x | 0 <= x < |t| ensures t[x] == '"' <==> x == 0 || x == |e| + 1 {
      if 1 <= x <= |e| { assert t[x] == e[x - 1]; }
      if x >= |e| + 3 { assert t[x] == v[x - |e| - 3]; }
    }
  }

  lemma MemberOf(T: Table, M: Sense, sc: Schema, e: string, v: string)
    requires sc.Object? && Blank(T, "") && NoQuote(e) && NoQuote(v) && MoreValue(T, M, sc, v)
    requires OtherKey(T, M.mode, PropNames(sc.props), KeyOf(e, ""))
    ensures AdditionalMember(T, M, sc, KeyValue(e, v))
  {
    var t := KeyValue(e, v);
    var b := |e| + 2;
    KeyValuePoints(e, v);
    assert t[b + 1..b + 1] == "";
    assert b < b + 1 <= |t| && OtherKey(T, M.mode, PropNames(sc.props), t[..b]) && t[b] == ':'
      && Blank(T, t[b + 1..b + 1]);
  }

  /** A key that a text begins with, in either sense, is a quoted body with white space behind it. */
  lemma KeySplits(mode: Mode, names: seq<string>, k: string) returns (body: string, w: string)
    requires OtherKey(PrimitiveTable(), mode, names, k)
    ensures k == KeyOf(body, w) && Blank(PrimitiveTable(), w)
  {
    if mode.Emitted? && names != [] {
      body, w :| k == "\"" + body + "\"" + w && BodyPasses(names, body, "char", Builtin(PrimitiveTable()))
                && ("space", w) in Builtin(PrimitiveTable());
    } else {
      BuiltinKind("string", k);
      body, w := StringSplits(k, Builtin(PrimitiveTable()));
    }
  }

  lemma KeyPoints(body: string, w: string)
    ensures var k := KeyOf(body, w);
            && |k| == |body| + 2 + |w| && k[|body| + 1] == '"' && (w != "" ==> k[|body| + 2] == w[0])
            && forall x :: 1 <= x <= |body| ==> k[x] == body[x - 1]
  {
    var k := KeyOf(body, w);
    forall x | 1 <= x <= |body| ensures k[x] == body[x - 1] { }
  }

  lemma SamePrefix(a: string, t: string, x: nat)
    requires a <= t
    ensures x < |a| ==> x < |t| && a[x] == t[x]
  {
  }

  /** The text has two quotes, so it begins with one key at most. */
  lemma OnlyKey(e: string, v: string, body: string, w: string)
    requires NoQuote(e) && NoQuote(v) && Blank(PrimitiveTable(), w) && KeyOf(body, w) <= KeyValue(e, v)
    ensures body == e && w == ""
  {
    var t, k := KeyValue(e, v), KeyOf(body, w);
    KeyValuePoints(e, v);
    KeyPoints(body, w);
    SamePrefix(k, t, |body| + 1);
    assert |body| == |e|;
    SameFront(e, v, body, w);
    NumberTexts.BlankBegins(w);
    SamePrefix(k, t, |body| + 2);
  }

  lemma SameFront(e: string, v: string, body: string, w: string)
    requires KeyOf(body, w) <= KeyValue(e, v) && |body| == |e|
    ensures body == e
  {
    var t, k := KeyValue(e, v), KeyOf(body, w);
    KeyPoints(body, w);
    KeyPoints(e, ":" + v);
    assert t == KeyOf(e, ":" + v);
    forall x | 0 <= x < |e| ensures body[x] == e[x] { SamePrefix(k, t, x + 1); }
  }

  /** No declared member begins it. */
  lemma NotDeclared(M: Sense, sc: Schema, i: nat, e: string, v: string, m: string)
    requires sc.Object? && i < |sc.props| && PlainJson(sc.props[i].name) && !PlainJson(e)
    requires NoQuote(e) && NoQuote(v) && m <= KeyValue(e, v)
    ensures !Member(PrimitiveTable(), M, sc, i, m)
  {
    var name := sc.props[i].name;
    NumberTexts.BlankBegins("");
    assert KeyOf(name, "") == Quoted(name);
    if Member(PrimitiveTable(), M, sc, i, m) {
      assert m[..|Quoted(name)|] == Quoted(name);
      assert KeyOf(name, "") <= KeyValue(e, v);
      OnlyKey(e, v, name, "");
    }
  }

  lemma NotAdditional(M: Sense, sc: Schema, e: string, v: string, m: string)
    requires sc.Object? && NoQuote(e) && NoQuote(v) && m <= KeyValue(e, v)
    requires !OtherKey(PrimitiveTable(), M.mode, PropNames(sc.props), KeyOf(e, ""))
    ensures !AdditionalMember(PrimitiveTable(), M, sc, m)
  {
    forall b: nat | b < |m| ensures !OtherKey(PrimitiveTable(), M.mode, PropNames(sc.props), m[..b]) {
      if OtherKey(PrimitiveTable(), M.mode, PropNames(sc.props), m[..b]) {
        var body, w := KeySplits(M.mode, PropNames(sc.props), m[..b]);
        OnlyKey(e, v, body, w);
      }
    }
  }

  /** An object of one additional member, whose value has no quotes: it is accepted exactly if its key is. */
  lemma ObjectByKey(M: Sense, sc: Schema, e: string, v: string)
    requires sc.Object? && Supported(PrimitiveTable(), sc) && NoneRequired(sc)
    requires NoQuote(e) && NoQuote(v) && !PlainJson(e) && MoreValue(PrimitiveTable(), M, sc, v)
    ensures Valid(PrimitiveTable(), M, sc, Braced(KeyValue(e, v))) <==>
            OtherKey(PrimitiveTable(), M.mode, PropNames(sc.props), KeyOf(e, ""))
  {
    NumberTexts.BlankIsApart();
    KeyValuePoints(e, v);
    if OtherKey(PrimitiveTable(), M.mode, PropNames(sc.props), KeyOf(e, "")) {
      MemberOf(PrimitiveTable(), M, sc, e, v);
      AdditionalAlone(PrimitiveTable(), M, sc, KeyValue(e, v));
    } else {
      ObjectRejected(M, sc, e, v);
    }
  }

  lemma NoMemberBegins(M: Sense, sc: Schema, e: string, v: string, m: string)
    requires sc.Object? && Supported(PrimitiveTable(), sc) && NoQuote(e) && NoQuote(v) && !PlainJson(e)
    requires !OtherKey(PrimitiveTable(), M.mode, PropNames(sc.props), KeyOf(e, "")) && m <= KeyValue(e, v)
    ensures !SomeMember(PrimitiveTable(), M, sc, m)
  {
    NotAdditional(M, sc, e, v, m);
    forall i | 0 <= i < |sc.props| ensures !Member(PrimitiveTable(), M, sc, i, m) {
      assert GoodName(sc, sc.props[i].name);
      NotDeclared(M, sc, i, e, v, m);
    }
  }

  lemma ObjectRejected(M: Sense, sc: Schema, e: string, v: string)
    requires sc.Object? && Supported(PrimitiveTable(), sc) && NoQuote(e) && NoQuote(v) && !PlainJson(e)
    requires !OtherKey(PrimitiveTable(), M.mode, PropNames(sc.props), KeyOf(e, ""))
    ensures !Valid(PrimitiveTable(), M, sc, Braced(KeyValue(e, v)))
  {
    var t := KeyValue(e, v);
    NumberTexts.BlankIsApart();
    KeyValuePoints(e, v);
    forall m | m <= t ensures !SomeMember(PrimitiveTable(), M, sc, m) { NoMemberBegins(M, sc, e, v, m); }
    ObjectWithout(PrimitiveTable(), M, sc, t);
  }

  lemma DeclaredPlain(sc: Schema)
    requires sc.Object? && Supported(PrimitiveTable(), sc)
    ensures PlainNames(PropNames(sc.props))
  {
    forall w | w in PropNames(sc.props) ensures PlainJson(w) {
      var i :| 0 <= i < |sc.props| && PropNames(sc.props)[i] == w;
      assert GoodName(sc, sc.props[i].name);
    }
  }

  lemma LoneKey(sc: Schema, c: char)
    requires sc.Object? && Supported(PrimitiveTable(), sc) && HasNonEmpty(PropNames(sc.props))
    requires DashSafeTrie(TrieOf(PropNames(sc.props))) && !PlainJson([c]) && c != '"'
    ensures OtherKey(PrimitiveTable(), Emitted, PropNames(sc.props), KeyOf([c], ""))
    ensures !OtherKey(PrimitiveTable(), Specified, PropNames(sc.props), KeyOf([c], "")) && NoQuote([c])
  {
    DeclaredPlain(sc);
    LoneCharacter(PropNames(sc.props), c);
  }

  /** An object with declared properties, none of them required, that allows others with a value without quotes: the
      grammar accepts a lone character that is not plain as a key, */
  lemma AcceptsTooMuch(I: Interp, sc: Schema, c: char, v: string)
    requires sc.Object? && Supported(PrimitiveTable(), sc) && NoneRequired(sc) && HasNonEmpty(PropNames(sc.props))
    requires DashSafeTrie(TrieOf(PropNames(sc.props))) && !PlainJson([c]) && c != '"' && NoQuote(v)
    ensures MoreValue(PrimitiveTable(), Emitting(I), sc, v) ==>
              Valid(PrimitiveTable(), Emitting(I), sc, Braced(KeyValue([c], v)))
    ensures !Valid(PrimitiveTable(), Meant(PrimitiveTable()), sc, Braced(KeyValue([c], v)))
  {
    var e := [c];
    LoneKey(sc, c);
    ObjectRejected(Meant(PrimitiveTable()), sc, e, v);
    if MoreValue(PrimitiveTable(), Emitting(I), sc, v) { ObjectByKey(Emitting(I), sc, e, v); }
  }

  /** and refuses the string of one backslash. */
  lemma AcceptsTooLittle(I: Interp, sc: Schema, v: string)
    requires sc.Object? && Supported(PrimitiveTable(), sc) && NoneRequired(sc) && HasNonEmpty(PropNames(sc.props))
    requires NoQuote(v)
    ensures MoreValue(PrimitiveTable(), Meant(PrimitiveTable()), sc, v) ==>
              Valid(PrimitiveTable(), Meant(PrimitiveTable()), sc, Braced(KeyValue(TWO, v)))
    ensures !Valid(PrimitiveTable(), Emitting(I), sc, Braced(KeyValue(TWO, v)))
  {
    DeclaredPlain(sc);
    EscapedBackslashRefused(PropNames(sc.props));
    BackslashesAreNotPlain();
    if MoreValue(PrimitiveTable(), Meant(PrimitiveTable()), sc, v) {
      ObjectByKey(Meant(PrimitiveTable()), sc, TWO, v);
    }
    ObjectRejected(Emitting(I), sc, TWO, v);
  }

  lemma BackslashesAreNotPlain()
    ensures !PlainJson(TWO) && NoQuote(TWO)
  {
    assert TWO[0] == '\\';
  }

  // ---------------------------------------------------------------------------------------------
  // One schema
  // ---------------------------------------------------------------------------------------------

  /** A property `a` and any others, all of them the constant 1. */
  const KEYED: Schema := Object([Prop("a", Constant("1"))], {}, MoreOf(Constant("1")))

  lemma KeyedNames()
    ensures PropNames(KEYED.props) == ["a"] && DashSafeTrie(TrieOf(["a"])) && HasNonEmpty(["a"])
  {
    assert "a" in ["a"];
    forall u ensures !BeginsName(["a"], u + "-") { DashInside(u, "a"); }
    SafeNames(["a"]);
  }

  lemma DashInside(u: string, w: string)
    requires '-' !in w
    ensures !(u + "-" <= w)
  {
    assert (u + "-")[|u|] == '-';
  }

  lemma KeyedSupported()
    ensures Supported(PrimitiveTable(), KEYED) && RootNames(KEYED, "") && PropsUseNameChars(KEYED)
    ensures NoneRequired(KEYED)
  {
    TableHolds("value");
    TableHolds("string");
    TableHolds("char");
    assert PlainText("a") && GoodName(KEYED, "a") && AllNameChars("a");
    assert Supported(PrimitiveTable(), Constant("1"));
  }

  lemma KeyedValue(M: Sense)
    ensures MoreValue(PrimitiveTable(), M, KEYED, "1") && NoQuote("1")
  {
    NumberTexts.BlankBegins("");
    assert "1"[|"1"|..] == "";
  }

  /** Its grammar accepts {"\":1}, which is no JSON, and refuses {"\\":1}, which is an object of the schema. */
  method KeyInputs() returns (rules: RuleMap)
    ensures Derives(rules, "root", Braced(KeyValue(['\\'], "1")))
    ensures !Valid(PrimitiveTable(), Meant(PrimitiveTable()), KEYED, Braced(KeyValue(['\\'], "1")))
    ensures !Derives(rules, "root", Braced(KeyValue(TWO, "1")))
    ensures Valid(PrimitiveTable(), Meant(PrimitiveTable()), KEYED, Braced(KeyValue(TWO, "1")))
  {
    KeyedSupported();
    rules := ConvertShipped(KEYED);
    KeyedNames();
    KeyedValue(Emitting(Builtin(PrimitiveTable())));
    KeyedValue(Meant(PrimitiveTable()));
    BackslashIsNotPlain();
    AcceptsTooMuch(Builtin(PrimitiveTable()), KEYED, '\\', "1");
    AcceptsTooLittle(Builtin(PrimitiveTable()), KEYED, "1");
  }
}
