/** The part of JSON schema that is modelled, and the texts a schema stands for.

    `Valid` does not mention rules, rule names or the order in which rules are made: it says which JSON
    texts, in the notation the converter settles on, belong to a schema. Only the built-in types and
    optional white space are taken over from the built-in rules. A `Sense` says what the built-in types mean and
    whether the schema is taken as specified, or as the grammar written for it reads. */
module Schemas {
  import opened Options
  import opened Gbnf
  import opened Rules
  import opened Symbols
  import opened Decimal
  import opened IntRange
  import opened IntBounds
  import opened Repetition
  import opened NotStrings
  import opened KeyClasses

  datatype Schema =
    | Primitive(kind: string)
    | Constant(text: string)                       // the JSON text of a `const`
    | Enumeration(texts: seq<string>)              // the JSON texts of an `enum`
    | AnyOf(alts: seq<Schema>)                     // `anyOf` or `oneOf`
    | Integer(minimum: Option<int>, exclusiveMinimum: Option<int>, maximum: Option<int>, exclusiveMaximum: Option<int>)
    | AnyObject
    | Tuple(items: seq<Schema>)
    | List(item: Schema, minItems: nat, maxItems: int)
    | Object(props: seq<Prop>, required: set<string>, additional: Additional)

  datatype Prop = Prop(name: string, schema: Schema)

  /** `additionalProperties`: absent or false, true, or a schema. */
  datatype Additional = NoMore | AnyMore | MoreOf(schema: Schema)

  /** The bounds the converter computes; INT_MIN and INT_MAX stand for "absent". */
  function LowerBound(sc: Schema): int
    requires sc.Integer?
  {
    if sc.minimum.Some? then sc.minimum.value
    else if sc.exclusiveMinimum.Some? then sc.exclusiveMinimum.value + 1
    else INT_MIN
  }

  function UpperBound(sc: Schema): int
    requires sc.Integer?
  {
    if sc.maximum.Some? then sc.maximum.value
    else if sc.exclusiveMaximum.Some? then sc.exclusiveMaximum.value - 1
    else INT_MAX
  }

  /** What the keywords ask of an integer; a minimum hides an exclusive one, a maximum too. */
  predicate MeetsLower(sc: Schema, v: int)
    requires sc.Integer?
  {
    && (sc.minimum.Some? ==> v >= sc.minimum.value)
    && (sc.minimum.None? && sc.exclusiveMinimum.Some? ==> v > sc.exclusiveMinimum.value)
  }

  predicate MeetsUpper(sc: Schema, v: int)
    requires sc.Integer?
  {
    && (sc.maximum.Some? ==> v <= sc.maximum.value)
    && (sc.maximum.None? && sc.exclusiveMaximum.Some? ==> v < sc.exclusiveMaximum.value)
  }

  predicate Meets(sc: Schema, v: int)
    requires sc.Integer?
  {
    MeetsLower(sc, v) && MeetsUpper(sc, v)
  }

  predicate LowerGiven(sc: Schema)
    requires sc.Integer?
  {
    sc.minimum.Some? || sc.exclusiveMinimum.Some?
  }

  predicate UpperGiven(sc: Schema)
    requires sc.Integer?
  {
    sc.maximum.Some? || sc.exclusiveMaximum.Some?
  }

  /** t is a numeral without leading zeros of an integer that meets the keywords; "-0" is one for 0 if there is a lower
      bound below 0. With one bound, the emitted grammar stops at 16 digits. */
  predicate IntegerText(mode: Mode, sc: Schema, t: string)
    requires sc.Integer?
  {
    || (Canonical(t) && Meets(sc, Val(t)) && Fits(mode, sc, t))
    || (t != "" && t[0] == '-' && Canonical(t[1..]) && Meets(sc, 0 - Val(t[1..])) && Fits(mode, sc, t[1..])
        && (t[1..] == "0" ==> LowerGiven(sc) && MeetsLower(sc, -1)))
  }

  predicate Fits(mode: Mode, sc: Schema, digits: string)
    requires sc.Integer?
  {
    mode.Emitted? && !(LowerGiven(sc) && UpperGiven(sc)) ==> |digits| <= MOST
  }

  /** The bounds that are given are not those that stand for "absent". */
  predicate InRange(sc: Schema)
    requires sc.Integer?
  {
    (LowerGiven(sc) ==> LowerBound(sc) > INT_MIN) && (UpperGiven(sc) ==> UpperBound(sc) < INT_MAX)
  }

  /** The bounds that the converter computes are those of the keywords. */
  lemma BoundsMeet(sc: Schema, v: int)
    requires sc.Integer? && InRange(sc)
    ensures WithinBounds(LowerBound(sc), UpperBound(sc), v) <==> Meets(sc, v)
    ensures HasMin(LowerBound(sc)) <==> LowerGiven(sc)
    ensures HasMax(UpperBound(sc)) <==> UpperGiven(sc)
    ensures LowerGiven(sc) ==> (MeetsLower(sc, -1) <==> LowerBound(sc) < 0)
  {
  }

  lemma IntegerTextIs(sc: Schema, t: string)
    requires sc.Integer? && InRange(sc)
    ensures IntegerText(Emitted, sc, t) <==> NumeralText(LowerBound(sc), UpperBound(sc), t)
  {
    BoundsMeet(sc, if Canonical(t) then Val(t) else 0);
    if Canonical(t) && Meets(sc, Val(t)) && UpperGiven(sc) { ShortEnough(t); }
    if t != "" && t[0] == '-' && Canonical(t[1..]) {
      BoundsMeet(sc, 0 - Val(t[1..]));
      if Meets(sc, 0 - Val(t[1..])) && LowerGiven(sc) { ShortEnough(t[1..]); }
    }
  }

  // ---------------------------------------------------------------------------------------------
  // The texts of a schema
  // ---------------------------------------------------------------------------------------------

  /** A built-in rule: its body and the built-in rules it refers to. */
  datatype BuiltinRule = BuiltinRule(body: seq<Body>, deps: seq<string>)

  /** The built-in rules by name, the body of `space`, and further names that are reserved. */
  datatype Table = Table(rules: map<string, BuiltinRule>, space: seq<Body>, formats: set<string>)

  /** The built-in rules on their own. */
  function Base(T: Table): RuleMap {
    (map k | k in T.rules :: ShowAlts(T.rules[k].body))["space" := ShowAlts(T.space)]
  }

  ghost function Builtin(T: Table): Interp { Lang(Base(T)) }

  ghost predicate Blank(T: Table, s: string) { ("space", s) in Builtin(T) }

  const COMMA: seq<Sym> := [Lit(","), SP]

  /** s is `open`, white space up to i, something up to j, `close` and white space. */
  ghost predicate Enclosed(T: Table, open: char, close: char, s: string, i: nat, j: nat) {
    && 1 <= i <= j < |s|
    && s[0] == open && Blank(T, s[1..i]) && s[j] == close && Blank(T, s[j + 1..])
  }

  /** m is the quoted name, white space, a colon and white space up to c. */
  ghost predicate KeyColon(T: Table, name: string, m: string, b: nat, c: nat) {
    var q := Quoted(name);
    && |q| <= b < c <= |m|
    && m[..|q|] == q && Blank(T, m[|q|..b]) && m[b] == ':' && Blank(T, m[b + 1..c])
  }

  function Quoted(name: string): string { ['"'] + name + ['"'] }

  /** k is the name in quotes, with white space behind it. */
  ghost predicate Spells(T: Table, name: string, k: string) {
    Quoted(name) <= k && Blank(T, k[|Quoted(name)|..])
  }

  /** A key of an additional member: a string that spells none of the declared names; or what the grammar that is
      written for such keys reads as one. */
  ghost predicate OtherKey(T: Table, mode: Mode, names: seq<string>, k: string) {
    if mode.Emitted? && names != [] then TextPasses(names, k, "char", Builtin(T))
    else ("string", k) in Builtin(T) && forall n :: n in names ==> !Spells(T, n, k)
  }

  /** How many items a list may have; or how many the parser makes of the repetition that is written for it. */
  predicate Counts(mode: Mode, lo: nat, hi: Option<nat>, k: nat) {
    if mode.Emitted? then RepCount(lo, hi, k) else Admits(lo, hi, k)
  }

  function PropNames(props: seq<Prop>): (ns: seq<string>)
    ensures |ns| == |props| && forall i :: 0 <= i < |ns| ==> ns[i] == props[i].name
  {
    seq(|props|, i requires 0 <= i < |props| => props[i].name)
  }

  /** Schemas as they are specified, or as the grammar written for them reads. The two differ in the keys of additional
      members and in lists whose minimum is above their maximum. */
  datatype Mode = Specified | Emitted

  /** What the built-in types are, and how the rest is taken. */
  datatype Sense = Sense(kinds: Interp, mode: Mode)

  /** What a schema stands for. */
  ghost function Meant(T: Table): Sense { Sense(Builtin(T), Specified) }

  /** What a grammar makes of it. */
  ghost function Emitting(I: Interp): Sense { Sense(I, Emitted) }

  ghost function Emits(rules: RuleMap): Sense { Emitting(Lang(rules)) }

  ghost predicate Valid(T: Table, M: Sense, sc: Schema, s: string)
    decreases sc, 3
  {
    match sc
    case Primitive(kind) => kind in T.rules && MatchesAlts(T.rules[kind].body, s, M.kinds)
    case Constant(text) => text <= s && Blank(T, s[|text|..])
    case Enumeration(texts) => exists i :: 0 <= i < |texts| && texts[i] <= s && Blank(T, s[|texts[i]|..])
    case AnyOf(alts) => exists i :: 0 <= i < |alts| && Valid(T, M, alts[i], s)
    case Integer(_, _, _, _) =>
      exists i :: 0 <= i <= |s| && IntegerText(M.mode, sc, s[..i]) && Blank(T, s[i..])
    case AnyObject => ("object", s) in M.kinds
    case Tuple(items) => exists i: nat, j: nat :: Enclosed(T, '[', ']', s, i, j) && TupleItems(T, M, sc, s[i..j])
    case List(item, lo, hi) => exists i: nat, j: nat :: Enclosed(T, '[', ']', s, i, j) && ListItems(T, M, sc, s[i..j])
    case Object(_, _, _) => exists i: nat, j: nat :: Enclosed(T, '{', '}', s, i, j) && ObjectMembers(T, M, sc, s[i..j])
  }

  ghost predicate TupleItems(T: Table, M: Sense, sc: Schema, inner: string)
    requires sc.Tuple?
    decreases sc, 2
  {
    exists vs :: |vs| == |sc.items| && (forall i :: 0 <= i < |vs| ==> Valid(T, M, sc.items[i], vs[i]))
                 && Joined(vs, inner, COMMA, Builtin(T))
  }

  ghost predicate ListItems(T: Table, M: Sense, sc: Schema, inner: string)
    requires sc.List?
    decreases sc, 2
  {
    exists vs :: (sc.maxItems >= 0 ==> Counts(M.mode, sc.minItems, MaxOf(sc.maxItems), |vs|))
                 && (forall i :: 0 <= i < |vs| ==> Valid(T, M, sc.item, vs[i]))
                 && Joined(vs, inner, COMMA, Builtin(T))
  }

  /** First the required members in order, then some of the others in order, then any additional ones. */
  ghost predicate ObjectMembers(T: Table, M: Sense, sc: Schema, inner: string)
    requires sc.Object?
    decreases sc, 2
  {
    exists req, opt :: RequiredMembers(T, M, sc, 0, req) && OptionalMembers(T, M, sc, 0, opt)
        && Joined(req + opt, inner, COMMA, Builtin(T))
  }

  ghost predicate Member(T: Table, M: Sense, sc: Schema, i: nat, m: string)
    requires sc.Object? && i < |sc.props|
    decreases sc, 0
  {
    exists b: nat, c: nat :: KeyColon(T, sc.props[i].name, m, b, c) && Valid(T, M, sc.props[i].schema, m[c..])
  }

  /** Exactly the required properties from i on, in order. */
  ghost predicate RequiredMembers(T: Table, M: Sense, sc: Schema, i: nat, ms: seq<string>)
    requires sc.Object? && i <= |sc.props|
    decreases sc, 1, |sc.props| - i
  {
    if i == |sc.props| then ms == []
    else if sc.props[i].name in sc.required then
      ms != [] && Member(T, M, sc, i, ms[0]) && RequiredMembers(T, M, sc, i + 1, ms[1..])
    else RequiredMembers(T, M, sc, i + 1, ms)
  }

  /** Some of the properties from i on that are not required, in order, and additional ones behind them. */
  ghost predicate OptionalMembers(T: Table, M: Sense, sc: Schema, i: nat, ms: seq<string>)
    requires sc.Object? && i <= |sc.props|
    decreases sc, 1, |sc.props| - i
  {
    if i == |sc.props| then
      (sc.additional.NoMore? ==> ms == []) && forall j :: 0 <= j < |ms| ==> AdditionalMember(T, M, sc, ms[j])
    else if sc.props[i].name in sc.required then OptionalMembers(T, M, sc, i + 1, ms)
    else
      || OptionalMembers(T, M, sc, i + 1, ms)
      || (ms != [] && Member(T, M, sc, i, ms[0]) && OptionalMembers(T, M, sc, i + 1, ms[1..]))
  }

  /** A key other than the declared ones, a colon and an admissible value. */
  ghost predicate AdditionalMember(T: Table, M: Sense, sc: Schema, m: string)
    requires sc.Object?
    decreases sc, 0
  {
    exists b: nat, c: nat :: b < c <= |m| && OtherKey(T, M.mode, PropNames(sc.props), m[..b]) && m[b] == ':'
        && Blank(T, m[b + 1..c]) &&
      match sc.additional
      case NoMore => false
      case AnyMore => ("value", m[c..]) in M.kinds
      case MoreOf(more) => Valid(T, M, more, m[c..])
  }

  // ---------------------------------------------------------------------------------------------
  // The schemas for which the converter is exact
  // ---------------------------------------------------------------------------------------------

  /** A name that a JSON dump leaves alone. The name "*" stands for "any other property" as soon as the property is
      optional or others are allowed. */
  predicate GoodName(sc: Schema, name: string)
    requires sc.Object?
  {
    PlainJson(name) && (name == "*" ==> name in sc.required && sc.additional.NoMore?)
  }

  /** Literals must not contain a backslash: the converter does not escape it in grammar text. Integers need both
      bounds, the lower one above -INT_MAX. Lists need a positive maximum. Where additional members are allowed, the
      declared names are plain ASCII. */
  predicate Supported(T: Table, sc: Schema)
    decreases sc
  {
    match sc
    case Primitive(kind) => kind in T.rules
    case Constant(text) => '\\' !in text
    case Enumeration(texts) => texts != [] && forall i :: 0 <= i < |texts| ==> '\\' !in texts[i]
    case AnyOf(alts) => alts != [] && forall i :: 0 <= i < |alts| ==> Supported(T, alts[i])
    case Integer(_, _, _, _) =>
      && (LowerGiven(sc) || UpperGiven(sc)) && LowerBound(sc) <= UpperBound(sc)
      && (LowerGiven(sc) ==> INT_MIN < LowerBound(sc) <= INT_MAX)
      && (UpperGiven(sc) ==> INT_MIN < UpperBound(sc) < INT_MAX)
      && ExactBounds(LowerBound(sc), UpperBound(sc))
    case AnyObject => "object" in T.rules
    case Tuple(items) => forall i :: 0 <= i < |items| ==> Supported(T, items[i])
    case List(item, _, maxItems) => Supported(T, item) && 1 <= maxItems <= INT_MAX
    case Object(props, _, additional) =>
      && (forall i, j :: 0 <= i < j < |props| ==> props[i].name != props[j].name)
      && (forall i :: 0 <= i < |props| ==> GoodName(sc, props[i].name) && Supported(T, props[i].schema))
      && (additional.MoreOf? ==> Supported(T, additional.schema))
      && (!additional.NoMore? ==>
            && "value" in T.rules && "string" in T.rules && "char" in T.rules
            && forall i :: 0 <= i < |props| ==> PlainText(props[i].name))
  }

  /** At the root the rule of a property without a name would take the name `root`. */
  predicate RootNames(sc: Schema, name: string) {
    name == "" && sc.Object? ==> forall i :: 0 <= i < |sc.props| ==> sc.props[i].name != ""
  }

  /** Where the two readings of a schema are the same. */
  predicate Settled(sc: Schema)
    decreases sc
  {
    match sc
    case AnyOf(alts) => forall i :: 0 <= i < |alts| ==> Settled(alts[i])
    case Integer(_, _, _, _) => LowerGiven(sc) && UpperGiven(sc)
    case Tuple(items) => forall i :: 0 <= i < |items| ==> Settled(items[i])
    case List(item, minItems, maxItems) => Settled(item) && (maxItems == INT_MAX || minItems <= maxItems)
    case Object(props, _, additional) =>
      && (props == [] || additional.NoMore?)
      && (forall i :: 0 <= i < |props| ==> Settled(props[i].schema))
      && (additional.MoreOf? ==> Settled(additional.schema))
    case _ => true
  }

  /** Characters a rule name may have. */
  predicate NameChar(c: char) { 'a' <= c <= 'z' || 'A' <= c <= 'Z' || '0' <= c <= '9' || c == '-' }

  /** Every run of other characters becomes one dash. */
  function Esc(name: string): string {
    if name == "" then ""
    else
      var front, c := name[..|name| - 1], name[|name| - 1];
      if NameChar(c) then Esc(front) + [c]
      else if front != "" && !NameChar(front[|front| - 1]) then Esc(front)
      else Esc(front) + ['-']
  }

  function Sub(name: string, part: string): string { name + (if name == "" then "" else "-") + part }

  function AltName(name: string, i: nat): string { name + (if name == "" then "alternative-" else "-") + ToString(i) }

  predicate IsReserved(T: Table, name: string) { name == "root" || name in T.rules || name in T.formats }

  predicate AllNameChars(s: string) { forall i :: 0 <= i < |s| ==> NameChar(s[i]) }

  lemma {:induction false} EscKeeps(s: string)
    requires AllNameChars(s)
    ensures Esc(s) == s
  {
    if s != "" { EscKeeps(s[..|s| - 1]); }
  }

  /** A suffix of name characters survives. */
  lemma {:induction false} EscSuffix(s: string, t: string)
    requires AllNameChars(t)
    ensures Esc(s + t) == Esc(s) + t
  {
    if t == "" {
      assert s + t == s;
    } else {
      var t', c := t[..|t| - 1], t[|t| - 1];
      EscSuffix(s, t');
      assert (s + t)[..|s + t| - 1] == s + t';
      assert Esc(s) + t' + [c] == Esc(s) + t;
    }
  }

  predicate NoNameChars(s: string) { forall i :: 0 <= i < |s| ==> !NameChar(s[i]) }

  /** A run of other characters becomes one dash, what is in front of it and behind it is treated apart. */
  lemma {:induction false} EscRun(a: string, run: string)
    requires run != "" && NoNameChars(run) && (a == "" || NameChar(a[|a| - 1]))
    ensures Esc(a + run) == Esc(a) + "-"
  {
    var n := |run| - 1;
    assert (a + run)[..|a + run| - 1] == a + run[..n] && (a + run)[|a + run| - 1] == run[n];
    if n == 0 {
      assert a + run[..0] == a;
    } else {
      EscRun(a, run[..n]);
      assert (a + run[..n])[|a + run[..n]| - 1] == run[n - 1];
    }
  }

  lemma {:induction false} EscApart(a: string, b: string)
    requires b == "" || NameChar(b[0])
    ensures Esc(a + b) == Esc(a) + Esc(b)
  {
    if b == "" {
      assert a + b == a && Esc(a) + "" == Esc(a);
    } else {
      var n := |b| - 1;
      assert (a + b)[..|a + b| - 1] == a + b[..n] && (a + b)[|a + b| - 1] == b[n];
      if n > 0 { assert (a + b[..n])[|a + b[..n]| - 1] == b[n - 1]; }
      EscApart(a, b[..n]);
      assert Esc(a) + Esc(b[..n]) + [b[n]] == Esc(a) + (Esc(b[..n]) + [b[n]]);
      assert Esc(a) + Esc(b[..n]) + ['-'] == Esc(a) + (Esc(b[..n]) + ['-']);
    }
  }

  lemma DigitsAreNameChars(n: nat)
    ensures AllNameChars(ToString(n))
  {
  }

  /** Every other character leaves a dash. */
  lemma {:induction false} OtherCharsLeaveDash(s: string)
    requires !AllNameChars(s)
    ensures '-' in Esc(s)
  {
    var front, c := s[..|s| - 1], s[|s| - 1];
    if NameChar(c) {
      OtherCharsLeaveDash(front);
    } else if front != "" && !NameChar(front[|front| - 1]) {
      OtherCharsLeaveDash(front);
    }
  }

  /** A name without a dash is the escaped form of itself only. */
  lemma EscWithoutDash(s: string)
    requires '-' !in Esc(s)
    ensures Esc(s) == s
  {
    if AllNameChars(s) {
      EscKeeps(s);
    } else {
      OtherCharsLeaveDash(s);
    }
  }
}
