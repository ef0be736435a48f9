/** Which built-in names a conversion uses, and which of them it takes for rules of its own.

    All of this can be computed before the conversion: it depends on the schema and the property names only. */
module Naming {
  import opened Gbnf
  import opened Rules
  import opened Symbols
  import opened Decimal
  import opened IntRange
  import opened Repetition
  import opened NotStrings
  import opened Schemas
  import opened Tables
  import opened Sets

  /** The built-in names among the rules made so far, and those whose rule is that of a schema instead. */
  datatype Names = Names(present: set<string>, taken: map<string, Schema>)

  const START: Names := Names({}, map[])

  // ---------------------------------------------------------------------------------------------
  // What each step does to the names
  // ---------------------------------------------------------------------------------------------

  ghost function Absent(T: Table, st: Names): nat { |T.rules.Keys - st.present| }

  lemma FewerAbsent(T: Table, older: Names, newer: Names)
    requires older.present <= newer.present
    ensures Absent(T, newer) <= Absent(T, older)
  {
    SubsetSize(T.rules.Keys - newer.present, T.rules.Keys - older.present);
  }

  lemma OneLessAbsent(T: Table, st: Names, kind: string)
    requires kind in T.rules && kind !in st.present
    ensures Absent(T, st.(present := st.present + {kind})) < Absent(T, st)
  {
    SubsetSize(T.rules.Keys - (st.present + {kind}), T.rules.Keys - st.present - {kind});
  }

  /** A built-in rule is added under its own name, with all it depends on that is not there yet. */
  function Primed(T: Table, kind: string, st: Names): (r: Names)
    requires kind in T.rules
    ensures st.present <= r.present && r.taken == st.taken && kind in r.present
    decreases Absent(T, st), if kind in st.present then 1 else 0, 0
  {
    var added := st.(present := st.present + {kind});
    FewerAbsent(T, st, added);
    if kind !in st.present then
      OneLessAbsent(T, st, kind);
      PrimedAll(T, T.rules[kind].deps, added)
    else
      PrimedAll(T, T.rules[kind].deps, added)
  }

  function PrimedAll(T: Table, deps: seq<string>, st: Names): (r: Names)
    ensures st.present <= r.present && r.taken == st.taken
    ensures forall i :: 0 <= i < |deps| && deps[i] in T.rules ==> deps[i] in r.present
    decreases Absent(T, st), 0, 1 + |deps|
  {
    if deps == [] then st
    else
      var next := if deps[0] in st.present || deps[0] !in T.rules then st else Primed(T, deps[0], st);
      FewerAbsent(T, st, next);
      PrimedAll(T, deps[1..], next)
  }

  /** The rule of a schema is added. It takes a built-in name that is not there yet. */
  function Named(T: Table, sc: Schema, name: string, st: Names): (r: Names)
    ensures st.present <= r.present
  {
    var k := Esc(RuleName(T, name));
    if k in T.rules && k !in st.present then Names(st.present + {k}, st.taken[k := sc]) else st
  }

  function PrimedIf(T: Table, kind: string, st: Names): (r: Names)
    ensures st.present <= r.present && r.taken == st.taken
  {
    if kind in T.rules then Primed(T, kind, st) else st
  }

  /** The names after the conversion of a schema, step by step as the converter goes. */
  function After(T: Table, sc: Schema, name: string, st: Names): (r: Names)
    ensures st.present <= r.present
    decreases sc, 2
  {
    match sc
    case Primitive(kind) =>
      if kind !in T.rules then st
      else if name == "" then PrimedAll(T, T.rules[kind].deps, st)
      else Primed(T, kind, st)
    case AnyOf(alts) => Named(T, sc, name, AfterAlts(T, sc, name, |alts|, st))
    case AnyObject => Named(T, sc, name, PrimedIf(T, "object", st))
    case Tuple(items) => Named(T, sc, name, AfterItems(T, sc, name, |items|, st))
    case List(item, _, _) => Named(T, sc, name, After(T, item, Sub(name, "item"), st))
    case Object(props, _, _) => Named(T, sc, name, AfterMore(T, sc, name, AfterProps(T, sc, name, |props|, st)))
    case _ => Named(T, sc, name, st)
  }

  /** After the first n alternatives. */
  function AfterAlts(T: Table, sc: Schema, name: string, n: nat, st: Names): (r: Names)
    requires sc.AnyOf? && n <= |sc.alts|
    ensures st.present <= r.present
    decreases sc, 1, n
  {
    if n == 0 then st else After(T, sc.alts[n - 1], AltName(name, n - 1), AfterAlts(T, sc, name, n - 1, st))
  }

  function AfterItems(T: Table, sc: Schema, name: string, n: nat, st: Names): (r: Names)
    requires sc.Tuple? && n <= |sc.items|
    ensures st.present <= r.present
    decreases sc, 1, n
  {
    if n == 0 then st
    else After(T, sc.items[n - 1], Sub(name, "tuple-" + ToString(n - 1)), AfterItems(T, sc, name, n - 1, st))
  }

  function AfterProps(T: Table, sc: Schema, name: string, n: nat, st: Names): (r: Names)
    requires sc.Object? && n <= |sc.props|
    ensures st.present <= r.present
    decreases sc, 1, n
  {
    if n == 0 then st
    else After(T, sc.props[n - 1].schema, Sub(name, sc.props[n - 1].name), AfterProps(T, sc, name, n - 1, st))
  }

  /** After the rules for additional members: first the value, then the key. */
  function AfterMore(T: Table, sc: Schema, name: string, st: Names): (r: Names)
    requires sc.Object?
    ensures st.present <= r.present
    decreases sc, 1
  {
    if sc.additional.NoMore? then st
    else PrimedIf(T, if sc.props == [] then "string" else "char", AfterValue(T, sc, name, st))
  }

  function AfterValue(T: Table, sc: Schema, name: string, st: Names): (r: Names)
    requires sc.Object?
    ensures st.present <= r.present
    decreases sc, 0
  {
    match sc.additional
    case NoMore => st
    case AnyMore => PrimedIf(T, "value", st)
    case MoreOf(more) => After(T, more, Sub(name, "additional") + "-value", st)
  }

  /** After a whole conversion. */
  function FinalNames(T: Table, sc: Schema): Names { After(T, sc, "", START) }

  /** No built-in rule of the grammar depends on a name that was taken. */
  predicate Harmless(T: Table, st: Names) {
    forall k :: k in st.present && k !in st.taken && k in T.rules ==>
      forall i :: 0 <= i < |T.rules[k].deps| ==> T.rules[k].deps[i] !in st.taken
  }

  // ---------------------------------------------------------------------------------------------
  // Plain names take nothing
  // ---------------------------------------------------------------------------------------------

  predicate PropsUseNameChars(sc: Schema)
    decreases sc
  {
    match sc
    case AnyOf(alts) => forall i :: 0 <= i < |alts| ==> PropsUseNameChars(alts[i])
    case Tuple(items) => forall i :: 0 <= i < |items| ==> PropsUseNameChars(items[i])
    case List(item, _, _) => PropsUseNameChars(item)
    case Object(props, _, additional) =>
      && (forall i :: 0 <= i < |props| ==> AllNameChars(props[i].name) && PropsUseNameChars(props[i].schema))
      && (additional.MoreOf? ==> PropsUseNameChars(additional.schema))
    case _ => true
  }

  lemma NamedPlain(T: Builtins, sc: Schema, name: string, st: Names)
    requires AllNameChars(name)
    ensures Named(T, sc, name, st) == st
  {
    RuleNameTakes(T, name);
    if !IsReserved(T, name) && name != "" { EscKeeps(name); }
  }

  lemma {:induction false} PlainTakesNothing(T: Builtins, sc: Schema, name: string, st: Names)
    requires AllNameChars(name) && PropsUseNameChars(sc)
    ensures After(T, sc, name, st).taken == st.taken
    decreases sc, 2
  {
    match sc
    case Primitive(_) =>
    case AnyOf(alts) =>
      PlainAlts(T, sc, name, |alts|, st);
      NamedPlain(T, sc, name, AfterAlts(T, sc, name, |alts|, st));
    case AnyObject => NamedPlain(T, sc, name, PrimedIf(T, "object", st));
    case Tuple(items) =>
      PlainItems(T, sc, name, |items|, st);
      NamedPlain(T, sc, name, AfterItems(T, sc, name, |items|, st));
    case List(item, _, _) =>
      PlainTakesNothing(T, item, Sub(name, "item"), st);
      NamedPlain(T, sc, name, After(T, item, Sub(name, "item"), st));
    case Object(props, _, additional) =>
      var members := AfterProps(T, sc, name, |props|, st);
      PlainProps(T, sc, name, |props|, st);
      PlainMore(T, sc, name, members);
      NamedPlain(T, sc, name, AfterMore(T, sc, name, members));
    case _ => NamedPlain(T, sc, name, st);
  }

  lemma {:induction false} PlainMore(T: Builtins, sc: Schema, name: string, st: Names)
    requires sc.Object? && AllNameChars(name) && PropsUseNameChars(sc)
    ensures AfterMore(T, sc, name, st).taken == st.taken
    decreases sc, 1
  {
    if sc.additional.MoreOf? {
      var sub := Sub(name, "additional") + "-value";
      assert AllNameChars(Sub(name, "additional")) && AllNameChars(sub);
      PlainTakesNothing(T, sc.additional.schema, sub, st);
    }
  }

  lemma {:induction false} PlainAlt(T: Builtins, sc: Schema, name: string, i: nat, st: Names)
    requires sc.AnyOf? && i < |sc.alts| && AllNameChars(name) && PropsUseNameChars(sc)
    ensures After(T, sc.alts[i], AltName(name, i), st).taken == st.taken
    decreases sc, 0
  {
    DigitsAreNameChars(i);
    PlainTakesNothing(T, sc.alts[i], AltName(name, i), st);
  }

  lemma {:induction false} PlainAlts(T: Builtins, sc: Schema, name: string, n: nat, st: Names)
    requires sc.AnyOf? && n <= |sc.alts| && AllNameChars(name) && PropsUseNameChars(sc)
    ensures AfterAlts(T, sc, name, n, st).taken == st.taken
    decreases sc, 1, n
  {
    if n > 0 {
      PlainAlts(T, sc, name, n - 1, st);
      PlainAlt(T, sc, name, n - 1, AfterAlts(T, sc, name, n - 1, st));
    }
  }

  lemma {:induction false} PlainItem(T: Builtins, sc: Schema, name: string, i: nat, st: Names)
    requires sc.Tuple? && i < |sc.items| && AllNameChars(name) && PropsUseNameChars(sc)
    ensures After(T, sc.items[i], Sub(name, "tuple-" + ToString(i)), st).taken == st.taken
    decreases sc, 0
  {
    DigitsAreNameChars(i);
    PlainTakesNothing(T, sc.items[i], Sub(name, "tuple-" + ToString(i)), st);
  }

  lemma {:induction false} PlainItems(T: Builtins, sc: Schema, name: string, n: nat, st: Names)
    requires sc.Tuple? && n <= |sc.items| && AllNameChars(name) && PropsUseNameChars(sc)
    ensures AfterItems(T, sc, name, n, st).taken == st.taken
    decreases sc, 1, n
  {
    if n > 0 {
      PlainItems(T, sc, name, n - 1, st);
      PlainItem(T, sc, name, n - 1, AfterItems(T, sc, name, n - 1, st));
    }
  }

  lemma {:induction false} PlainProp(T: Builtins, sc: Schema, name: string, i: nat, st: Names)
    requires sc.Object? && i < |sc.props| && AllNameChars(name) && PropsUseNameChars(sc)
    ensures After(T, sc.props[i].schema, Sub(name, sc.props[i].name), st).taken == st.taken
    decreases sc, 0
  {
    PlainTakesNothing(T, sc.props[i].schema, Sub(name, sc.props[i].name), st);
  }

  lemma {:induction false} PlainProps(T: Builtins, sc: Schema, name: string, n: nat, st: Names)
    requires sc.Object? && n <= |sc.props| && AllNameChars(name) && PropsUseNameChars(sc)
    ensures AfterProps(T, sc, name, n, st).taken == st.taken
    decreases sc, 1, n
  {
    if n > 0 {
      PlainProps(T, sc, name, n - 1, st);
      PlainProp(T, sc, name, n - 1, AfterProps(T, sc, name, n - 1, st));
    }
  }

  /** If all property names consist of letters, digits and dashes, no built-in name is taken. */
  lemma NameCharsAreHarmless(T: Builtins, sc: Schema)
    requires PropsUseNameChars(sc)
    ensures FinalNames(T, sc).taken == map[] && Harmless(T, FinalNames(T, sc))
  {
    PlainTakesNothing(T, sc, "", START);
  }

  // ---------------------------------------------------------------------------------------------
  // Which names a schema's meaning depends on
  // ---------------------------------------------------------------------------------------------

  /** The built-in rules that a schema is made with are among P. */
  predicate KindsIn(T: Table, sc: Schema, P: set<string>)
    decreases sc
  {
    match sc
    case Primitive(kind) => kind in P && kind in T.rules
    case AnyOf(alts) => forall i :: 0 <= i < |alts| ==> KindsIn(T, alts[i], P)
    case AnyObject => "object" in P
    case Tuple(items) => forall i :: 0 <= i < |items| ==> KindsIn(T, items[i], P)
    case List(item, _, _) => KindsIn(T, item, P)
    case Object(props, _, additional) =>
      && (forall i :: 0 <= i < |props| ==> KindsIn(T, props[i].schema, P))
      && (additional.MoreOf? ==> KindsIn(T, additional.schema, P))
      && (additional.AnyMore? ==> "value" in P)
    case _ => true
  }

  lemma {:induction false} KindsMore(T: Table, sc: Schema, P: set<string>, Q: set<string>)
    requires KindsIn(T, sc, P) && P <= Q
    ensures KindsIn(T, sc, Q)
    decreases sc
  {
    match sc
    case AnyOf(alts) => forall i | 0 <= i < |alts| ensures KindsIn(T, alts[i], Q) { KindsMore(T, alts[i], P, Q); }
    case Tuple(items) => forall i | 0 <= i < |items| ensures KindsIn(T, items[i], Q) { KindsMore(T, items[i], P, Q); }
    case List(item, _, _) => KindsMore(T, item, P, Q);
    case Object(props, _, additional) =>
      forall i | 0 <= i < |props| ensures KindsIn(T, props[i].schema, Q) { KindsMore(T, props[i].schema, P, Q); }
      if additional.MoreOf? { KindsMore(T, additional.schema, P, Q); }
    case _ =>
  }

  /** The interpretations agree on what the built-in rules P refer to. */
  ghost predicate SameKinds(T: Table, P: set<string>, I: Interp, J: Interp) {
    && (forall k, s :: k in P && k in T.rules ==>
        (MatchesAlts(T.rules[k].body, s, I) <==> MatchesAlts(T.rules[k].body, s, J)))
    && forall k, s :: k in {"object", "value"} && k in P ==> ((k, s) in I <==> (k, s) in J)
  }

  /** They are senses of the same kind, if that matters. */
  ghost predicate SameSense(T: Table, P: set<string>, sc: Schema, I: Sense, J: Sense) {
    SameKinds(T, P, I.kinds, J.kinds) && (I.mode == J.mode || Settled(sc))
  }

  /** What a schema stands for depends on the built-in rules that it is made with only. */
  lemma {:induction false} ValidAgree(T: Table, sc: Schema, s: string, P: set<string>, I: Sense, J: Sense)
    requires KindsIn(T, sc, P) && SameSense(T, P, sc, I, J) && Valid(T, I, sc, s)
    ensures Valid(T, J, sc, s)
    decreases sc, 4
  {
    match sc
    case Primitive(kind) =>
    case AnyOf(alts) =>
      var i :| 0 <= i < |alts| && Valid(T, I, alts[i], s);
      ValidAgree(T, alts[i], s, P, I, J);
    case Tuple(items) =>
      var i: nat, j: nat :| Enclosed(T, '[', ']', s, i, j) && TupleItems(T, I, sc, s[i..j]);
      TupleAgree(T, sc, s[i..j], P, I, J);
    case List(item, lo, hi) =>
      var i: nat, j: nat :| Enclosed(T, '[', ']', s, i, j) && ListItems(T, I, sc, s[i..j]);
      ListAgree(T, sc, s[i..j], P, I, J);
    case Object(_, _, _) =>
      var i: nat, j: nat :| Enclosed(T, '{', '}', s, i, j) && ObjectMembers(T, I, sc, s[i..j]);
      ObjectAgree(T, sc, s[i..j], P, I, J);
    case _ =>
  }

  lemma {:induction false} TupleAgree(T: Table, sc: Schema, t: string, P: set<string>, I: Sense, J: Sense)
    requires sc.Tuple? && KindsIn(T, sc, P) && SameSense(T, P, sc, I, J) && TupleItems(T, I, sc, t)
    ensures TupleItems(T, J, sc, t)
    decreases sc, 3
  {
    var vs :| |vs| == |sc.items| && (forall i :: 0 <= i < |vs| ==> Valid(T, I, sc.items[i], vs[i]))
              && Joined(vs, t, COMMA, Builtin(T));
    forall i | 0 <= i < |vs| ensures Valid(T, J, sc.items[i], vs[i]) { ValidAgree(T, sc.items[i], vs[i], P, I, J); }
  }

  lemma {:induction false} ListAgree(T: Table, sc: Schema, t: string, P: set<string>, I: Sense, J: Sense)
    requires sc.List? && KindsIn(T, sc, P) && SameSense(T, P, sc, I, J) && ListItems(T, I, sc, t)
    ensures ListItems(T, J, sc, t)
    decreases sc, 3
  {
    var vs :| (sc.maxItems >= 0 ==> Counts(I.mode, sc.minItems, MaxOf(sc.maxItems), |vs|))
              && (forall i :: 0 <= i < |vs| ==> Valid(T, I, sc.item, vs[i])) && Joined(vs, t, COMMA, Builtin(T));
    forall i | 0 <= i < |vs| ensures Valid(T, J, sc.item, vs[i]) { ValidAgree(T, sc.item, vs[i], P, I, J); }
  }

  lemma {:induction false} ObjectAgree(T: Table, sc: Schema, t: string, P: set<string>, I: Sense, J: Sense)
    requires sc.Object? && KindsIn(T, sc, P) && SameSense(T, P, sc, I, J) && ObjectMembers(T, I, sc, t)
    ensures ObjectMembers(T, J, sc, t)
    decreases sc, 3
  {
    var req, opt :| RequiredMembers(T, I, sc, 0, req) && OptionalMembers(T, I, sc, 0, opt)
                    && Joined(req + opt, t, COMMA, Builtin(T));
    RequiredAgree(T, sc, 0, req, P, I, J);
    OptionalAgree(T, sc, 0, opt, P, I, J);
  }

  lemma {:induction false} MemberAgree(T: Table, sc: Schema, i: nat, m: string, P: set<string>, I: Sense, J: Sense)
    requires sc.Object? && i < |sc.props| && KindsIn(T, sc, P) && SameSense(T, P, sc, I, J) && Member(T, I, sc, i, m)
    ensures Member(T, J, sc, i, m)
    decreases sc, 0
  {
    var b: nat, c: nat :| KeyColon(T, sc.props[i].name, m, b, c) && Valid(T, I, sc.props[i].schema, m[c..]);
    ValidAgree(T, sc.props[i].schema, m[c..], P, I, J);
  }

  lemma {:induction false} RequiredAgree(T: Table, sc: Schema, i: nat, ms: seq<string>, P: set<string>, I: Sense,
                                         J: Sense)
    requires sc.Object? && i <= |sc.props| && KindsIn(T, sc, P) && SameSense(T, P, sc, I, J)
             && RequiredMembers(T, I, sc, i, ms)
    ensures RequiredMembers(T, J, sc, i, ms)
    decreases sc, 1, |sc.props| - i
  {
    if i < |sc.props| {
      if sc.props[i].name in sc.required {
        MemberAgree(T, sc, i, ms[0], P, I, J);
        RequiredAgree(T, sc, i + 1, ms[1..], P, I, J);
      } else {
        RequiredAgree(T, sc, i + 1, ms, P, I, J);
      }
    }
  }

  lemma {:induction false} OptionalAgree(T: Table, sc: Schema, i: nat, ms: seq<string>, P: set<string>, I: Sense,
                                         J: Sense)
    requires sc.Object? && i <= |sc.props| && KindsIn(T, sc, P) && SameSense(T, P, sc, I, J)
             && OptionalMembers(T, I, sc, i, ms)
    ensures OptionalMembers(T, J, sc, i, ms)
    decreases sc, 1, |sc.props| - i
  {
    if i == |sc.props| {
      forall j | 0 <= j < |ms| ensures AdditionalMember(T, J, sc, ms[j]) { AdditionalAgree(T, sc, ms[j], P, I, J); }
    } else if sc.props[i].name in sc.required || OptionalMembers(T, I, sc, i + 1, ms) {
      OptionalAgree(T, sc, i + 1, ms, P, I, J);
    } else {
      MemberAgree(T, sc, i, ms[0], P, I, J);
      OptionalAgree(T, sc, i + 1, ms[1..], P, I, J);
    }
  }

  lemma {:induction false} AdditionalAgree(T: Table, sc: Schema, m: string, P: set<string>, I: Sense, J: Sense)
    requires sc.Object? && KindsIn(T, sc, P) && SameSense(T, P, sc, I, J) && AdditionalMember(T, I, sc, m)
    ensures AdditionalMember(T, J, sc, m)
    decreases sc, 0
  {
    var b: nat, c: nat :| b < c <= |m| && OtherKey(T, I.mode, PropNames(sc.props), m[..b]) && m[b] == ':'
      && Blank(T, m[b + 1..c]) &&
      match sc.additional
      case NoMore => false
      case AnyMore => ("value", m[c..]) in I.kinds
      case MoreOf(more) => Valid(T, I, more, m[c..]);
    if sc.additional.MoreOf? { ValidAgree(T, sc.additional.schema, m[c..], P, I, J); }
  }
}
