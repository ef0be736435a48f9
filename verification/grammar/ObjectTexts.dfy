/** Objects without white space between their parts. */
module ObjectTexts {
  import opened Gbnf
  import opened Rules
  import opened Symbols
  import opened Repetition
  import opened Schemas

  /** White space begins with a blank or a line end, and may be nothing. */
  ghost predicate BlankApart(T: Table) {
    Blank(T, "") && forall w :: Blank(T, w) && w != "" ==> w[0] in {' ', '\n'}
  }

  function Braced(inner: string): string { ['{'] + inner + ['}'] }

  lemma BracesAccepted(T: Table, M: Sense, sc: Schema, inner: string)
    requires sc.Object? && ObjectMembers(T, M, sc, inner) && BlankApart(T)
    ensures Valid(T, M, sc, Braced(inner))
  {
    var s, n := Braced(inner), |inner|;
    assert s[1..1] == "" && s[n + 2..] == "" && s[1..n + 1] == inner;
    assert Enclosed(T, '{', '}', s, 1, n + 1);
  }

  /** Where there is no white space, none is skipped. */
  lemma FirstBehindBlank(T: Table, s: string, a: nat, i: nat)
    requires BlankApart(T) && a <= i < |s| && Blank(T, s[a..i]) && s[a] !in {' ', '\n'}
    ensures i == a
  {
  }

  lemma BracedSlice(inner: string, j: nat)
    requires 1 <= j <= |inner| + 1
    ensures Braced(inner)[1..j] == inner[..j - 1]
  {
  }

  lemma BracesEnclose(T: Table, inner: string, i: nat, j: nat)
    requires inner != "" && inner[0] !in {' ', '\n', '}'} && BlankApart(T) && Enclosed(T, '{', '}', Braced(inner), i, j)
    ensures 1 < j <= |inner| + 1 && Braced(inner)[i..j] == inner[..j - 1]
  {
    var s := Braced(inner);
    assert |s| == |inner| + 2 && s[1] == inner[0];
    FirstBehindBlank(T, s, 1, i);
    assert j != 1;
    BracedSlice(inner, j);
  }

  lemma ObjectInside(T: Table, M: Sense, sc: Schema, s: string) returns (i: nat, j: nat)
    requires sc.Object? && Valid(T, M, sc, s)
    ensures Enclosed(T, '{', '}', s, i, j) && ObjectMembers(T, M, sc, s[i..j])
  {
    i, j :| Enclosed(T, '{', '}', s, i, j) && ObjectMembers(T, M, sc, s[i..j]);
  }

  /** An object whose members cannot begin the text is rejected. */
  lemma BracesRejected(T: Table, M: Sense, sc: Schema, inner: string)
    requires sc.Object? && BlankApart(T) && inner != "" && inner[0] !in {' ', '\n', '}'}
    requires forall j :: 0 < j <= |inner| ==> !ObjectMembers(T, M, sc, inner[..j])
    ensures !Valid(T, M, sc, Braced(inner))
  {
    if Valid(T, M, sc, Braced(inner)) {
      var i, j := ObjectInside(T, M, sc, Braced(inner));
      BracesEnclose(T, inner, i, j);
    }
  }

  lemma OnlyOne(m: string, I: Interp)
    ensures Joined([] + [m], m, COMMA, I) && Joined([m] + [], m, COMMA, I)
  {
    assert [m] + [] == [m] && [] + [m] == [m] && [m][1..] == [] && m[|m|..] == "";
  }

  /** m may be the first member of an object. */
  ghost predicate SomeMember(T: Table, M: Sense, sc: Schema, m: string)
    requires sc.Object?
  {
    AdditionalMember(T, M, sc, m) || exists i :: 0 <= i < |sc.props| && Member(T, M, sc, i, m)
  }

  lemma {:induction false} FirstRequired(T: Table, M: Sense, sc: Schema, i: nat, ms: seq<string>)
    requires sc.Object? && i <= |sc.props| && RequiredMembers(T, M, sc, i, ms) && ms != []
    ensures SomeMember(T, M, sc, ms[0])
    decreases |sc.props| - i
  {
    if i < |sc.props| && sc.props[i].name !in sc.required { FirstRequired(T, M, sc, i + 1, ms); }
  }

  lemma {:induction false} FirstOptional(T: Table, M: Sense, sc: Schema, i: nat, ms: seq<string>)
    requires sc.Object? && i <= |sc.props| && OptionalMembers(T, M, sc, i, ms) && ms != []
    ensures SomeMember(T, M, sc, ms[0])
    decreases |sc.props| - i
  {
    if i < |sc.props| && (sc.props[i].name in sc.required || OptionalMembers(T, M, sc, i + 1, ms)) {
      FirstOptional(T, M, sc, i + 1, ms);
    }
  }

  lemma FirstOfBoth(T: Table, M: Sense, sc: Schema, req: seq<string>, opt: seq<string>)
    requires sc.Object? && RequiredMembers(T, M, sc, 0, req) && OptionalMembers(T, M, sc, 0, opt) && req + opt != []
    ensures SomeMember(T, M, sc, (req + opt)[0])
  {
    if req != [] { FirstRequired(T, M, sc, 0, req); } else { FirstOptional(T, M, sc, 0, opt); }
  }

  /** What no member begins has no members. */
  lemma MembersRejected(T: Table, M: Sense, sc: Schema, inner: string)
    requires sc.Object? && inner != "" && forall m :: m <= inner ==> !SomeMember(T, M, sc, m)
    ensures !ObjectMembers(T, M, sc, inner)
  {
    forall req, opt | RequiredMembers(T, M, sc, 0, req) && OptionalMembers(T, M, sc, 0, opt)
      ensures !Joined(req + opt, inner, COMMA, Builtin(T))
    {
      if req + opt != [] { FirstOfBoth(T, M, sc, req, opt); }
    }
  }

  /** What no member begins is no object between braces. */
  lemma ObjectWithout(T: Table, M: Sense, sc: Schema, inner: string)
    requires sc.Object? && BlankApart(T) && inner != "" && inner[0] !in {' ', '\n', '}'}
    requires forall m :: m <= inner ==> !SomeMember(T, M, sc, m)
    ensures !Valid(T, M, sc, Braced(inner))
  {
    forall j | 0 < j <= |inner| ensures !ObjectMembers(T, M, sc, inner[..j]) { MembersRejected(T, M, sc, inner[..j]); }
    BracesRejected(T, M, sc, inner);
  }

  /** No declared property has to be there. */
  predicate NoneRequired(sc: Schema)
    requires sc.Object?
  {
    forall i :: 0 <= i < |sc.props| ==> sc.props[i].name !in sc.required
  }

  lemma {:induction false} NothingRequired(T: Table, M: Sense, sc: Schema, i: nat)
    requires sc.Object? && i <= |sc.props| && NoneRequired(sc)
    ensures RequiredMembers(T, M, sc, i, [])
    decreases |sc.props| - i
  {
    if i < |sc.props| { NothingRequired(T, M, sc, i + 1); }
  }

  lemma OthersAllowed(T: Table, M: Sense, sc: Schema, m: string)
    requires sc.Object? && AdditionalMember(T, M, sc, m)
    ensures !sc.additional.NoMore?
  {
  }

  lemma OptionalSkips(T: Table, M: Sense, sc: Schema, i: nat, ms: seq<string>)
    requires sc.Object? && i < |sc.props| && OptionalMembers(T, M, sc, i + 1, ms)
    ensures OptionalMembers(T, M, sc, i, ms)
  {
  }

  lemma OptionalEnds(T: Table, M: Sense, sc: Schema, m: string)
    requires sc.Object? && AdditionalMember(T, M, sc, m) && !sc.additional.NoMore?
    ensures OptionalMembers(T, M, sc, |sc.props|, [m])
  {
  }

  lemma {:induction false} OneAdditional(T: Table, M: Sense, sc: Schema, i: nat, m: string)
    requires sc.Object? && i <= |sc.props| && OptionalMembers(T, M, sc, |sc.props|, [m])
    ensures OptionalMembers(T, M, sc, i, [m])
    decreases |sc.props| - i
  {
    if i < |sc.props| {
      OneAdditional(T, M, sc, i + 1, m);
      OptionalSkips(T, M, sc, i, [m]);
    }
  }

  /** One additional member is an object, if nothing is required. */
  lemma AdditionalAlone(T: Table, M: Sense, sc: Schema, m: string)
    requires sc.Object? && BlankApart(T) && NoneRequired(sc) && AdditionalMember(T, M, sc, m)
    ensures Valid(T, M, sc, Braced(m))
  {
    OthersAllowed(T, M, sc, m);
    NothingRequired(T, M, sc, 0);
    OptionalEnds(T, M, sc, m);
    OneAdditional(T, M, sc, 0, m);
    OnlyOne(m, Builtin(T));
    BracesAccepted(T, M, sc, m);
  }
}
