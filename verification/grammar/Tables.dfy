/** The table of built-in rules, and names that the converter makes up. */
module Tables {
  import opened Gbnf
  import opened Rules
  import opened Symbols
  import opened Decimal
  import opened Schemas

  predicate EndsWith(s: string, t: string) { |s| >= |t| && s[|s| - |t|..] == t }

  predicate EndsInDigit(s: string) { s != "" && IsDigit(s[|s| - 1]) }

  /** Endings of the names the converter makes up. */
  predicate MadeUp(name: string) {
    EndsInDigit(name) || EndsWith(name, "-") || EndsWith(name, "-kv") || EndsWith(name, "-k") || EndsWith(name, "-rest")
  }

  /** What the converter relies on: built-in rules refer to their dependencies and to `space`, all of them
      built in; their names are rule names that the converter does not make up. Only rules without dependencies
      whose text begins with a character class have a dash in their names; string characters and strings refer
      to nothing else. */
  ghost predicate GoodTable(T: Table) {
    && "space" !in T.rules && "root" !in T.rules && !IsReserved(T, "")
    && OkAlts(T.space) && AltsRefsIn(T.space, {})
    && ("char" in T.rules ==> T.rules["char"].deps == [])
        && ("string" in T.rules ==> T.rules["string"].deps == ["char"])
    && forall k {:trigger GoodRule(T, k)} :: k in T.rules ==> GoodRule(T, k)
  }

  ghost predicate GoodRule(T: Table, k: string)
    requires k in T.rules
  {
    var r := T.rules[k];
    && OkAlts(r.body) && AltsRefsIn(r.body, WithSpace(r.deps)) && Esc(k) == k && !MadeUp(k)
    && ('-' in k ==> r.deps == [] && BeginsWithClass(ShowAlts(r.body)))
    && forall i :: 0 <= i < |r.deps| ==> r.deps[i] in T.rules
  }

  predicate BeginsWithClass(ts: seq<Tok>) { ts != [] && ts[0].TClass? }

  /** The empty table is one. */
  ghost function NoBuiltins(): (T: Table)
    ensures GoodTable(T)
  {
    Table(map[], [Body([])], {})
  }

  type Builtins = T: Table | GoodTable(T) ghost witness NoBuiltins()

  function Content(T: Builtins, kind: string): seq<Tok>
    requires kind in T.rules
  {
    ShowAlts(T.rules[kind].body)
  }

  lemma ContentRefs(T: Builtins, kind: string, N: set<string>)
    requires kind in T.rules
    requires "space" in N && forall i :: 0 <= i < |T.rules[kind].deps| ==> T.rules[kind].deps[i] in N
    ensures ToksRefsIn(Content(T, kind), N)
  {
    assert GoodRule(T, kind);
    ShowAltsRefs(T.rules[kind].body, WithSpace(T.rules[kind].deps));
  }

  lemma SpaceRefs(T: Builtins)
    ensures ToksRefsIn(ShowAlts(T.space), {})
  {
    ShowAltsRefs(T.space, {});
  }

  lemma BaseClosed(T: Builtins)
    ensures Closed(Base(T))
  {
    var N := Base(T).Keys;
    forall k | k in N ensures ToksRefsIn(Base(T)[k], N) {
      if k == "space" {
        SpaceRefs(T);
      } else {
        assert GoodRule(T, k);
        ContentRefs(T, k, N);
      }
    }
  }

  // ---------------------------------------------------------------------------------------------
  // Names
  // ---------------------------------------------------------------------------------------------

  lemma RootKeepsItsName()
    ensures Esc("root") == "root"
  {
    EscKeeps("root");
  }

  /** The name under which the rule of a schema is stored. */
  function RuleName(T: Table, name: string): string {
    if IsReserved(T, name) then name + "-" else if name == "" then "root" else name
  }

  lemma EndsWithEsc(name: string, suffix: string)
    requires AllNameChars(suffix)
    ensures EndsWith(Esc(name + suffix), suffix)
  {
    EscSuffix(name, suffix);
  }

  lemma MadeUpIsFree(T: Builtins, name: string)
    requires MadeUp(name)
    ensures name !in T.rules && name != "root"
  {
    assert name in T.rules ==> GoodRule(T, name);
  }

  lemma SuffixIsSafe(T: Builtins, name: string, suffix: string)
    requires suffix in {"-", "-kv", "-k", "-rest"}
    ensures Esc(name + suffix) !in T.rules && Esc(name + suffix) != "root"
  {
    EndsWithEsc(name, suffix);
    MadeUpIsFree(T, Esc(name + suffix));
  }

  /** A schema's rule can take a built-in name only if that has a dash and is not the schema's own name. */
  lemma RuleNameTakes(T: Builtins, name: string)
    ensures Esc(RuleName(T, name)) == "root" <==> name == ""
    ensures Esc(RuleName(T, name)) in T.rules ==> '-' in Esc(RuleName(T, name)) && !IsReserved(T, name) && name != ""
  {
    RootKeepsItsName();
    var k := Esc(RuleName(T, name));
    if IsReserved(T, name) {
      SuffixIsSafe(T, name, "-");
    } else if '-' !in k {
      EscWithoutDash(RuleName(T, name));
    } else {
      assert "root"[0] == 'r' && "root"[1] == 'o' && "root"[2] == 'o' && "root"[3] == 't';
    }
  }

  lemma RuleNameRoot(T: Builtins, name: string)
    ensures RuleName(T, name) == "root" <==> name == ""
  {
    if IsReserved(T, name) { assert RuleName(T, name)[|name|] == '-'; }
  }
}
