/** Merging the tensors of experts: they arrive one by one, in any order, and leave stacked. */
module Experts {
  import opened Options
  import opened Results
  import opened Decimal
  import opened Sets

  datatype Exception = Raised

  /** A tensor passed on as it is, or several stacked. */
  datatype Merged<T> = Single(t: T) | Stacked(ts: seq<T>)

  const WIDS: seq<string> := ["w1", "w2", "w3"]
  const EXPERTS: string := "block_sparse_moe.experts"

  /** The name under which expert x of block b brings its tensor w. */
  function Name(b: nat, x: nat, w: nat): string
    requires w < 3
  {
    Front(b) + (ToString(x) + Back(w))
  }

  function Front(b: nat): string { ("model.layers." + ToString(b) + ".") + EXPERTS + "." }

  function Back(w: nat): string
    requires w < 3
  {
    ['.'] + (WIDS[w] + ".weight")
  }

  function MergedName(b: nat, w: nat): string
    requires w < 3
  {
    "layers." + (ToString(b) + (['.'] + MergedBack(w)))
  }

  function MergedBack(w: nat): string
    requires w < 3
  {
    "feed_forward.experts." + (WIDS[w] + ".weight")
  }

  predicate Contains(s: string, t: string) { exists i :: 0 <= i <= |s| - |t| && FoundAt(s, t, i) }

  predicate FoundAt(s: string, t: string, i: int) { 0 <= i <= |s| - |t| && s[i..i + |t|] == t }

  lemma ContainsMiddle(a: string, t: string, b: string)
    ensures Contains(a + t + b, t)
  {
    assert (a + t + b)[|a|..|a| + |t|] == t;
    assert FoundAt(a + t + b, t, |a|);
  }

  lemma NamesAreExperts(b: nat, x: nat, w: nat)
    requires w < 3
    ensures Contains(Name(b, x, w), EXPERTS)
  {
    var a := "model.layers." + ToString(b) + ".";
    var rest := "." + (ToString(x) + Back(w));
    ContainsMiddle(a, EXPERTS, rest);
    assert a + EXPERTS + rest == Name(b, x, w);
  }

  /** Where the first dot is, is where the number ends. */
  lemma SplitAtDot(u: string, s: string, v: string, t: string)
    requires '.' !in u && '.' !in v && u + (['.'] + s) == v + (['.'] + t)
    ensures u == v && s == t
  {
    var x, y := u + (['.'] + s), v + (['.'] + t);
    assert x[|u|] == '.' && y[|v|] == '.';
    assert forall k :: 0 <= k < |u| ==> x[k] == u[k] != '.';
    assert forall k :: 0 <= k < |v| ==> y[k] == v[k] != '.';
    assert x[..|u|] == u && y[..|v|] == v && x[|u| + 1..] == s && y[|v| + 1..] == t;
  }

  lemma NameInjective(b: nat, x: nat, w: nat, x': nat, w': nat)
    requires w < 3 && w' < 3 && Name(b, x, w) == Name(b, x', w')
    ensures x == x' && w == w'
  {
    var s, t := ToString(x) + Back(w), ToString(x') + Back(w');
    assert Name(b, x, w)[|Front(b)|..] == s && Name(b, x', w')[|Front(b)|..] == t;
    assert forall n: nat :: '.' !in ToString(n);
    SplitAtDot(ToString(x), WIDS[w] + ".weight", ToString(x'), WIDS[w'] + ".weight");
    ToStringInjective(x, x');
    assert (WIDS[w] + ".weight")[..2] == WIDS[w] && (WIDS[w'] + ".weight")[..2] == WIDS[w'];
    assert WIDS[w][1] == WIDS[w'][1];
  }

  /** The three stacked tensors of all blocks have different names. */
  lemma MergedNameInjective(b: nat, w: nat, b': nat, w': nat)
    requires w < 3 && w' < 3 && MergedName(b, w) == MergedName(b', w')
    ensures b == b' && w == w'
  {
    var s, t := ToString(b) + (['.'] + MergedBack(w)), ToString(b') + (['.'] + MergedBack(w'));
    assert MergedName(b, w)[7..] == s && MergedName(b', w')[7..] == t;
    assert forall n: nat :: '.' !in ToString(n);
    SplitAtDot(ToString(b), MergedBack(w), ToString(b'), MergedBack(w'));
    ToStringInjective(b, b');
    assert MergedBack(w)[21..][..2] == WIDS[w] && MergedBack(w')[21..][..2] == WIDS[w'];
    assert WIDS[w][1] == WIDS[w'][1];
  }

  // ---------------------------------------------------------------------------------------------
  // The experts of one block
  // ---------------------------------------------------------------------------------------------

  datatype Slot = Slot(x: nat, w: nat)

  function AllSlots(n: nat): (slots: set<Slot>)
    ensures forall s :: s in slots <==> s.x < n && s.w < 3
  {
    set x, w | 0 <= x < n && 0 <= w < 3 :: Slot(x, w)
  }

  /** The slots of one expert. */
  function SlotsOf(x: nat): set<Slot> { {Slot(x, 0), Slot(x, 1), Slot(x, 2)} }

  lemma SlotOfLast(n: nat, s: Slot)
    ensures s in AllSlots(n + 1) <==> s in AllSlots(n) || s in SlotsOf(n)
    ensures s in AllSlots(n) ==> s !in SlotsOf(n)
  {
    if s.x == n && s.w < 3 { assert s == Slot(n, s.w); }
  }

  lemma OneExpertMore(n: nat)
    ensures AllSlots(n + 1) == AllSlots(n) + SlotsOf(n) && AllSlots(n) !! SlotsOf(n)
  {
    forall s
      ensures s in AllSlots(n + 1) <==> s in AllSlots(n) || s in SlotsOf(n)
      ensures s in AllSlots(n) ==> s !in SlotsOf(n)
    {
      SlotOfLast(n, s);
    }
  }

  lemma ThreeSlots(x: nat)
    ensures |SlotsOf(x)| == 3
  {
  }

  lemma DisjointSize<X>(a: set<X>, b: set<X>, c: set<X>)
    requires a !! b && c == a + b
    ensures |c| == |a| + |b|
  {
  }

  lemma ThreeMore(n: nat)
    ensures |AllSlots(n + 1)| == |AllSlots(n)| + 3
  {
    ThreeSlots(n);
    OneExpertMore(n);
    DisjointSize(AllSlots(n), SlotsOf(n), AllSlots(n + 1));
  }

  lemma {:induction false} CountSlots(n: nat)
    ensures |AllSlots(n)| == 3 * n
  {
    if n == 0 {
      assert AllSlots(0) == {};
    } else {
      CountSlots(n - 1);
      ThreeMore(n - 1);
    }
  }

  predicate HasAll<T>(buf: map<string, T>, b: nat, n: nat) {
    forall x, w :: 0 <= x < n && 0 <= w < 3 ==> Name(b, x, w) in buf
  }

  /** Tensor w of all experts, in the order of their numbers. */
  function InOrder<T>(buf: map<string, T>, b: nat, w: nat, n: nat): (ts: seq<T>)
    requires w < 3 && forall x :: 0 <= x < n ==> Name(b, x, w) in buf
    ensures |ts| == n && forall x :: 0 <= x < n ==> ts[x] == buf[Name(b, x, w)]
  {
    seq(n, x requires 0 <= x < n => buf[Name(b, x, w)])
  }

  function Names(b: nat, w: nat, n: nat): set<string>
    requires w < 3
  {
    set x | 0 <= x < n :: Name(b, x, w)
  }

  function NamesUpTo(b: nat, w: nat, n: nat): set<string>
    requires w <= 3
  {
    if w == 0 then {} else NamesUpTo(b, w - 1, n) + Names(b, w - 1, n)
  }

  /** All names of a block are gone once those of the three tensors are. */
  lemma {:induction false} NamesUpToAre(b: nat, w: nat, n: nat, name: string)
    requires w <= 3
    ensures name in NamesUpTo(b, w, n) <==> exists v, x :: 0 <= v < w && 0 <= x < n && name == Name(b, x, v)
  {
    if w > 0 { NamesUpToAre(b, w - 1, n, name); }
  }

  datatype Arrival<T> = Arrival(block: nat, slot: Slot, data: T)

  predicate InRange<T>(a: Arrival<T>, blocks: nat, n: nat) { a.block < blocks && a.slot.x < n && a.slot.w < 3 }

  /** Each tensor arrives at most once. */
  predicate NoRepeats<T>(arrivals: seq<Arrival<T>>) {
    forall i, j :: 0 <= i < j < |arrivals| ==>
        arrivals[i].block != arrivals[j].block || arrivals[i].slot != arrivals[j].slot
  }

  /** What has arrived of a block. */
  function Arrived<T>(arrivals: seq<Arrival<T>>, b: nat): (slots: map<Slot, T>) {
    if arrivals == [] then map[]
    else
      var before, last := Arrived(arrivals[..|arrivals| - 1], b), arrivals[|arrivals| - 1];
      if last.block == b then before[last.slot := last.data] else before
  }

  lemma {:induction false} ArrivedFrom<T>(arrivals: seq<Arrival<T>>, b: nat, s: Slot)
    ensures s in Arrived(arrivals, b) <==>
            exists i :: 0 <= i < |arrivals| && arrivals[i].block == b && arrivals[i].slot == s
  {
    if arrivals != [] {
      var n := |arrivals| - 1;
      ArrivedFrom(arrivals[..n], b, s);
      if s in Arrived(arrivals[..n], b) {
        var i :| 0 <= i < n && arrivals[..n][i].block == b && arrivals[..n][i].slot == s;
        assert arrivals[i].block == b;
      }
      if i :| 0 <= i < |arrivals| && arrivals[i].block == b && arrivals[i].slot == s {
        if i < n { assert arrivals[..n][i].slot == s; }
      }
    }
  }

  /** The buffer of a block: the slots under their names. */
  ghost predicate Buffers<T(!new)>(buf: map<string, T>, b: nat, slots: map<Slot, T>) {
    && |buf| == |slots|
    && (forall s :: s in slots ==> Holds(buf, b, s, slots[s]))
    && forall name :: name in buf ==> Known(b, slots, name)
  }

  /** The slot's tensor is there under its name. */
  ghost predicate Holds<T(!new)>(buf: map<string, T>, b: nat, s: Slot, t: T) {
    s.w < 3 && Name(b, s.x, s.w) in buf && buf[Name(b, s.x, s.w)] == t
  }

  ghost predicate Known<T(!new)>(b: nat, slots: map<Slot, T>, name: string) {
    exists s :: s in slots && IsName(b, s, name)
  }

  predicate IsName(b: nat, s: Slot, name: string) { s.w < 3 && name == Name(b, s.x, s.w) }

  lemma IsNameOnce(b: nat, s: Slot, s': Slot, name: string)
    requires IsName(b, s, name) && IsName(b, s', name)
    ensures s == s'
  {
    NameInjective(b, s.x, s.w, s'.x, s'.w);
  }

  lemma NewName<T(!new)>(buf: map<string, T>, b: nat, slots: map<Slot, T>, s: Slot, name: string)
    requires Buffers(buf, b, slots) && s !in slots && IsName(b, s, name)
    ensures name !in buf
  {
    if name in buf {
      assert Known(b, slots, name);
      var s' :| s' in slots && IsName(b, s', name);
      IsNameOnce(b, s, s', name);
    }
  }

  lemma MapGrows<K, V>(m: map<K, V>, k: K, v: V)
    requires k !in m
    ensures |m[k := v]| == |m| + 1
  {
    assert m[k := v].Keys == m.Keys + {k};
    assert |m[k := v]| == |m[k := v].Keys| && |m| == |m.Keys|;
  }

  lemma BuffersMore<T(!new)>(buf: map<string, T>, b: nat, slots: map<Slot, T>, s: Slot, name: string, t: T)
    requires Buffers(buf, b, slots) && s !in slots && IsName(b, s, name)
    ensures Buffers(buf[name := t], b, slots[s := t])
  {
    NewName(buf, b, slots, s, name);
    var buf', slots' := buf[name := t], slots[s := t];
    MapGrows(buf, name, t);
    MapGrows(slots, s, t);
    forall s' | s' in slots' ensures Holds(buf', b, s', slots'[s']) {
      if s' != s { assert Holds(buf, b, s', slots[s']); }
    }
    forall name' | name' in buf' ensures Known(b, slots', name') {
      if name' == name {
        assert s in slots' && IsName(b, s, name);
      } else {
        assert Known(b, slots, name');
        var s' :| s' in slots && IsName(b, s', name');
        assert s' in slots';
      }
    }
  }

  /** Three tensors of every expert have arrived exactly if there are as many as that. */
  lemma CompleteByCount<T>(slots: map<Slot, T>, n: nat)
    requires forall s :: s in slots ==> s.x < n && s.w < 3
    ensures |slots| <= 3 * n && (|slots| == 3 * n <==> slots.Keys == AllSlots(n))
  {
    CountSlots(n);
    assert |slots| == |slots.Keys|;
    SubsetSize(slots.Keys, AllSlots(n));
  }

  // ---------------------------------------------------------------------------------------------
  // The converter
  // ---------------------------------------------------------------------------------------------

  type Emitted<T> = seq<(string, Merged<T>)>

  class ExpertMerger<T(!new)> {
    const nExperts: nat
    const blockCount: nat
    const mapName: string -> string
    var experts: Option<seq<map<string, T>>>

    constructor (nExperts: nat, blockCount: nat, mapName: string -> string)
      ensures this.nExperts == nExperts && this.blockCount == blockCount && this.mapName == mapName && experts == None
    {
      this.nExperts, this.blockCount, this.mapName := nExperts, blockCount, mapName;
      experts := None;
    }

    /** The dictionaries, made on first use. */
    function Dicts(): seq<map<string, T>>
      reads this
    {
      if experts.Some? then experts.value else seq(blockCount, _ => map[])
    }

    /** The three stacked tensors of a block. */
    function Triple(buf: map<string, T>, b: nat): (r: Emitted<T>)
      requires HasAll(buf, b, nExperts)
    {
      [Stack(buf, b, 0), Stack(buf, b, 1), Stack(buf, b, 2)]
    }

    function Stack(buf: map<string, T>, b: nat, w: nat): (string, Merged<T>)
      requires w < 3 && HasAll(buf, b, nExperts)
    {
      (mapName(MergedName(b, w)), Stacked(InOrder(buf, b, w, nExperts)))
    }

    /** The loop over the experts for one tensor: takes them out of the buffer. */
    method TakeOut(buf: map<string, T>, b: nat, w: nat) returns (datas: Result<seq<T>, Exception>, left: map<string, T>)
      requires w < 3
      ensures datas.Ok? <==> forall x :: 0 <= x < nExperts ==> Name(b, x, w) in buf
      ensures datas.Ok? ==> datas.value == InOrder(buf, b, w, nExperts) && left == buf - Names(b, w, nExperts)
    {
      var ts: seq<T> := [];
      left := buf;
      for x := 0 to nExperts
        invariant forall y :: 0 <= y < x ==> Name(b, y, w) in buf
        invariant ts == InOrder(buf, b, w, x) && left == buf - Names(b, w, x)
      {
        var ename := Name(b, x, w);
        OthersStay(b, w, x);
        if ename !in left {
          return Err(Raised), left;
        }
        ts := ts + [left[ename]];
        left := left - {ename};
        assert Names(b, w, x + 1) == Names(b, w, x) + {ename};
      }
      datas := Ok(ts);
    }

    /** The loop over the three tensors. */
    method MergeBlock(buf: map<string, T>, b: nat)
      returns (tensors: Result<Emitted<T>, Exception>, left: map<string, T>)
      ensures if nExperts > 0 && HasAll(buf, b, nExperts) then tensors.Ok? else tensors == Err(Raised)
      ensures tensors.Ok? ==> tensors.value == Triple(buf, b) && left == buf - NamesUpTo(b, 3, nExperts)
    {
      left := buf;
      if nExperts == 0 {
        return Err(Raised), left;
      }
      var out: Emitted<T> := [];
      for w := 0 to 3
        invariant left == buf - NamesUpTo(b, w, nExperts)
        invariant forall v, x :: 0 <= v < w && 0 <= x < nExperts ==> Name(b, x, v) in buf
        invariant |out| == w
        invariant forall v :: 0 <= v < w ==>
                  out[v] == (mapName(MergedName(b, v)), Stacked(InOrder(buf, b, v, nExperts)))
      {
        StillThere(buf, b, w, nExperts);
        var datas;
        datas, left := TakeOut(left, b, w);
        if datas.Err? {
          return Err(Raised), left;
        }
        assert datas.value == InOrder(buf, b, w, nExperts);
        out := out + [(mapName(MergedName(b, w)), Stacked(datas.value))];
      }
      tensors := Ok(out);
    }

    /** The part of `modify_tensors` behind the permutation of attention heads. */
    method ModifyTensors(data: T, name: string, bid: Option<nat>) returns (r: Result<Emitted<T>, Exception>)
      modifies this
      ensures !Contains(name, EXPERTS) ==> r == Ok([(mapName(name), Single(data))]) && experts == old(experts)
      ensures Contains(name, EXPERTS) && (bid == None || bid.value >= old(|Dicts()|)) ==> r == Err(Raised)
      ensures Contains(name, EXPERTS) && bid.Some? && bid.value < old(|Dicts()|) ==>
                var buf := old(Dicts())[bid.value][name := data];
                if |buf| < 3 * nExperts then r == Ok([]) && experts == Some(old(Dicts())[bid.value := buf])
                else if nExperts > 0 && HasAll(buf, bid.value, nExperts) then
                  r == Ok(Triple(buf, bid.value))
                  && experts == Some(old(Dicts())[bid.value := buf - NamesUpTo(bid.value, 3, nExperts)])
                else r == Err(Raised)
    {
      if !Contains(name, EXPERTS) {
        return Ok([(mapName(name), Single(data))]);
      }
      if bid.None? {
        return Err(Raised);
      }
      var b := bid.value;
      var dicts := Dicts();
      experts := Some(dicts);
      if b >= |dicts| {
        return Err(Raised);
      }
      var buf := dicts[b][name := data];
      experts := Some(dicts[b := buf]);
      if |buf| >= nExperts * 3 {
        var left;
        r, left := MergeBlock(buf, b);
        experts := Some(dicts[b := left]);
      } else {
        r := Ok([]);
      }
    }

    /** The check of `prepare_tensors` at the end. */
    method NoneLeft() returns (ok: bool)
      ensures ok <==> forall b :: 0 <= b < |Dicts()| ==> Dicts()[b] == map[]
    {
      if experts.None? {
        return true;
      }
      for b := 0 to |experts.value|
        invariant forall c :: 0 <= c < b ==> experts.value[c] == map[]
      {
        if experts.value[b] != map[] {
          assert Dicts()[b] != map[];
          return false;
        }
      }
      return true;
    }
  }

  /** Taking out one name leaves the names of the other experts. */
  lemma OthersStay(b: nat, w: nat, x: nat)
    requires w < 3
    ensures Name(b, x, w) !in Names(b, w, x)
  {
    if Name(b, x, w) in Names(b, w, x) {
      var y :| 0 <= y < x && Name(b, y, w) == Name(b, x, w);
      NameInjective(b, y, w, x, w);
    }
  }

  /** Taking out earlier tensors leaves the later ones. */
  lemma StillThere<T>(buf: map<string, T>, b: nat, w: nat, n: nat)
    requires w < 3
    ensures forall x :: 0 <= x < n ==> (Name(b, x, w) in buf - NamesUpTo(b, w, n) <==> Name(b, x, w) in buf)
  {
    forall x | 0 <= x < n ensures Name(b, x, w) !in NamesUpTo(b, w, n) {
      NamesUpToAre(b, w, n, Name(b, x, w));
      if v, y :| 0 <= v < w && 0 <= y < n && Name(b, x, w) == Name(b, y, v) {
        NameInjective(b, x, w, y, v);
      }
    }
  }
}
