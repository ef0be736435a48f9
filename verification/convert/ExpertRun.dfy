/** A whole conversion of expert tensors: any order of arrival, any interleaving of blocks. */
module ExpertRun {
  import opened Options
  import opened Results
  import opened Experts

  /** Tensor w of all experts of a block whose tensors have all arrived. */
  function Ordered<T>(slots: map<Slot, T>, w: nat, n: nat): (ts: seq<T>)
    requires w < 3 && slots.Keys == AllSlots(n)
    ensures |ts| == n && forall x :: 0 <= x < n ==> ts[x] == slots[Slot(x, w)]
  {
    seq(n, x requires 0 <= x < n => slots[Slot(x, w)])
  }

  /** What a complete block should give: for each of the three tensors the experts' tensors in order. */
  function BlockOutput<T>(slots: map<Slot, T>, b: nat, n: nat, mapName: string -> string): Emitted<T>
    requires slots.Keys == AllSlots(n)
  {
    [(mapName(MergedName(b, 0)), Stacked(Ordered(slots, 0, n))),
     (mapName(MergedName(b, 1)), Stacked(Ordered(slots, 1, n))),
     (mapName(MergedName(b, 2)), Stacked(Ordered(slots, 2, n)))]
  }

  predicate Complete<T>(arrivals: seq<Arrival<T>>, b: nat, n: nat) { Arrived(arrivals, b).Keys == AllSlots(n) }

  predicate AllComplete<T>(arrivals: seq<Arrival<T>>, order: seq<nat>, n: nat) {
    forall i :: 0 <= i < |order| ==> Complete(arrivals, order[i], n)
  }

  predicate Distinct(order: seq<nat>) { forall i, j :: 0 <= i < j < |order| ==> order[i] != order[j] }

  /** The outputs of the blocks in the order in which they became complete. */
  function Outputs<T>(arrivals: seq<Arrival<T>>, order: seq<nat>, n: nat, mapName: string -> string): Emitted<T>
    requires AllComplete(arrivals, order, n)
  {
    if order == [] then []
    else
      var k := |order| - 1;
      Outputs(arrivals, order[..k], n, mapName) + BlockOutput(Arrived(arrivals, order[k]), order[k], n, mapName)
  }

  /** Output 3 i + w is tensor w of the i-th block in that order: the tensors of its experts, as they arrived, stacked
      in the order of the experts' numbers. */
  lemma {:induction false} OutputAt<T>(arrivals: seq<Arrival<T>>, order: seq<nat>, n: nat, mapName: string -> string,
                                       i: nat, w: nat)
    requires AllComplete(arrivals, order, n) && i < |order| && w < 3
    ensures var out := Outputs(arrivals, order, n, mapName);
            |out| == 3 * |order| && IsOutput(arrivals, order[i], w, n, mapName, out[3 * i + w])
  {
    var k := |order| - 1;
    OutputsLength(arrivals, order[..k], n, mapName);
    var block := BlockOutput(Arrived(arrivals, order[k]), order[k], n, mapName);
    var front := Outputs(arrivals, order[..k], n, mapName);
    assert Outputs(arrivals, order, n, mapName) == front + block;
    if i < k {
      OutputAt(arrivals, order[..k], n, mapName, i, w);
      assert (front + block)[3 * i + w] == front[3 * i + w];
    } else {
      assert (front + block)[3 * i + w] == block[w];
      BlockIsOutput(arrivals, order[k], w, n, mapName);
    }
  }

  /** Tensor w of block b under its new name, from the tensors that have arrived. */
  ghost predicate IsOutput<T>(arrivals: seq<Arrival<T>>, b: nat, w: nat, n: nat, mapName: string -> string,
                              out: (string, Merged<T>))
    requires w < 3
  {
    && out.0 == mapName(MergedName(b, w)) && out.1.Stacked? && |out.1.ts| == n
    && forall x :: 0 <= x < |out.1.ts| ==> HasArrived(arrivals, b, x, w, out.1.ts[x])
  }

  lemma BlockIsOutput<T>(arrivals: seq<Arrival<T>>, b: nat, w: nat, n: nat, mapName: string -> string)
    requires w < 3 && Complete(arrivals, b, n)
    ensures IsOutput(arrivals, b, w, n, mapName, BlockOutput(Arrived(arrivals, b), b, n, mapName)[w])
  {
    var slots := Arrived(arrivals, b);
    forall x | 0 <= x < n ensures HasArrived(arrivals, b, x, w, Ordered(slots, w, n)[x]) {
      DataOf(arrivals, b, Slot(x, w));
    }
  }

  ghost predicate HasArrived<T>(arrivals: seq<Arrival<T>>, b: nat, x: nat, w: nat, t: T) {
    Arrival(b, Slot(x, w), t) in arrivals
  }

  lemma {:induction false} OutputsLength<T>(arrivals: seq<Arrival<T>>, order: seq<nat>, n: nat,
                                            mapName: string -> string)
    requires AllComplete(arrivals, order, n)
    ensures |Outputs(arrivals, order, n, mapName)| == 3 * |order|
  {
    if order != [] { OutputsLength(arrivals, order[..|order| - 1], n, mapName); }
  }

  lemma {:induction false} DataOf<T>(arrivals: seq<Arrival<T>>, b: nat, s: Slot)
    requires s in Arrived(arrivals, b)
    ensures Arrival(b, s, Arrived(arrivals, b)[s]) in arrivals
  {
    var front, last := arrivals[..|arrivals| - 1], arrivals[|arrivals| - 1];
    assert arrivals == front + [last];
    if !(last.block == b && last.slot == s) { DataOf(front, b, s); }
  }

  /** The blocks in the order in which they become complete. */
  function CompletionOrder<T>(arrivals: seq<Arrival<T>>, n: nat): seq<nat> {
    if arrivals == [] then []
    else
      var front, b := arrivals[..|arrivals| - 1], arrivals[|arrivals| - 1].block;
      CompletionOrder(front, n) + if Complete(arrivals, b, n) then [b] else []
  }

  predicate GoodArrivals<T>(arrivals: seq<Arrival<T>>, blocks: nat, n: nat) {
    NoRepeats(arrivals) && forall i :: 0 <= i < |arrivals| ==> InRange(arrivals[i], blocks, n)
  }

  lemma {:induction false} SlotsInRange<T>(arrivals: seq<Arrival<T>>, blocks: nat, n: nat, b: nat)
    requires GoodArrivals(arrivals, blocks, n)
    ensures forall s :: s in Arrived(arrivals, b) ==> s.x < n && s.w < 3
  {
    if arrivals != [] { SlotsInRange(arrivals[..|arrivals| - 1], blocks, n, b); }
  }

  /** What a new arrival changes: only its block, which did not have it. */
  lemma OneMore<T>(arrivals: seq<Arrival<T>>, a: Arrival<T>, blocks: nat, n: nat)
    requires GoodArrivals(arrivals + [a], blocks, n)
    ensures GoodArrivals(arrivals, blocks, n) && a.slot !in Arrived(arrivals, a.block)
    ensures forall b :: Arrived(arrivals + [a], b) == if b == a.block then Arrived(arrivals, b)[a.slot := a.data]
            else Arrived(arrivals, b)
    ensures !Complete(arrivals, a.block, n)
  {
    var all := arrivals + [a];
    assert all[..|arrivals|] == arrivals;
    assert forall i :: 0 <= i < |arrivals| ==> all[i] == arrivals[i];
    assert all[|arrivals|] == a && InRange(a, blocks, n);
    assert forall i :: 0 <= i < |arrivals| ==> all[i].block != a.block || all[i].slot != a.slot;
    ArrivedFrom(arrivals, a.block, a.slot);
    assert a.slot in AllSlots(n);
  }

  lemma {:induction false} OutputsStay<T>(arrivals: seq<Arrival<T>>, a: Arrival<T>, order: seq<nat>, blocks: nat,
                                          n: nat, mapName: string -> string)
    requires GoodArrivals(arrivals + [a], blocks, n) && AllComplete(arrivals, order, n)
    ensures AllComplete(arrivals + [a], order, n)
            && Outputs(arrivals + [a], order, n, mapName) == Outputs(arrivals, order, n, mapName)
    ensures a.block !in order
  {
    OneMore(arrivals, a, blocks, n);
    if order != [] {
      var k := |order| - 1;
      assert Complete(arrivals, order[k], n);
      OutputsStay(arrivals, a, order[..k], blocks, n, mapName);
      assert forall i :: 0 <= i < k ==> order[i] == order[..k][i];
    }
  }

  /** The dictionaries after some arrivals: empty for the complete blocks, and for others what has arrived. */
  ghost predicate Holding<T(!new)>(dicts: seq<map<string, T>>, arrivals: seq<Arrival<T>>, order: seq<nat>, n: nat) {
    && Distinct(order) && AllComplete(arrivals, order, n)
    && (forall i :: 0 <= i < |order| ==> order[i] < |dicts|)
    && forall b: nat :: b < |dicts| ==> HoldsBlock(dicts[b], arrivals, b, order, n)
  }

  ghost predicate HoldsBlock<T(!new)>(buf: map<string, T>, arrivals: seq<Arrival<T>>, b: nat, order: seq<nat>, n: nat) {
    if b in order then buf == map[]
    else !Complete(arrivals, b, n) && Buffers(buf, b, Arrived(arrivals, b))
  }

  lemma HoldingAtFirst<T(!new)>(blocks: nat, n: nat, none: seq<Arrival<T>>)
    requires n > 0 && none == []
    ensures Holding(seq(blocks, _ => map[]), none, [], n)
  {
    assert Slot(0, 0) in AllSlots(n);
    forall b: nat | b < blocks ensures HoldsBlock(map[], none, b, [], n) {
      assert Arrived(none, b) == map[];
    }
  }

  /** Other blocks do not notice an arrival. */
  lemma OthersHold<T(!new)>(buf: map<string, T>, arrivals: seq<Arrival<T>>, a: Arrival<T>, b: nat, order: seq<nat>,
                            blocks: nat, n: nat)
    requires HoldsBlock(buf, arrivals, b, order, n) && GoodArrivals(arrivals + [a], blocks, n) && b != a.block
    ensures HoldsBlock(buf, arrivals + [a], b, order, n)
  {
    OneMore(arrivals, a, blocks, n);
    assert Arrived(arrivals + [a], b) == Arrived(arrivals, b);
  }

  lemma MoreOrder<T(!new)>(buf: map<string, T>, arrivals: seq<Arrival<T>>, b: nat, order: seq<nat>, c: nat, n: nat)
    requires HoldsBlock(buf, arrivals, b, order, n) && b != c
    ensures HoldsBlock(buf, arrivals, b, order + [c], n)
  {
    assert b in order + [c] <==> b in order;
  }

  /** A block that is not complete yet stays in its buffer. */
  lemma StillOpen<T(!new)>(dicts: seq<map<string, T>>, arrivals: seq<Arrival<T>>, a: Arrival<T>, order: seq<nat>,
                    n: nat, buf: map<string, T>)
    requires Holding(dicts, arrivals, order, n) && GoodArrivals(arrivals + [a], |dicts|, n) && a.block < |dicts|
    requires Buffers(buf, a.block, Arrived(arrivals + [a], a.block)) && !Complete(arrivals + [a], a.block, n)
    ensures Holding(dicts[a.block := buf], arrivals + [a], order, n)
  {
    OutputsStay(arrivals, a, order, |dicts|, n, s => s);
    var newer := dicts[a.block := buf];
    forall b: nat | b < |dicts| ensures HoldsBlock(newer[b], arrivals + [a], b, order, n) {
      if b != a.block { OthersHold(dicts[b], arrivals, a, b, order, |dicts|, n); }
    }
  }

  lemma OrderGrows<T(!new)>(arrivals: seq<Arrival<T>>, a: Arrival<T>, order: seq<nat>, blocks: nat, n: nat)
    requires Distinct(order) && AllComplete(arrivals, order, n) && GoodArrivals(arrivals + [a], blocks, n)
    requires Complete(arrivals + [a], a.block, n)
    ensures Distinct(order + [a.block]) && AllComplete(arrivals + [a], order + [a.block], n)
  {
    OutputsStay(arrivals, a, order, blocks, n, s => s);
    var longer := order + [a.block];
    forall i | 0 <= i < |longer| ensures Complete(arrivals + [a], longer[i], n) {
      if i < |order| { assert Complete(arrivals + [a], order[i], n); }
    }
  }

  /** A block that gets complete leaves an empty buffer. */
  lemma NowComplete<T(!new)>(dicts: seq<map<string, T>>, arrivals: seq<Arrival<T>>, a: Arrival<T>, order: seq<nat>,
                      n: nat)
    requires Holding(dicts, arrivals, order, n) && GoodArrivals(arrivals + [a], |dicts|, n) && a.block < |dicts|
    requires Complete(arrivals + [a], a.block, n)
    ensures Holding(dicts[a.block := map[]], arrivals + [a], order + [a.block], n)
  {
    OrderGrows(arrivals, a, order, |dicts|, n);
    var newer := dicts[a.block := map[]];
    forall b: nat | b < |dicts| ensures HoldsBlock(newer[b], arrivals + [a], b, order + [a.block], n) {
      if b != a.block {
        OthersHold(dicts[b], arrivals, a, b, order, |dicts|, n);
        MoreOrder(dicts[b], arrivals + [a], b, order, a.block, n);
      }
    }
  }

  /** A complete buffer holds all names, and nothing else. */
  lemma CompleteBuffer<T(!new)>(buf: map<string, T>, b: nat, slots: map<Slot, T>, n: nat)
    requires Buffers(buf, b, slots) && slots.Keys == AllSlots(n)
    ensures HasAll(buf, b, n) && buf - NamesUpTo(b, 3, n) == map[]
    ensures forall w, x :: 0 <= w < 3 && 0 <= x < n ==> buf[Name(b, x, w)] == slots[Slot(x, w)]
  {
    forall x, w | 0 <= x < n && 0 <= w < 3 ensures Name(b, x, w) in buf && buf[Name(b, x, w)] == slots[Slot(x, w)] {
      assert Holds(buf, b, Slot(x, w), slots[Slot(x, w)]);
    }
    NothingElse(buf, b, slots, n);
  }

  lemma NothingElse<T(!new)>(buf: map<string, T>, b: nat, slots: map<Slot, T>, n: nat)
    requires Buffers(buf, b, slots) && slots.Keys == AllSlots(n)
    ensures buf - NamesUpTo(b, 3, n) == map[]
  {
    forall name | name in buf ensures name in NamesUpTo(b, 3, n) {
      assert Known(b, slots, name);
      KnownName(b, slots, n, name);
    }
  }

  lemma KnownName<T(!new)>(b: nat, slots: map<Slot, T>, n: nat, name: string)
    requires Known(b, slots, name) && slots.Keys == AllSlots(n)
    ensures name in NamesUpTo(b, 3, n)
  {
    var s :| s in slots && IsName(b, s, name);
    assert s in AllSlots(n);
    NamesUpToAre(b, 3, n, name);
  }

  lemma OutputOfBuffer<T(!new)>(m: ExpertMerger<T>, buf: map<string, T>, b: nat, slots: map<Slot, T>)
    requires Buffers(buf, b, slots) && slots.Keys == AllSlots(m.nExperts)
    ensures HasAll(buf, b, m.nExperts) && m.Triple(buf, b) == BlockOutput(slots, b, m.nExperts, m.mapName)
  {
    CompleteBuffer(buf, b, slots, m.nExperts);
    forall w | 0 <= w < 3 ensures InOrder(buf, b, w, m.nExperts) == Ordered(slots, w, m.nExperts) { }
  }

  /** The buffer of a block after an arrival. */
  lemma ArrivalBuffers<T(!new)>(dicts: seq<map<string, T>>, before: seq<Arrival<T>>, a: Arrival<T>, order: seq<nat>,
                                n: nat)
    requires GoodArrivals(before + [a], |dicts|, n) && Holding(dicts, before, order, n)
    ensures a.block < |dicts| && a.slot.w < 3 && Contains(Name(a.block, a.slot.x, a.slot.w), EXPERTS)
    ensures var buf := dicts[a.block][Name(a.block, a.slot.x, a.slot.w) := a.data];
            var slots := Arrived(before + [a], a.block);
            && Buffers(buf, a.block, slots) && |slots| <= 3 * n
            && (|slots| == 3 * n <==> Complete(before + [a], a.block, n))
  {
    var b := a.block;
    OneMore(before, a, |dicts|, n);
    OutputsStay(before, a, order, |dicts|, n, s => s);
    assert InRange((before + [a])[|before|], |dicts|, n);
    NamesAreExperts(b, a.slot.x, a.slot.w);
    assert HoldsBlock(dicts[b], before, b, order, n);
    BuffersMore(dicts[b], b, Arrived(before, b), a.slot, Name(b, a.slot.x, a.slot.w), a.data);
    SlotsInRange(before + [a], |dicts|, n, b);
    CompleteByCount(Arrived(before + [a], b), n);
  }

  /** What a complete block adds to the outputs. */
  lemma BlockLeaves<T(!new)>(m: ExpertMerger<T>, dicts: seq<map<string, T>>, before: seq<Arrival<T>>, a: Arrival<T>,
                             order: seq<nat>, buf: map<string, T>)
    requires GoodArrivals(before + [a], |dicts|, m.nExperts) && Holding(dicts, before, order, m.nExperts)
    requires a.block < |dicts| && Buffers(buf, a.block, Arrived(before + [a], a.block))
    requires Complete(before + [a], a.block, m.nExperts)
    ensures HasAll(buf, a.block, m.nExperts) && buf - NamesUpTo(a.block, 3, m.nExperts) == map[]
    ensures AllComplete(before + [a], order + [a.block], m.nExperts)
    ensures Outputs(before + [a], order + [a.block], m.nExperts, m.mapName) ==
            Outputs(before, order, m.nExperts, m.mapName) + m.Triple(buf, a.block)
  {
    var longer := order + [a.block];
    OrderGrows(before, a, order, |dicts|, m.nExperts);
    OutputsStay(before, a, order, |dicts|, m.nExperts, m.mapName);
    CompleteBuffer(buf, a.block, Arrived(before + [a], a.block), m.nExperts);
    OutputOfBuffer(m, buf, a.block, Arrived(before + [a], a.block));
    assert longer[..|order|] == order && longer[|order|] == a.block;
  }

  /** What one arrival does to the dictionaries and the outputs. */
  lemma AfterArrival<T(!new)>(m: ExpertMerger<T>, dicts: seq<map<string, T>>, before: seq<Arrival<T>>, a: Arrival<T>,
                              order: seq<nat>, order': seq<nat>, buf: map<string, T>)
    requires GoodArrivals(before + [a], |dicts|, m.nExperts) && Holding(dicts, before, order, m.nExperts)
    requires a.block < |dicts| && Buffers(buf, a.block, Arrived(before + [a], a.block))
    requires order' == order + if Complete(before + [a], a.block, m.nExperts) then [a.block] else []
    ensures var full := Complete(before + [a], a.block, m.nExperts);
            && Holding(dicts[a.block := if full then map[] else buf], before + [a], order', m.nExperts)
            && (full ==> HasAll(buf, a.block, m.nExperts) && buf - NamesUpTo(a.block, 3, m.nExperts) == map[])
            && Outputs(before + [a], order', m.nExperts, m.mapName) ==
                 Outputs(before, order, m.nExperts, m.mapName) + if full then m.Triple(buf, a.block) else []
  {
    if Complete(before + [a], a.block, m.nExperts) {
      BlockLeaves(m, dicts, before, a, order, buf);
      NowComplete(dicts, before, a, order, m.nExperts);
    } else {
      assert order' == order;
      StillOpen(dicts, before, a, order, m.nExperts, buf);
      OutputsStay(before, a, order, |dicts|, m.nExperts, m.mapName);
    }
  }

  /** One arrival. */
  method Arrive<T(!new)>(m: ExpertMerger<T>, ghost before: seq<Arrival<T>>, a: Arrival<T>, ghost order: seq<nat>)
    returns (r: Result<Emitted<T>, Exception>, ghost order': seq<nat>)
    requires m.nExperts > 0 && GoodArrivals(before + [a], m.blockCount, m.nExperts)
    requires |m.Dicts()| == m.blockCount && Holding(m.Dicts(), before, order, m.nExperts)
    modifies m
    ensures |m.Dicts()| == m.blockCount && Holding(m.Dicts(), before + [a], order', m.nExperts)
    ensures r.Ok? && Outputs(before + [a], order', m.nExperts, m.mapName) ==
            Outputs(before, order, m.nExperts, m.mapName) + r.value
    ensures order' == order + if Complete(before + [a], a.block, m.nExperts) then [a.block] else []
  {
    ghost var n, dicts := m.nExperts, m.Dicts();
    ArrivalBuffers(dicts, before, a, order, n);
    var name := Name(a.block, a.slot.x, a.slot.w);
    ghost var buf := dicts[a.block][name := a.data];
    order' := order + if Complete(before + [a], a.block, n) then [a.block] else [];
    AfterArrival(m, dicts, before, a, order, order', buf);
    r := m.ModifyTensors(a.data, name, Some(a.block));
  }

  lemma OneArrivalMore<T>(arrivals: seq<Arrival<T>>, blocks: nat, n: nat, i: nat)
    requires i < |arrivals| && GoodArrivals(arrivals, blocks, n)
    ensures arrivals[..i + 1] == arrivals[..i] + [arrivals[i]] && GoodArrivals(arrivals[..i + 1], blocks, n)
    ensures CompletionOrder(arrivals[..i + 1], n) ==
            CompletionOrder(arrivals[..i], n)
            + if Complete(arrivals[..i + 1], arrivals[i].block, n) then [arrivals[i].block] else []
  {
    assert arrivals[..i + 1][..i] == arrivals[..i];
  }

  /** All arrivals. Each complete block leaves its three stacked tensors exactly once; nothing else leaves; and a
      buffer is empty at the end exactly if its block is complete or nothing of it has arrived. */
  method ArriveAll<T(!new)>(m: ExpertMerger<T>, arrivals: seq<Arrival<T>>)
    returns (out: Result<Emitted<T>, Exception>, clean: bool, ghost order: seq<nat>)
    requires m.nExperts > 0 && m.experts == None && GoodArrivals(arrivals, m.blockCount, m.nExperts)
    modifies m
    ensures order == CompletionOrder(arrivals, m.nExperts) && Distinct(order)
    ensures forall b: nat :: b in order <==> b < m.blockCount && Complete(arrivals, b, m.nExperts)
    ensures AllComplete(arrivals, order, m.nExperts) && out == Ok(Outputs(arrivals, order, m.nExperts, m.mapName))
    ensures clean <==> forall b: nat :: b < m.blockCount ==>
            Complete(arrivals, b, m.nExperts) || Arrived(arrivals, b) == map[]
  {
    out, order := ArriveEach(m, arrivals);
    clean := m.NoneLeft();
    WhatIsLeft(m.Dicts(), arrivals, order, m.nExperts);
  }

  method ArriveEach<T(!new)>(m: ExpertMerger<T>, arrivals: seq<Arrival<T>>)
    returns (out: Result<Emitted<T>, Exception>, ghost order: seq<nat>)
    requires m.nExperts > 0 && m.experts == None && GoodArrivals(arrivals, m.blockCount, m.nExperts)
    modifies m
    ensures order == CompletionOrder(arrivals, m.nExperts)
    ensures |m.Dicts()| == m.blockCount && Holding(m.Dicts(), arrivals, order, m.nExperts)
    ensures out == Ok(Outputs(arrivals, order, m.nExperts, m.mapName))
  {
    var emitted: Emitted<T> := [];
    order := [];
    assert arrivals[..0] == [];
    HoldingAtFirst(m.blockCount, m.nExperts, arrivals[..0]);
    for i := 0 to |arrivals|
      invariant |m.Dicts()| == m.blockCount && Holding(m.Dicts(), arrivals[..i], order, m.nExperts)
      invariant order == CompletionOrder(arrivals[..i], m.nExperts)
      invariant emitted == Outputs(arrivals[..i], order, m.nExperts, m.mapName)
    {
      OneArrivalMore(arrivals, m.blockCount, m.nExperts, i);
      var r;
      r, order := Arrive(m, arrivals[..i], arrivals[i], order);
      emitted := emitted + r.value;
    }
    assert arrivals[..|arrivals|] == arrivals;
    out := Ok(emitted);
  }

  /** Of two blocks, the earlier one in that order is complete at a time when the other one is not. */
  lemma {:induction false} CompleteEarlier<T>(arrivals: seq<Arrival<T>>, blocks: nat, n: nat, i: nat, j: nat)
    returns (k: nat)
    requires GoodArrivals(arrivals, blocks, n) && i < j < |CompletionOrder(arrivals, n)|
    ensures k <= |arrivals| && Complete(arrivals[..k], CompletionOrder(arrivals, n)[i], n)
    ensures !Complete(arrivals[..k], CompletionOrder(arrivals, n)[j], n)
  {
    var front, a := arrivals[..|arrivals| - 1], arrivals[|arrivals| - 1];
    var order := CompletionOrder(front, n);
    assert front + [a] == arrivals;
    OneMore(front, a, blocks, n);
    if j < |order| {
      k := CompleteEarlier(front, blocks, n, i, j);
      assert front[..k] == arrivals[..k];
    } else {
      k := |front|;
      AreComplete(front, blocks, n, i);
      assert front[..k] == front && arrivals[..k] == front;
    }
  }

  lemma {:induction false} AreComplete<T>(arrivals: seq<Arrival<T>>, blocks: nat, n: nat, i: nat)
    requires GoodArrivals(arrivals, blocks, n) && i < |CompletionOrder(arrivals, n)|
    ensures Complete(arrivals, CompletionOrder(arrivals, n)[i], n)
  {
    var front, a := arrivals[..|arrivals| - 1], arrivals[|arrivals| - 1];
    assert front + [a] == arrivals;
    OneMore(front, a, blocks, n);
    if i < |CompletionOrder(front, n)| { AreComplete(front, blocks, n, i); }
  }

  lemma WhatIsLeft<T(!new)>(dicts: seq<map<string, T>>, arrivals: seq<Arrival<T>>, order: seq<nat>, n: nat)
    requires Holding(dicts, arrivals, order, n)
    ensures forall b: nat :: b < |dicts| ==> (b in order <==> Complete(arrivals, b, n))
    ensures forall b: nat :: b < |dicts| ==>
            (dicts[b] == map[] <==> Complete(arrivals, b, n) || Arrived(arrivals, b) == map[])
  {
    forall b: nat | b < |dicts|
      ensures b in order <==> Complete(arrivals, b, n)
      ensures dicts[b] == map[] <==> Complete(arrivals, b, n) || Arrived(arrivals, b) == map[]
    {
      assert HoldsBlock(dicts[b], arrivals, b, order, n);
      EmptyBuffer(dicts[b], b, Arrived(arrivals, b));
    }
  }

  lemma EmptyBuffer<T(!new)>(buf: map<string, T>, b: nat, slots: map<Slot, T>)
    ensures Buffers(buf, b, slots) ==> (buf == map[] <==> slots == map[])
  {
    assert |buf| == 0 <==> buf == map[];
    assert |slots| == 0 <==> slots == map[];
  }
}
