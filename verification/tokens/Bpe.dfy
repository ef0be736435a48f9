/** Splitting a token by byte-pair merges of lowest rank. */
module Bpe {
  import opened Options

  type Bytes = seq<nat>

  type Ranks = map<Bytes, int>

  // ---------------------------------------------------------------------------------------------
  // The reference
  // ---------------------------------------------------------------------------------------------

  function Joined(parts: seq<Bytes>): Bytes {
    if parts == [] then [] else Joined(parts[..|parts| - 1]) + parts[|parts| - 1]
  }

  /** Each byte on its own. */
  function Singles(token: Bytes): (parts: seq<Bytes>)
    ensures |parts| == |token| && forall i :: 0 <= i < |parts| ==> parts[i] == [token[i]]
  {
    seq(|token|, i requires 0 <= i < |token| => [token[i]])
  }

  function PairAt(parts: seq<Bytes>, i: nat): Bytes
    requires i + 1 < |parts|
  {
    parts[i] + parts[i + 1]
  }

  /** Neighbours i and i + 1 can be merged. */
  predicate Ranked(ranks: Ranks, parts: seq<Bytes>, i: nat) { i + 1 < |parts| && PairAt(parts, i) in ranks }

  /** Among the first n pairs, i has the lowest rank, and it is the first with that rank. */
  predicate Lowest(ranks: Ranks, parts: seq<Bytes>, n: nat, i: nat) {
    && i < n && Ranked(ranks, parts, i)
    && forall j :: 0 <= j < n && Ranked(ranks, parts, j) ==>
         var r, s := ranks[PairAt(parts, i)], ranks[PairAt(parts, j)]; r <= s && (j < i ==> r < s)
  }

  predicate NoneRanked(ranks: Ranks, parts: seq<Bytes>, n: nat) { forall j :: 0 <= j < n ==> !Ranked(ranks, parts, j) }

  /** There is only one such pair. */
  lemma LowestIsUnique(ranks: Ranks, parts: seq<Bytes>, n: nat, i: nat, j: nat)
    requires Lowest(ranks, parts, n, i) && Lowest(ranks, parts, n, j)
    ensures i == j
  {
  }

  function MergeAt(parts: seq<Bytes>, i: nat): (r: seq<Bytes>)
    requires i + 1 < |parts|
    ensures |r| == |parts| - 1
  {
    parts[..i] + [PairAt(parts, i)] + parts[i + 2..]
  }

  predicate Below(rank: int, maxRank: Option<int>) { maxRank.Some? ==> rank < maxRank.value }

  /** `to` comes from `from` by merges, each of the first pair of lowest rank, below the limit. */
  ghost predicate Merges(ranks: Ranks, maxRank: Option<int>, from: seq<Bytes>, to: seq<Bytes>)
    decreases |from|, 2
  {
    from == to || exists i: nat :: MergesFirst(ranks, maxRank, from, to, i)
  }

  ghost predicate MergesFirst(ranks: Ranks, maxRank: Option<int>, from: seq<Bytes>, to: seq<Bytes>, i: nat)
    decreases |from|, 1
  {
    && |from| > 0 && Lowest(ranks, from, |from| - 1, i) && Below(ranks[PairAt(from, i)], maxRank)
    && MergesNext(ranks, maxRank, from, to, i)
  }

  ghost predicate MergesNext(ranks: Ranks, maxRank: Option<int>, from: seq<Bytes>, to: seq<Bytes>, i: nat)
    requires i + 1 < |from|
    decreases |from|, 0
  {
    Merges(ranks, maxRank, MergeAt(from, i), to)
  }

  /** No pair of neighbours has a rank below the limit. */
  predicate Final(ranks: Ranks, maxRank: Option<int>, parts: seq<Bytes>) {
    forall i :: 0 <= i < |parts| - 1 && Ranked(ranks, parts, i) ==> !Below(ranks[PairAt(parts, i)], maxRank)
  }

  /** A part is one byte, or a key with a rank below the limit. */
  predicate GoodPart(ranks: Ranks, maxRank: Option<int>, part: Bytes) {
    |part| == 1 || (|part| > 1 && part in ranks && Below(ranks[part], maxRank))
  }

  predicate GoodParts(ranks: Ranks, maxRank: Option<int>, token: Bytes, parts: seq<Bytes>) {
    Joined(parts) == token && forall i :: 0 <= i < |parts| ==> GoodPart(ranks, maxRank, parts[i])
  }

  // ---------------------------------------------------------------------------------------------
  // What a merge keeps
  // ---------------------------------------------------------------------------------------------

  lemma {:induction false} JoinedConcat(a: seq<Bytes>, b: seq<Bytes>)
    ensures Joined(a + b) == Joined(a) + Joined(b)
  {
    if b == [] {
      assert a + b == a;
    } else {
      var n := |b| - 1;
      assert (a + b)[..|a + b| - 1] == a + b[..n];
      JoinedConcat(a, b[..n]);
    }
  }

  lemma JoinedOne(x: Bytes)
    ensures Joined([x]) == x
  {
    assert [x][..0] == [];
    assert [] + x == x;
  }

  lemma JoinedPair(a: seq<Bytes>, x: Bytes, y: Bytes, b: seq<Bytes>)
    ensures Joined(a + [x + y] + b) == Joined(a + [x] + [y] + b)
  {
    JoinedConcat(a + [x] + [y], b);
    JoinedConcat(a + [x], [y]);
    JoinedConcat(a, [x]);
    JoinedConcat(a + [x + y], b);
    JoinedConcat(a, [x + y]);
    JoinedOne(x);
    JoinedOne(y);
    JoinedOne(x + y);
    var u := Joined(a);
    assert u + (x + y) == u + x + y;
  }

  lemma TakenApart<T>(s: seq<T>, i: nat)
    requires i + 1 < |s|
    ensures s == s[..i] + [s[i]] + [s[i + 1]] + s[i + 2..]
  {
  }

  lemma JoinedMerge(parts: seq<Bytes>, i: nat)
    requires i + 1 < |parts|
    ensures Joined(MergeAt(parts, i)) == Joined(parts)
  {
    JoinedPair(parts[..i], parts[i], parts[i + 1], parts[i + 2..]);
    TakenApart(parts, i);
  }

  lemma {:induction false} SinglesJoin(token: Bytes)
    ensures Joined(Singles(token)) == token
  {
    if token != [] {
      var n := |token| - 1;
      assert Singles(token)[..n] == Singles(token[..n]);
      SinglesJoin(token[..n]);
    }
  }

  lemma MergeKeepsGood(ranks: Ranks, maxRank: Option<int>, token: Bytes, parts: seq<Bytes>, i: nat)
    requires GoodParts(ranks, maxRank, token, parts) && Ranked(ranks, parts, i)
             && Below(ranks[PairAt(parts, i)], maxRank)
    ensures GoodParts(ranks, maxRank, token, MergeAt(parts, i))
  {
    JoinedMerge(parts, i);
    assert GoodPart(ranks, maxRank, parts[i]) && GoodPart(ranks, maxRank, parts[i + 1]);
    var r := MergeAt(parts, i);
    forall j | 0 <= j < |r| ensures GoodPart(ranks, maxRank, r[j]) {
      if j < i { assert r[j] == parts[j]; } else if j > i { assert r[j] == parts[j + 1]; }
    }
  }

  lemma {:induction false} MergesSnoc(ranks: Ranks, maxRank: Option<int>, from: seq<Bytes>, parts: seq<Bytes>, i: nat)
    requires Merges(ranks, maxRank, from, parts)
    requires |parts| > 0 && Lowest(ranks, parts, |parts| - 1, i) && Below(ranks[PairAt(parts, i)], maxRank)
    ensures Merges(ranks, maxRank, from, MergeAt(parts, i))
    decreases |from|
  {
    if from == parts {
      assert MergesNext(ranks, maxRank, from, MergeAt(parts, i), i);
      assert MergesFirst(ranks, maxRank, from, MergeAt(parts, i), i);
    } else {
      var k: nat :| MergesFirst(ranks, maxRank, from, parts, k);
      assert MergesNext(ranks, maxRank, from, parts, k);
      MergesSnoc(ranks, maxRank, MergeAt(from, k), parts, i);
      assert MergesNext(ranks, maxRank, from, MergeAt(parts, i), k);
      assert MergesFirst(ranks, maxRank, from, MergeAt(parts, i), k);
    }
  }

  /** The merges lead to one final list only. */
  lemma {:induction false} MergesConfluent(ranks: Ranks, maxRank: Option<int>, from: seq<Bytes>, a: seq<Bytes>,
                                           b: seq<Bytes>)
    requires Merges(ranks, maxRank, from, a) && Merges(ranks, maxRank, from, b)
    requires Final(ranks, maxRank, a) && Final(ranks, maxRank, b)
    ensures a == b
    decreases |from|
  {
    if from == a {
      StaysFinal(ranks, maxRank, from, b);
    } else if from == b {
      StaysFinal(ranks, maxRank, from, a);
    } else {
      var i: nat :| MergesFirst(ranks, maxRank, from, a, i);
      var j: nat :| MergesFirst(ranks, maxRank, from, b, j);
      LowestIsUnique(ranks, from, |from| - 1, i, j);
      assert MergesNext(ranks, maxRank, from, a, i) && MergesNext(ranks, maxRank, from, b, i);
      MergesConfluent(ranks, maxRank, MergeAt(from, i), a, b);
    }
  }

  lemma StaysFinal(ranks: Ranks, maxRank: Option<int>, from: seq<Bytes>, to: seq<Bytes>)
    requires Merges(ranks, maxRank, from, to) && Final(ranks, maxRank, from)
    ensures from == to
  {
    forall i: nat ensures !MergesFirst(ranks, maxRank, from, to, i) {
      assert |from| > 0 && Lowest(ranks, from, |from| - 1, i) ==> Ranked(ranks, from, i);
    }
  }

  // ---------------------------------------------------------------------------------------------
  // The loop
  // ---------------------------------------------------------------------------------------------

  /** The inner loop: the first pair of lowest rank. */
  method FindLowest(ranks: Ranks, parts: seq<Bytes>) returns (minIdx: Option<nat>, minRank: Option<int>)
    ensures minIdx.None? ==> minRank == None && (|parts| > 0 ==> NoneRanked(ranks, parts, |parts| - 1))
    ensures minIdx.Some? ==>
              |parts| > 0 && Lowest(ranks, parts, |parts| - 1, minIdx.value)
                  && minRank == Some(ranks[PairAt(parts, minIdx.value)])
  {
    minIdx, minRank := None, None;
    var i := 0;
    while i + 1 < |parts|
      invariant i <= |parts| && (|parts| > 0 ==> i < |parts|)
      invariant minIdx.None? ==> minRank == None && NoneRanked(ranks, parts, i)
      invariant minIdx.Some? ==>
                Lowest(ranks, parts, i, minIdx.value) && minRank == Some(ranks[PairAt(parts, minIdx.value)])
    {
      var pair := parts[i] + parts[i + 1];
      if pair in ranks && (minRank.None? || ranks[pair] < minRank.value) {
        minIdx, minRank := Some(i), Some(ranks[pair]);
      }
      i := i + 1;
    }
  }

  /** `QwenModel.bpe` */
  method Split(ranks: Ranks, token: Bytes, maxRank: Option<int>) returns (parts: seq<Bytes>)
    ensures GoodParts(ranks, maxRank, token, parts) && Final(ranks, maxRank, parts)
    ensures Merges(ranks, maxRank, Singles(token), parts)
  {
    parts := Singles(token);
    SinglesJoin(token);
    while true
      invariant GoodParts(ranks, maxRank, token, parts) && Merges(ranks, maxRank, Singles(token), parts)
      decreases |parts|
    {
      var minIdx, minRank := FindLowest(ranks, parts);
      if minRank.None? || (maxRank.Some? && minRank.value >= maxRank.value) {
        break;
      }
      var i := minIdx.value;
      MergeKeepsGood(ranks, maxRank, token, parts, i);
      MergesSnoc(ranks, maxRank, Singles(token), parts, i);
      parts := parts[..i] + [parts[i] + parts[i + 1]] + parts[i + 2..];
    }
  }
}
