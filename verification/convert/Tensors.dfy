/** Tensors as the list of their rows, and what the structural operations do to them.

    A tensor of shape lead ++ [last] has Prod(lead) rows of length `last`, in row-major order. */
module Tensors {
  type Row = seq<real>

  datatype Tensor = Tensor(lead: seq<nat>, last: nat, rows: seq<Row>)
  {
    function Shape(): seq<nat> { lead + [last] }
  }

  function Prod(shape: seq<nat>): nat {
    if shape == [] then 1 else Prod(shape[..|shape| - 1]) * shape[|shape| - 1]
  }

  predicate Wf(t: Tensor) {
    && t.lead != [] && |t.rows| == Prod(t.lead)
    && forall i :: 0 <= i < |t.rows| ==> |t.rows[i]| == t.last
  }

  // ---------------------------------------------------------------------------------------------
  // Indices
  // ---------------------------------------------------------------------------------------------

  predicate Indexes(shape: seq<nat>, idx: seq<nat>) {
    |idx| == |shape| && forall i :: 0 <= i < |idx| ==> idx[i] < shape[i]
  }

  /** The row-major number of an index. */
  function Flat(shape: seq<nat>, idx: seq<nat>): nat
    requires |idx| == |shape|
  {
    if shape == [] then 0
    else var n := |shape| - 1; Flat(shape[..n], idx[..n]) * shape[n] + idx[n]
  }

  lemma MulMono(a: nat, b: nat, n: nat)
    requires a < b
    ensures a * n + n <= b * n
  {
    assert b * n == a * n + (b - a) * n && (b - a) * n >= 1 * n by { assert (b - a - 1) * n >= 0; }
  }

  lemma DivBound(p: nat, a: nat, n: nat)
    requires p < a * n
    ensures n > 0 && p / n < a && p % n < n && p == p / n * n + p % n
  {
    assert n > 0;
    var q := p / n;
    assert q >= a ==> (q - a) * n >= 0;
  }

  lemma DivUnique(q: nat, n: nat, r: nat)
    requires r < n
    ensures (q * n + r) / n == q && (q * n + r) % n == r
  {
    var p := q * n + r;
    var q', r' := p / n, p % n;
    if q' < q { MulMono(q', q, n); }
    if q < q' { MulMono(q, q', n); }
  }

  /** The index with a row-major number. */
  function Unflat(shape: seq<nat>, p: nat): (idx: seq<nat>)
    requires p < Prod(shape)
    ensures |idx| == |shape|
  {
    if shape == [] then []
    else
      var n := |shape| - 1;
      DivBound(p, Prod(shape[..n]), shape[n]);
      Unflat(shape[..n], p / shape[n]) + [p % shape[n]]
  }

  lemma {:induction false} FlatBound(shape: seq<nat>, idx: seq<nat>)
    requires Indexes(shape, idx)
    ensures Flat(shape, idx) < Prod(shape)
  {
    if shape != [] {
      var n := |shape| - 1;
      FlatBound(shape[..n], idx[..n]);
      MulMono(Flat(shape[..n], idx[..n]), Prod(shape[..n]), shape[n]);
    }
  }

  lemma {:induction false} FlatUnflat(shape: seq<nat>, p: nat)
    requires p < Prod(shape)
    ensures Indexes(shape, Unflat(shape, p)) && Flat(shape, Unflat(shape, p)) == p
  {
    if shape != [] {
      var n := |shape| - 1;
      DivBound(p, Prod(shape[..n]), shape[n]);
      FlatUnflat(shape[..n], p / shape[n]);
      assert Unflat(shape, p)[..n] == Unflat(shape[..n], p / shape[n]);
    }
  }

  lemma {:induction false} UnflatFlat(shape: seq<nat>, idx: seq<nat>)
    requires Indexes(shape, idx)
    ensures Flat(shape, idx) < Prod(shape) && Unflat(shape, Flat(shape, idx)) == idx
  {
    FlatBound(shape, idx);
    if shape != [] {
      var n := |shape| - 1;
      UnflatFlat(shape[..n], idx[..n]);
      DivUnique(Flat(shape[..n], idx[..n]), shape[n], idx[n]);
      assert idx == idx[..n] + [idx[n]];
    }
  }

  // ---------------------------------------------------------------------------------------------
  // Exchanging axes
  // ---------------------------------------------------------------------------------------------

  predicate IsPermutation(dims: seq<nat>) {
    && (forall i :: 0 <= i < |dims| ==> dims[i] < |dims|)
    && (forall i, j :: 0 <= i < j < |dims| ==> dims[i] != dims[j])
    && forall a :: 0 <= a < |dims| ==> a in dims
  }

  /** Axis i of the result is axis dims[i]. */
  function Pick<T>(dims: seq<nat>, s: seq<T>): (r: seq<T>)
    requires |s| == |dims| && IsPermutation(dims)
    ensures |r| == |dims| && forall i :: 0 <= i < |r| ==> r[i] == s[dims[i]]
  {
    seq(|dims|, i requires 0 <= i < |dims| => s[dims[i]])
  }

  function Position(dims: seq<nat>, a: nat): (i: nat)
    requires a in dims
    ensures i < |dims| && dims[i] == a
  {
    if dims[0] == a then 0 else 1 + Position(dims[1..], a)
  }

  /** Undoes `Pick`. */
  function Unpick<T>(dims: seq<nat>, s: seq<T>): (r: seq<T>)
    requires |s| == |dims| && IsPermutation(dims)
    ensures |r| == |dims| && forall i :: 0 <= i < |dims| ==> r[dims[i]] == s[i]
  {
    var r := seq(|dims|, a requires 0 <= a < |dims| => s[Position(dims, a)]);
    assert forall i :: 0 <= i < |dims| ==> Position(dims, dims[i]) == i;
    r
  }

  lemma UnpickPick<T>(dims: seq<nat>, s: seq<T>)
    requires |s| == |dims| && IsPermutation(dims)
    ensures Unpick(dims, Pick(dims, s)) == s
  {
    var r := Unpick(dims, Pick(dims, s));
    forall a | 0 <= a < |dims| ensures r[a] == s[a] {
      var i := Position(dims, a);
      assert r[dims[i]] == Pick(dims, s)[i];
    }
  }

  /** Where row p of the result comes from. */
  function RowSource(lead: seq<nat>, dims: seq<nat>, p: nat): nat
    requires |lead| == |dims| && IsPermutation(dims) && p < Prod(Pick(dims, lead))
  {
    Flat(lead, Unpick(dims, Unflat(Pick(dims, lead), p)))
  }

  lemma SourceInRange(lead: seq<nat>, dims: seq<nat>, p: nat)
    requires |lead| == |dims| && IsPermutation(dims) && p < Prod(Pick(dims, lead))
    ensures Indexes(lead, Unpick(dims, Unflat(Pick(dims, lead), p)))
    ensures RowSource(lead, dims, p) < Prod(lead)
  {
    var idx := Unflat(Pick(dims, lead), p);
    FlatUnflat(Pick(dims, lead), p);
    var back := Unpick(dims, idx);
    forall a | 0 <= a < |lead| ensures back[a] < lead[a] {
      var i := Position(dims, a);
      assert back[dims[i]] == idx[i] < Pick(dims, lead)[i];
    }
    FlatBound(lead, back);
  }

  /** No two rows come from the same row. */
  lemma SourceInjective(lead: seq<nat>, dims: seq<nat>, p: nat, q: nat)
    requires |lead| == |dims| && IsPermutation(dims) && p < Prod(Pick(dims, lead)) && q < Prod(Pick(dims, lead))
    requires RowSource(lead, dims, p) == RowSource(lead, dims, q)
    ensures p == q
  {
    var shape := Pick(dims, lead);
    var i, j := Unflat(shape, p), Unflat(shape, q);
    SourceInRange(lead, dims, p);
    SourceInRange(lead, dims, q);
    UnflatFlat(lead, Unpick(dims, i));
    UnflatFlat(lead, Unpick(dims, j));
    forall k | 0 <= k < |dims| ensures i[k] == j[k] {
      assert Unpick(dims, i)[dims[k]] == Unpick(dims, j)[dims[k]];
    }
    assert i == j;
    FlatUnflat(shape, p);
    FlatUnflat(shape, q);
  }

  /** Every row is the source of one. */
  lemma SourceOnto(lead: seq<nat>, dims: seq<nat>, r: nat) returns (p: nat)
    requires |lead| == |dims| && IsPermutation(dims) && r < Prod(lead)
    ensures p < Prod(Pick(dims, lead)) && RowSource(lead, dims, p) == r
  {
    var shape := Pick(dims, lead);
    var idx := Unflat(lead, r);
    FlatUnflat(lead, r);
    p := Flat(shape, Pick(dims, idx));
    UnflatFlat(shape, Pick(dims, idx));
    UnpickPick(dims, idx);
  }
}
