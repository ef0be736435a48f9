/** Low-rank adapters: a pair (A, B) stands for the product of B and A. Every structural operation on the pair is the
    same operation on the product. */
module Lora {
  import opened Options
  import opened Results
  import opened Tensors

  datatype Error = NotImplemented | AssertionFailed | RuntimeFailed

  // ---------------------------------------------------------------------------------------------
  // Rows
  // ---------------------------------------------------------------------------------------------

  /** b[0] * a[0][j] + ... */
  function Dot(b: Row, a: seq<Row>, j: nat, n: nat): real
    requires n <= |b| && n <= |a| && forall k :: 0 <= k < n ==> j < |a[k]|
  {
    if n == 0 then 0.0 else Dot(b, a, j, n - 1) + b[n - 1] * a[n - 1][j]
  }

  /** The combination of the rows of `a` that `b` gives. */
  function Combine(b: Row, a: seq<Row>, width: nat): (r: Row)
    requires |b| == |a| && forall k :: 0 <= k < |a| ==> |a[k]| == width
    ensures |r| == width
  {
    seq(width, j requires 0 <= j < width => Dot(b, a, j, |b|))
  }

  /** The listed elements. */
  function Gather<T>(s: seq<T>, at: seq<nat>): (r: seq<T>)
    requires forall i :: 0 <= i < |at| ==> at[i] < |s|
    ensures |r| == |at| && forall i :: 0 <= i < |r| ==> r[i] == s[at[i]]
  {
    seq(|at|, i requires 0 <= i < |at| => s[at[i]])
  }

  // ---------------------------------------------------------------------------------------------
  // Operations on a tensor
  // ---------------------------------------------------------------------------------------------

  /** A new shape with the same last axis: the rows stay. */
  function WithShape(t: Tensor, lead: seq<nat>): Result<Tensor, Error> {
    if lead != [] && Prod(lead) == |t.rows| then Ok(Tensor(lead, t.last, t.rows)) else Err(RuntimeFailed)
  }

  /** Exchanges the leading axes. */
  function Permuted(t: Tensor, dims: seq<nat>): (r: Tensor)
    requires Wf(t) && |dims| == |t.lead| && IsPermutation(dims)
    ensures Wf(r)
  {
    var lead := Pick(dims, t.lead);
    var rows := seq(Prod(lead), p requires 0 <= p < Prod(lead) => RowFrom(t, dims, p));
    assert forall p :: 0 <= p < |rows| ==> rows[p] == RowFrom(t, dims, p);
    Tensor(lead, t.last, rows)
  }

  function RowFrom(t: Tensor, dims: seq<nat>, p: nat): (r: Row)
    requires Wf(t) && |dims| == |t.lead| && IsPermutation(dims) && p < Prod(Pick(dims, t.lead))
    ensures |r| == t.last
  {
    SourceInRange(t.lead, dims, p);
    t.rows[RowSource(t.lead, dims, p)]
  }

  function Column(t: Tensor, j: nat): (r: Row)
    requires Wf(t) && j < t.last
    ensures |r| == |t.rows| && forall i :: 0 <= i < |r| ==> r[i] == t.rows[i][j]
  {
    seq(|t.rows|, i requires 0 <= i < |t.rows| => t.rows[i][j])
  }

  lemma ProdOne(n: nat)
    ensures Prod([n]) == n
  {
    assert [n][..0] == [];
  }

  /** Exchanges the two axes of a matrix. */
  function Transposed(t: Tensor): (r: Tensor)
    requires Wf(t) && |t.lead| == 1
    ensures Wf(r) && |r.lead| == 1
  {
    ProdOne(t.last);
    ProdOne(t.lead[0]);
    Tensor([t.last], t.lead[0], seq(t.last, j requires 0 <= j < t.last => Column(t, j)))
  }

  lemma TransposedAt(t: Tensor, i: nat, j: nat)
    requires Wf(t) && |t.lead| == 1 && i < |t.rows| && j < t.last
    ensures var r := Transposed(t); r.lead == [t.last] && r.last == t.lead[0] && r.rows[j][i] == t.rows[i][j]
  {
    ProdOne(t.last);
    ProdOne(t.lead[0]);
    assert Transposed(t).rows[j] == Column(t, j);
  }

  /** Rows of a matrix. */
  function TakeRows(t: Tensor, at: seq<nat>): (r: Tensor)
    requires Wf(t) && |t.lead| == 1 && forall i :: 0 <= i < |at| ==> at[i] < t.lead[0]
    ensures Wf(r)
  {
    ProdOne(t.lead[0]);
    ProdOne(|at|);
    Tensor([|at|], t.last, Gather(t.rows, at))
  }

  function Narrow(rows: seq<Row>, at: seq<nat>): (r: seq<Row>)
    requires forall i, k :: 0 <= i < |at| && 0 <= k < |rows| ==> at[i] < |rows[k]|
    ensures |r| == |rows| && forall k :: 0 <= k < |r| ==> r[k] == Gather(rows[k], at)
  {
    seq(|rows|, k requires 0 <= k < |rows| => Gather(rows[k], at))
  }

  /** Columns of a tensor. */
  function TakeColumns(t: Tensor, at: seq<nat>): (r: Tensor)
    requires Wf(t) && forall i :: 0 <= i < |at| ==> at[i] < t.last
    ensures Wf(r)
  {
    Tensor(t.lead, |at|, Narrow(t.rows, at))
  }

  // ---------------------------------------------------------------------------------------------
  // Adapters
  // ---------------------------------------------------------------------------------------------

  datatype Adapter = Adapter(A: Tensor, B: Tensor)
  {
    function Shape(): seq<nat> { B.lead + [A.last] }

    function Rank(): nat { B.last }
  }

  predicate AllOnes(lead: seq<nat>) { forall i :: 0 <= i < |lead| ==> lead[i] == 1 }

  /** What the constructor asserts. */
  predicate WfAdapter(t: Adapter) {
    Wf(t.A) && Wf(t.B) && |t.A.lead| == |t.B.lead| && t.A.lead[|t.A.lead| - 1] == t.Rank()
  }

  /** All rows of B meet the same matrix A. */
  predicate SharedA(t: Adapter) { WfAdapter(t) && AllOnes(t.A.lead[..|t.A.lead| - 1]) }

  lemma {:induction false} ProdOfOnes(lead: seq<nat>)
    requires AllOnes(lead)
    ensures Prod(lead) == 1
  {
    if lead != [] { ProdOfOnes(lead[..|lead| - 1]); }
  }

  lemma SharedRows(t: Adapter)
    requires SharedA(t)
    ensures |t.A.rows| == t.Rank()
  {
    ProdOfOnes(t.A.lead[..|t.A.lead| - 1]);
  }

  // ---------------------------------------------------------------------------------------------
  // The product is the product of matrices
  // ---------------------------------------------------------------------------------------------

  /** The k-th unit row. */
  function Unit(k: nat, n: nat): (r: Row)
    ensures |r| == n && forall i :: 0 <= i < n ==> r[i] == if i == k then 1.0 else 0.0
  {
    seq(n, i requires 0 <= i < n => if i == k then 1.0 else 0.0)
  }

  /** A unit row selects a row of `a`. */
  lemma {:induction false} DotUnit(k: nat, size: nat, a: seq<Row>, j: nat, n: nat)
    requires n <= size && n <= |a| && k < |a| && forall i :: 0 <= i < |a| ==> j < |a[i]|
    ensures Dot(Unit(k, size), a, j, n) == if k < n then a[k][j] else 0.0
  {
    if n > 0 { DotUnit(k, size, a, j, n - 1); }
  }

  /** The product is linear in the rows of B; with unit rows that says what it is. */
  lemma {:induction false} DotLinear(b: Row, c: Row, x: real, sum: Row, a: seq<Row>, j: nat, n: nat)
    requires n <= |b| && n <= |c| && n <= |sum| && n <= |a| && forall i :: 0 <= i < n ==> j < |a[i]|
    requires forall i :: 0 <= i < n ==> sum[i] == x * b[i] + c[i]
    ensures Dot(sum, a, j, n) == x * Dot(b, a, j, n) + Dot(c, a, j, n)
  {
    if n > 0 {
      DotLinear(b, c, x, sum, a, j, n - 1);
      Distributes(x, b[n - 1], c[n - 1], a[n - 1][j], Dot(b, a, j, n - 1));
    }
  }

  lemma Distributes(x: real, b: real, c: real, a: real, d: real)
    ensures (x * b + c) * a == x * (b * a) + c * a
    ensures x * (d + b * a) == x * d + x * (b * a)
  {
  }

  function ProductRows(b: seq<Row>, a: seq<Row>, width: nat): (r: seq<Row>)
    requires forall i :: 0 <= i < |b| ==> |b[i]| == |a|
    requires forall k :: 0 <= k < |a| ==> |a[k]| == width
    ensures |r| == |b| && forall i :: 0 <= i < |r| ==> r[i] == Combine(b[i], a, width)
  {
    seq(|b|, i requires 0 <= i < |b| => Combine(b[i], a, width))
  }

  /** The tensor an adapter stands for. */
  function Product(t: Adapter): (r: Tensor)
    requires SharedA(t)
    ensures Wf(r) && r.Shape() == t.Shape()
  {
    SharedRows(t);
    Tensor(t.B.lead, t.A.last, ProductRows(t.B.rows, t.A.rows, t.A.last))
  }

  // ---------------------------------------------------------------------------------------------
  // reshape
  // ---------------------------------------------------------------------------------------------

  function IntProd(shape: seq<int>): int {
    if shape == [] then 1 else IntProd(shape[..|shape| - 1]) * shape[|shape| - 1]
  }

  function Replace(shape: seq<int>, size: int): seq<int> {
    seq(|shape|, i requires 0 <= i < |shape| => if shape[i] == -1 then size else shape[i])
  }

  /** -1 stands for whatever is missing. */
  function Expanded(shape: seq<int>, elements: nat): Result<seq<int>, Error> {
    if -1 !in shape then Ok(shape)
    else
      var known := IntProd(Replace(shape, 1));
      if known == 0 then Err(RuntimeFailed)
      else if elements % known != 0 then Err(AssertionFailed)
      else Ok(Replace(shape, elements / known))
  }

  predicate NonNegative(shape: seq<int>) { forall i :: 0 <= i < |shape| ==> shape[i] >= 0 }

  function AsNats(shape: seq<int>): (r: seq<nat>)
    requires NonNegative(shape)
    ensures |r| == |shape| && forall i :: 0 <= i < |r| ==> r[i] == shape[i]
  {
    seq(|shape|, i requires 0 <= i < |shape| => shape[i] as nat)
  }

  function Ones(n: nat): (r: seq<nat>)
    ensures |r| == n && AllOnes(r)
  {
    seq(n, _ => 1)
  }

  /** `LoraTorchTensor.reshape` */
  function Reshape(t: Adapter, newShape: seq<int>): Result<Adapter, Error>
    requires WfAdapter(t)
  {
    if |newShape| < 2 then Err(NotImplemented)
    else match Expanded(newShape, Prod(t.Shape()))
      case Err(e) => Err(e)
      case Ok(shape) =>
        if |shape| < 2 || shape[|shape| - 1] != t.A.last then Err(NotImplemented)
        else if !NonNegative(shape) then Err(RuntimeFailed)
        else
          var lead := AsNats(shape[..|shape| - 1]);
          match WithShape(t.A, Ones(|lead| - 1) + [t.Rank()])
          case Err(e) => Err(e)
          case Ok(A) =>
            match WithShape(t.B, lead)
            case Err(e) => Err(e)
            case Ok(B) => Ok(Adapter(A, B))
  }

  // ---------------------------------------------------------------------------------------------
  // permute
  // ---------------------------------------------------------------------------------------------

  /** Negative axis numbers. */
  function Normalized(dims: seq<int>, n: nat): seq<int> {
    seq(|dims|, i requires 0 <= i < |dims| => if dims[i] >= 0 then dims[i] - n else dims[i])
  }

  predicate FromEnd(dims: seq<int>, n: nat) { |dims| == n && forall i :: 0 <= i < |dims| ==> 0 <= dims[i] + n < n }

  /** Axis numbers from the front. */
  function FromFront(dims: seq<int>, n: nat): (r: seq<nat>)
    requires FromEnd(dims, n)
    ensures |r| == n && forall i :: 0 <= i < |r| ==> r[i] == dims[i] + n
  {
    seq(|dims|, i requires 0 <= i < |dims| => (dims[i] + n) as nat)
  }

  /** `LoraTorchTensor.permute` */
  function Permute(t: Adapter, dims: seq<int>): Result<Adapter, Error>
    requires WfAdapter(t)
  {
    var n := |t.Shape()|;
    var ds := Normalized(dims, n);
    if !FromEnd(ds, n) || !IsPermutation(FromFront(ds, n)) then Err(RuntimeFailed)
    else if ds[n - 1] == -1 then
      if !AllOnes(t.A.lead[..|t.A.lead| - 1]) then Err(AssertionFailed)
      else
        LeadPermutation(FromFront(ds, n));
        Ok(Adapter(t.A, Permuted(t.B, FromFront(ds, n)[..n - 1])))
    else if n == 2 then Ok(Adapter(Transposed(t.B), Transposed(t.A)))
    else Err(NotImplemented)
  }

  lemma LeadPermutation(dims: seq<nat>)
    requires dims != [] && IsPermutation(dims) && dims[|dims| - 1] == |dims| - 1
    ensures IsPermutation(dims[..|dims| - 1])
  {
    var d := dims[..|dims| - 1];
    forall a | 0 <= a < |d| ensures a in d {
      var i := Position(dims, a);
      assert d[i] == a;
    }
  }

  /** `LoraTorchTensor.transpose` and `swapaxes`, for axis numbers from the front. */
  function SwapAxes(t: Adapter, axis0: nat, axis1: nat): Result<Adapter, Error>
    requires WfAdapter(t) && axis0 < |t.Shape()| && axis1 < |t.Shape()|
  {
    var dims: seq<int> := seq(|t.Shape()|, i => i);
    Permute(t, dims[axis0 := axis1][axis1 := axis0])
  }

  // ---------------------------------------------------------------------------------------------
  // __getitem__ on a matrix
  // ---------------------------------------------------------------------------------------------

  datatype Slice = Slice(start: Option<int>, stop: Option<int>, step: Option<int>)

  const FULL: Slice := Slice(None, None, None)

  datatype Entry = At(i: int) | Span(s: Slice) | Dots

  datatype Index = One(i: int) | Rows(s: Slice) | Tuple(entries: seq<Entry>)

  function Clamp(x: int, n: nat): (r: nat)
    ensures r <= n
  {
    if x < 0 then (if x + n < 0 then 0 else x + n) else if x > n then n else x
  }

  function Range(lo: nat, hi: nat, step: nat): (r: seq<nat>)
    requires step > 0
    ensures forall i :: 0 <= i < |r| ==> lo <= r[i] < hi
    decreases hi - lo
  {
    if lo >= hi then [] else [lo] + Range(lo + step, hi, step)
  }

  /** The positions a slice selects from n; the step must be positive. */
  function Selected(s: Slice, n: nat): (r: Result<seq<nat>, Error>)
    ensures r.Ok? ==> forall i :: 0 <= i < |r.value| ==> r.value[i] < n
  {
    var step := if s.step.Some? then s.step.value else 1;
    if step <= 0 then Err(RuntimeFailed)
    else
      Ok(Range(if s.start.Some? then Clamp(s.start.value, n) else 0,
               if s.stop.Some? then Clamp(s.stop.value, n) else n, step))
  }

  /** Every ellipsis becomes so many full slices. */
  function Undotted(entries: seq<Entry>, fill: nat): seq<Entry> {
    if entries == [] then []
    else (if entries[0].Dots? then seq(fill, _ => Span(FULL)) else [entries[0]]) + Undotted(entries[1..], fill)
  }

  /** The part of `LoraTorchTensor.__getitem__` for a matrix. */
  function GetItem(t: Adapter, index: Index): Result<Adapter, Error>
    requires WfAdapter(t) && |t.B.lead| == 1
    decreases if index.Tuple? then |index.entries| else 0
  {
    match index
    case One(_) => Err(NotImplemented)
    case Rows(s) => GetRows(t, s)
    case Tuple(entries) =>
      if entries == [] then Err(AssertionFailed)
      else if entries[|entries| - 1].Dots? then GetItem(t, Tuple(entries[..|entries| - 1]))
      else
        var es := Undotted(entries, |entries| - 1);
        GetTuple(t, if |es| < 2 then es + [Span(FULL)] else es)
  }

  function GetRows(t: Adapter, s: Slice): Result<Adapter, Error>
    requires WfAdapter(t) && |t.B.lead| == 1
  {
    match Selected(s, t.B.lead[0])
    case Err(e) => Err(e)
    case Ok(at) => Ok(Adapter(t.A, TakeRows(t.B, at)))
  }

  /** The last entry selects columns of A, the first one rows of B. A number would leave a vector. */
  function GetTuple(t: Adapter, es: seq<Entry>): Result<Adapter, Error>
    requires WfAdapter(t) && |t.B.lead| == 1
  {
    if |es| != 2 then Err(RuntimeFailed)
    else if es[0].Span? && es[1].Span? then
      match (Selected(es[0].s, t.B.lead[0]), Selected(es[1].s, t.A.last))
      case (Ok(rows), Ok(columns)) => Ok(Adapter(TakeColumns(t.A, columns), TakeRows(t.B, rows)))
      case _ => Err(RuntimeFailed)
    else Err(AssertionFailed)
  }

  // ---------------------------------------------------------------------------------------------
  // torch.cat of matrices
  // ---------------------------------------------------------------------------------------------

  function AllRows(ts: seq<Tensor>): seq<Row> {
    if ts == [] then [] else AllRows(ts[..|ts| - 1]) + ts[|ts| - 1].rows
  }

  predicate SameWidth(ts: seq<Tensor>) {
    ts != [] && forall i :: 0 <= i < |ts| ==> Wf(ts[i]) && |ts[i].lead| == 1 && ts[i].last == ts[0].last
  }

  lemma {:induction false} AllRowsWidth(ts: seq<Tensor>, width: nat)
    requires forall i :: 0 <= i < |ts| ==> Wf(ts[i]) && ts[i].last == width
    ensures forall i :: 0 <= i < |AllRows(ts)| ==> |AllRows(ts)[i]| == width
  {
    if ts != [] {
      var n := |ts| - 1;
      AllRowsWidth(ts[..n], width);
    }
  }

  /** One matrix below the other. */
  function Concatenated(ts: seq<Tensor>): (r: Tensor)
    requires SameWidth(ts)
    ensures Wf(r)
  {
    AllRowsWidth(ts, ts[0].last);
    ProdOne(|AllRows(ts)|);
    Tensor([|AllRows(ts)|], ts[0].last, AllRows(ts))
  }

  function Bs(ts: seq<Adapter>): (r: seq<Tensor>)
    ensures |r| == |ts| && forall i :: 0 <= i < |r| ==> r[i] == ts[i].B
  {
    seq(|ts|, i requires 0 <= i < |ts| => ts[i].B)
  }

  predicate Matrices(ts: seq<Adapter>) { forall i :: 0 <= i < |ts| ==> WfAdapter(ts[i]) && |ts[i].B.lead| == 1 }

  /** `torch.cat` of adapters for matrices, along the rows: only with the same A. */
  function Cat(ts: seq<Adapter>): Result<Adapter, Error>
    requires ts != [] && Matrices(ts)
  {
    if forall i :: 0 <= i < |ts| ==> ts[i].A == ts[0].A then
      assert forall i :: 0 <= i < |ts| ==> Bs(ts)[i].last == ts[i].A.lead[0];
      Ok(Adapter(ts[0].A, Concatenated(Bs(ts))))
    else Err(NotImplemented)
  }

  // ---------------------------------------------------------------------------------------------
  // Every operation on the pair is that operation on the product
  // ---------------------------------------------------------------------------------------------

  /** `reshape` on a tensor, for shapes that keep the last axis. */
  function DenseReshape(t: Tensor, newShape: seq<int>): Result<Tensor, Error> {
    if newShape == [] then Err(NotImplemented)
    else match Expanded(newShape, Prod(t.Shape()))
      case Err(e) => Err(e)
      case Ok(shape) =>
        if shape == [] || shape[|shape| - 1] != t.last then Err(NotImplemented)
        else if !NonNegative(shape) then Err(RuntimeFailed)
        else WithShape(t, AsNats(shape[..|shape| - 1]))
  }

  /** A reshaped tensor has the same rows in the same order, and the shape asked for, where it is spelled out. */
  lemma ReshapeKeepsRows(t: Tensor, newShape: seq<int>)
    requires DenseReshape(t, newShape).Ok?
    ensures var r := DenseReshape(t, newShape).value;
            && r.rows == t.rows && r.last == t.last && Prod(r.lead) == |r.rows| && |r.Shape()| == |newShape|
            && forall i :: 0 <= i < |newShape| && newShape[i] != -1 ==> r.Shape()[i] == newShape[i]
  {
    var shape := Expanded(newShape, Prod(t.Shape())).value;
    var r := DenseReshape(t, newShape).value;
    forall i | 0 <= i < |newShape| && newShape[i] != -1 ensures r.Shape()[i] == newShape[i] {
      assert r.Shape()[i] == shape[i];
    }
  }

  predicate OneMissing(shape: seq<int>, full: seq<nat>, k: nat) {
    && k < |shape| == |full| && shape[k] == -1
    && forall i :: 0 <= i < |shape| && i != k ==> shape[i] == full[i]
  }

  lemma {:induction false} ProdWithout(shape: seq<int>, full: seq<nat>, k: nat)
    requires OneMissing(shape, full, k) && forall i :: 0 <= i < |full| ==> full[i] > 0
    ensures IntProd(Replace(shape, 1)) > 0 && Prod(full) == IntProd(Replace(shape, 1)) * full[k]
  {
    var n := |full| - 1;
    assert Replace(shape, 1)[..n] == Replace(shape[..n], 1);
    if k == n {
      ProdSpelled(shape[..n], full[..n]);
    } else {
      ProdWithout(shape[..n], full[..n], k);
      Rotates(IntProd(Replace(shape[..n], 1)), full[k], full[n]);
    }
  }

  lemma Rotates(a: nat, b: nat, c: nat)
    ensures a * b * c == a * c * b
    ensures a > 0 && c > 0 ==> a * c > 0
  {
  }

  lemma {:induction false} ProdSpelled(shape: seq<int>, full: seq<nat>)
    requires |shape| == |full| && forall i :: 0 <= i < |full| ==> shape[i] == full[i] > 0
    ensures IntProd(Replace(shape, 1)) == Prod(full) > 0
  {
    if full != [] {
      var n := |full| - 1;
      assert Replace(shape, 1)[..n] == Replace(shape[..n], 1);
      ProdSpelled(shape[..n], full[..n]);
      Rotates(Prod(full[..n]), 1, full[n]);
    }
  }

  lemma MissingIsFound(shape: seq<int>, full: seq<nat>, k: nat)
    requires OneMissing(shape, full, k) && forall i :: 0 <= i < |full| ==> full[i] > 0
    ensures Expanded(shape, Prod(full)) == Ok(Ints(full))
  {
    ProdWithout(shape, full, k);
    var known := IntProd(Replace(shape, 1));
    Quotient(Prod(full), known, full[k]);
    assert Replace(shape, full[k]) == Ints(full);
  }

  lemma Quotient(p: nat, known: nat, x: nat)
    requires known > 0 && p == known * x
    ensures p % known == 0 && p / known == x
  {
    DivUnique(x, known, 0);
    assert p == x * known + 0;
  }

  function Ints(full: seq<nat>): (r: seq<int>)
    ensures |r| == |full| && forall i :: 0 <= i < |r| ==> r[i] == full[i]
  {
    full
  }

  lemma ElementsOf(t: Tensor, full: seq<nat>)
    requires full != [] && full[|full| - 1] == t.last && Prod(full[..|full| - 1]) == Prod(t.lead)
    ensures Prod(t.Shape()) == Prod(full)
  {
    assert t.Shape()[..|t.lead|] == t.lead && t.Shape()[|t.lead|] == t.last;
  }

  /** Every shape that fits is found, with all entries spelled out or with one of them left out. */
  lemma ReshapeFindsShape(t: Tensor, newShape: seq<int>, full: seq<nat>, k: nat)
    requires Wf(t) && |full| >= 2 && full[|full| - 1] == t.last && Prod(full[..|full| - 1]) == |t.rows|
    requires forall i :: 0 <= i < |full| ==> full[i] > 0
    requires newShape == Ints(full) || OneMissing(newShape, full, k)
    ensures DenseReshape(t, newShape) == Ok(Tensor(full[..|full| - 1], t.last, t.rows))
  {
    ElementsOf(t, full);
    if newShape == Ints(full) {
      assert forall i :: 0 <= i < |full| ==> newShape[i] > 0;
    } else {
      MissingIsFound(newShape, full, k);
    }
    assert AsNats(Ints(full)[..|full| - 1]) == full[..|full| - 1];
  }

  lemma ExpandedLength(shape: seq<int>, elements: nat)
    ensures var r := Expanded(shape, elements); r.Ok? ==> |r.value| == |shape|
  {
  }

  lemma ReshapeIsReshape(t: Adapter, newShape: seq<int>)
    requires SharedA(t)
    ensures Reshape(t, newShape).Ok? <==> |newShape| >= 2 && DenseReshape(Product(t), newShape).Ok?
    ensures Reshape(t, newShape).Ok? ==>
              SharedA(Reshape(t, newShape).value)
              && DenseReshape(Product(t), newShape) == Ok(Product(Reshape(t, newShape).value))
  {
    ExpandedLength(newShape, Prod(t.Shape()));
    if |newShape| >= 2 && Expanded(newShape, Prod(t.Shape())).Ok? {
      var shape := Expanded(newShape, Prod(t.Shape())).value;
      var ones := Ones(|shape| - 2);
      var lead := ones + [t.Rank()];
      assert lead[..|lead| - 1] == ones;
      ProdOfOnes(ones);
      SharedRows(t);
    }
  }

  /** `permute` on a tensor, for the two cases an adapter supports. */
  function DensePermute(t: Tensor, dims: seq<int>): Result<Tensor, Error>
    requires Wf(t)
  {
    var n := |t.Shape()|;
    var ds := Normalized(dims, n);
    if !FromEnd(ds, n) || !IsPermutation(FromFront(ds, n)) then Err(RuntimeFailed)
    else if ds[n - 1] == -1 then
      LeadPermutation(FromFront(ds, n));
      Ok(Permuted(t, FromFront(ds, n)[..n - 1]))
    else if n == 2 then Ok(Transposed(t))
    else Err(NotImplemented)
  }

  /** Axes may be counted from the end. `permute` is defined exactly for permutations that keep the last axis, and for
      the exchange of the two axes of a matrix. */
  lemma PermuteMeans(t: Tensor, dims: seq<int>, axes: seq<nat>)
    requires Wf(t) && |dims| == |axes| == |t.Shape()| && forall k :: 0 <= k < |axes| ==> axes[k] < |axes|
    requires forall k :: 0 <= k < |axes| ==> dims[k] == axes[k] || dims[k] == axes[k] - |axes|
    ensures var n := |axes|;
            && (DensePermute(t, dims).Ok? <==> IsPermutation(axes) && (axes[n - 1] == n - 1 || n == 2))
            && (IsPermutation(axes) && axes[n - 1] == n - 1 ==>
                  IsPermutation(axes[..n - 1]) && DensePermute(t, dims) == Ok(Permuted(t, axes[..n - 1])))
            && (IsPermutation(axes) && axes[n - 1] != n - 1 && n == 2 ==> DensePermute(t, dims) == Ok(Transposed(t)))
  {
    var n := |axes|;
    var ds := Normalized(dims, n);
    assert FromEnd(ds, n) && FromFront(ds, n) == axes;
    if IsPermutation(axes) && axes[n - 1] == n - 1 { LeadPermutation(axes); }
  }

  /** Axis k of the result is axis dims[k]: the row with index `idx` is the row whose index has idx[k] at dims[k]. */
  lemma PermutedAt(t: Tensor, dims: seq<nat>, idx: seq<nat>) returns (from: seq<nat>)
    requires Wf(t) && |dims| == |t.lead| && IsPermutation(dims)
    requires |idx| == |dims| && forall k :: 0 <= k < |dims| ==> idx[k] < t.lead[dims[k]]
    ensures var r := Permuted(t, dims);
            && r.last == t.last && |r.lead| == |dims| && (forall k :: 0 <= k < |dims| ==> r.lead[k] == t.lead[dims[k]])
            && Indexes(t.lead, from) && (forall k :: 0 <= k < |dims| ==> from[dims[k]] == idx[k])
            && Flat(r.lead, idx) < |r.rows| && Flat(t.lead, from) < |t.rows|
            && r.rows[Flat(r.lead, idx)] == t.rows[Flat(t.lead, from)]
  {
    var r := Permuted(t, dims);
    var shape := Pick(dims, t.lead);
    UnflatFlat(shape, idx);
    var p := Flat(shape, idx);
    from := Unpick(dims, idx);
    SourceInRange(t.lead, dims, p);
    FlatBound(t.lead, from);
    assert r.rows[p] == RowFrom(t, dims, p);
  }

  lemma ProductOfPermuted(t: Adapter, dims: seq<nat>)
    requires SharedA(t) && |dims| == |t.B.lead| && IsPermutation(dims)
    ensures SharedA(Adapter(t.A, Permuted(t.B, dims)))
    ensures Product(Adapter(t.A, Permuted(t.B, dims))) == Permuted(Product(t), dims)
  {
    var B, x := Permuted(t.B, dims), Product(t);
    var y := Product(Adapter(t.A, B));
    var z := Permuted(x, dims);
    forall p | 0 <= p < |y.rows| ensures y.rows[p] == z.rows[p] {
      SourceInRange(t.B.lead, dims, p);
      assert B.rows[p] == RowFrom(t.B, dims, p);
      assert z.rows[p] == RowFrom(x, dims, p);
    }
  }

  lemma Commutes(x: real, y: real)
    ensures x * y == y * x
  {
  }

  lemma {:induction false} DotTransposed(t: Adapter, i: nat, j: nat, n: nat)
    requires SharedA(t) && |t.B.lead| == 1 && i < |t.B.rows| && j < t.A.last && n <= t.Rank()
    ensures |t.A.rows| == t.Rank()
    ensures Dot(Column(t.A, j), Transposed(t.B).rows, i, n) == Dot(t.B.rows[i], t.A.rows, j, n)
  {
    SharedRows(t);
    if n > 0 {
      DotTransposed(t, i, j, n - 1);
      assert Transposed(t.B).rows[n - 1] == Column(t.B, n - 1);
      Commutes(t.A.rows[n - 1][j], t.B.rows[i][n - 1]);
    }
  }

  lemma ProductOfTransposed(t: Adapter)
    requires SharedA(t) && |t.B.lead| == 1
    ensures SharedA(Adapter(Transposed(t.B), Transposed(t.A)))
    ensures Product(Adapter(Transposed(t.B), Transposed(t.A))) == Transposed(Product(t))
  {
    var u := Adapter(Transposed(t.B), Transposed(t.A));
    var x, y := Transposed(Product(t)), Product(u);
    SharedRows(t);
    SharedRows(u);
    ProdOne(t.B.lead[0]);
    forall j | 0 <= j < t.A.last ensures y.rows[j] == x.rows[j] {
      assert x.rows[j] == Column(Product(t), j);
      assert u.B.rows[j] == Column(t.A, j);
      forall i | 0 <= i < |t.B.rows| ensures y.rows[j][i] == x.rows[j][i] {
        DotTransposed(t, i, j, t.Rank());
      }
    }
  }

  lemma PermuteIsPermute(t: Adapter, dims: seq<int>)
    requires SharedA(t)
    ensures Permute(t, dims).Ok? <==> DensePermute(Product(t), dims).Ok?
    ensures Permute(t, dims).Ok? ==>
              SharedA(Permute(t, dims).value) && DensePermute(Product(t), dims) == Ok(Product(Permute(t, dims).value))
  {
    var n := |t.Shape()|;
    var ds := Normalized(dims, n);
    if FromEnd(ds, n) && IsPermutation(FromFront(ds, n)) {
      if ds[n - 1] == -1 {
        LeadPermutation(FromFront(ds, n));
        ProductOfPermuted(t, FromFront(ds, n)[..n - 1]);
      } else if n == 2 {
        ProductOfTransposed(t);
      }
    }
  }

  /** Only the columns that are asked for matter. */
  lemma {:induction false} DotNarrow(b: Row, a: seq<Row>, at: seq<nat>, j: nat, n: nat)
    requires n <= |b| && n <= |a| && j < |at| && forall i, k :: 0 <= i < |at| && 0 <= k < |a| ==> at[i] < |a[k]|
    ensures Dot(b, Narrow(a, at), j, n) == Dot(b, a, at[j], n)
  {
    if n > 0 { DotNarrow(b, a, at, j, n - 1); }
  }

  lemma ProductOfSlice(t: Adapter, rows: seq<nat>, columns: seq<nat>)
    requires SharedA(t) && |t.B.lead| == 1
    requires (forall i :: 0 <= i < |rows| ==> rows[i] < t.B.lead[0]) && forall i :: 0 <= i < |columns| ==>
             columns[i] < t.A.last
    ensures var r := Adapter(TakeColumns(t.A, columns), TakeRows(t.B, rows));
            SharedA(r) && Product(r) == TakeColumns(TakeRows(Product(t), rows), columns)
  {
    var r := Adapter(TakeColumns(t.A, columns), TakeRows(t.B, rows));
    var x, y := Product(r), TakeColumns(TakeRows(Product(t), rows), columns);
    SharedRows(t);
    SharedRows(r);
    ProdOne(t.B.lead[0]);
    forall i | 0 <= i < |rows| ensures x.rows[i] == y.rows[i] {
      var b := t.B.rows[rows[i]];
      forall j | 0 <= j < |columns| ensures x.rows[i][j] == y.rows[i][j] {
        DotNarrow(b, t.A.rows, columns, j, |b|);
        assert y.rows[i][j] == Product(t).rows[rows[i]][columns[j]];
      }
    }
  }

  lemma {:induction false} RangeOfOne(lo: nat, n: nat)
    requires lo <= n
    ensures |Range(lo, n, 1)| == n - lo && forall i :: 0 <= i < n - lo ==> Range(lo, n, 1)[i] == lo + i
    decreases n - lo
  {
    if lo < n { RangeOfOne(lo + 1, n); }
  }

  lemma AllColumns(t: Tensor)
    requires Wf(t)
    ensures Selected(FULL, t.last).Ok? && TakeColumns(t, Selected(FULL, t.last).value) == t
  {
    RangeOfOne(0, t.last);
    var r := TakeColumns(t, Selected(FULL, t.last).value);
    forall k | 0 <= k < |t.rows| ensures r.rows[k] == t.rows[k] {
    }
  }

  /** A bound of a slice of n positions: `absent` if it is not given; from the end if it is negative; never beyond
      either end. */
  predicate IsBound(x: Option<int>, absent: nat, n: nat, b: nat) {
    && (x.None? ==> b == absent)
    && (x.Some? && 0 <= x.value <= n ==> b == x.value)
    && (x.Some? && x.value > n ==> b == n)
    && (x.Some? && x.value < 0 <= n + x.value ==> b == n + x.value)
    && (x.Some? && n + x.value < 0 ==> b == 0)
  }

  /** The positions lo, lo + step, ... below a bound, `size` of them. */
  datatype Cut = Cut(lo: nat, step: nat, size: nat)

  predicate IsCut(s: Slice, n: nat, c: Cut) {
    && c.step > 0 && c.step == (if s.step.Some? then s.step.value else 1)
    && IsBound(s.start, 0, n, c.lo)
    && exists hi: nat :: IsBound(s.stop, n, n, hi) && hi <= n && Reaches(c, hi)
  }

  /** All positions of the cut, and no others in its steps, are below hi. */
  predicate Reaches(c: Cut, hi: nat) {
    c.lo + c.size * c.step >= hi && (c.size > 0 ==> c.lo + (c.size - 1) * c.step < hi)
  }

  lemma {:induction false} RangeSteps(lo: nat, hi: nat, step: nat)
    requires step > 0
    ensures var r := Range(lo, hi, step);
            && Reaches(Cut(lo, step, |r|), hi)
            && forall k :: 0 <= k < |r| ==> r[k] == lo + k * step
    decreases hi - lo
  {
    if lo < hi {
      RangeSteps(lo + step, hi, step);
      var r, rest := Range(lo, hi, step), Range(lo + step, hi, step);
      forall k | 0 <= k < |r| ensures r[k] == lo + k * step {
        if k > 0 { OneStepOn(lo, step, k - 1); }
      }
      OneStepOn(lo, step, |rest|);
      if rest != [] { OneStepOn(lo, step, |rest| - 1); }
    }
  }

  lemma OneStepOn(lo: nat, step: nat, k: nat)
    ensures lo + step + k * step == lo + (k + 1) * step
  {
  }

  /** Which positions a slice selects. */
  lemma SelectedAre(s: Slice, n: nat) returns (c: Cut)
    ensures Selected(s, n).Ok? <==> s.step.None? || s.step.value > 0
    ensures Selected(s, n).Ok? ==>
              var at := Selected(s, n).value;
              IsCut(s, n, c) && |at| == c.size && forall k :: 0 <= k < c.size ==> at[k] == c.lo + k * c.step
  {
    var step := if s.step.Some? then s.step.value else 1;
    c := Cut(0, 1, 0);
    if step > 0 {
      var lo := if s.start.Some? then Clamp(s.start.value, n) else 0;
      var hi := if s.stop.Some? then Clamp(s.stop.value, n) else n;
      RangeSteps(lo, hi, step);
      c := Cut(lo, step, |Range(lo, hi, step)|);
      assert IsBound(s.start, 0, n, lo) && IsBound(s.stop, n, n, hi);
    }
  }

  /** A slice selects the positions between its bounds that are a number of steps from the lower one, and each is below
      the next. */
  lemma SelectedPositions(s: Slice, n: nat, p: nat) returns (lo: nat, hi: nat)
    requires s.step.None? || s.step.value > 0
    ensures IsBound(s.start, 0, n, lo) && IsBound(s.stop, n, n, hi) && Selected(s, n).Ok?
    ensures var step, at := if s.step.Some? then s.step.value else 1, Selected(s, n).value;
            && (forall i, j :: 0 <= i < j < |at| ==> at[i] < at[j])
            && (p in at <==> lo <= p < hi && (p - lo) % step == 0)
  {
    var c := SelectedAre(s, n);
    lo := c.lo;
    hi :| IsBound(s.stop, n, n, hi) && hi <= n && Reaches(c, hi);
    PositionsOfCut(Selected(s, n).value, c, hi, p);
  }

  lemma PositionsOfCut(at: seq<nat>, c: Cut, hi: nat, p: nat)
    requires c.step > 0 && Reaches(c, hi) && |at| == c.size
    requires forall k :: 0 <= k < c.size ==> at[k] == c.lo + k * c.step
    ensures forall i, j :: 0 <= i < j < |at| ==> at[i] < at[j]
    ensures p in at <==> c.lo <= p < hi && (p - c.lo) % c.step == 0
  {
    forall i, j | 0 <= i < j < |at| ensures at[i] < at[j] { MulMono(i, j, c.step); }
    if p in at {
      var k :| 0 <= k < |at| && at[k] == p;
      PositionFits(c, hi, k);
    }
    if c.lo <= p < hi && (p - c.lo) % c.step == 0 {
      var k := PositionIs(c, hi, p);
      assert at[k] == p;
    }
  }

  lemma PositionFits(c: Cut, hi: nat, k: nat)
    requires c.step > 0 && Reaches(c, hi) && k < c.size
    ensures var p := c.lo + k * c.step; c.lo <= p < hi && (p - c.lo) % c.step == 0
  {
    DivUnique(k, c.step, 0);
    if k < c.size - 1 { MulMono(k, c.size - 1, c.step); }
  }

  lemma PositionIs(c: Cut, hi: nat, p: nat) returns (k: nat)
    requires c.step > 0 && Reaches(c, hi) && c.lo <= p < hi && (p - c.lo) % c.step == 0
    ensures k < c.size && p == c.lo + k * c.step
  {
    var d := p - c.lo;
    k := d / c.step;
    DivMod(d, c.step);
    NotBeyond(c, hi, k);
  }

  lemma DivMod(d: nat, n: nat)
    requires n > 0
    ensures d == d / n * n + d % n
  {
  }

  lemma NotBeyond(c: Cut, hi: nat, k: nat)
    requires Reaches(c, hi) && c.lo + k * c.step < hi
    ensures k < c.size
  {
    if c.size < k { MulMono(c.size, k, c.step); }
  }

  /** Rows i of `to` are the rows lo + i * step of `from`, and in them the columns likewise. */
  predicate IsSlice(from: Tensor, to: Tensor, r: Cut, c: Cut)
    requires Wf(from) && Wf(to)
  {
    && to.lead == [r.size] && to.last == c.size && |to.rows| == r.size
    && forall i: nat, j: nat :: i < r.size && j < c.size ==> SameEntry(from, to, r, c, i, j)
  }

  predicate SameEntry(from: Tensor, to: Tensor, r: Cut, c: Cut, i: nat, j: nat) {
    var p, q := r.lo + i * r.step, c.lo + j * c.step;
    && i < |to.rows| && j < |to.rows[i]| && p < |from.rows| && q < |from.rows[p]|
    && to.rows[i][j] == from.rows[p][q]
  }

  /** Slices of the pair are slices of the product, entry by entry: rows alone, and rows and columns. They are defined
      exactly if the steps are positive. */
  lemma SliceIsSlice(t: Adapter, r: Slice, c: Slice) returns (rows: Cut, columns: Cut)
    requires SharedA(t) && |t.B.lead| == 1
    ensures var one := GetItem(t, Rows(r));
            && (one.Ok? <==> r.step.None? || r.step.value > 0)
            && (one.Ok? ==>
                  IsCut(r, t.B.lead[0], rows) && SharedA(one.value)
                  && IsSlice(Product(t), Product(one.value), rows, Cut(0, 1, t.A.last)))
    ensures var both := GetItem(t, Tuple([Span(r), Span(c)]));
            && (both.Ok? <==> (r.step.None? || r.step.value > 0) && (c.step.None? || c.step.value > 0))
            && (both.Ok? ==>
                  IsCut(r, t.B.lead[0], rows) && IsCut(c, t.A.last, columns) && SharedA(both.value)
                  && IsSlice(Product(t), Product(both.value), rows, columns))
  {
    rows := SelectedAre(r, t.B.lead[0]);
    columns := SelectedAre(c, t.A.last);
    BothSpans(r, c);
    var at := Selected(r, t.B.lead[0]);
    if at.Ok? {
      RowsAreSlice(t, at.value, rows);
      if Selected(c, t.A.last).Ok? { EntriesAreSlice(t, at.value, Selected(c, t.A.last).value, rows, columns); }
    }
  }

  lemma BothSpans(r: Slice, c: Slice)
    ensures Undotted([Span(r), Span(c)], 1) == [Span(r), Span(c)]
  {
    var es := [Span(r), Span(c)];
    assert es[1..] == [Span(c)] && [Span(c)][1..] == [];
    assert Undotted([Span(c)], 1) == [Span(c)] + Undotted([], 1);
  }

  lemma EntriesAreSlice(t: Adapter, rows: seq<nat>, columns: seq<nat>, r: Cut, c: Cut)
    requires SharedA(t) && |t.B.lead| == 1 && |rows| == r.size && |columns| == c.size
    requires forall k :: 0 <= k < |rows| ==> rows[k] == r.lo + k * r.step && rows[k] < t.B.lead[0]
    requires forall k :: 0 <= k < |columns| ==> columns[k] == c.lo + k * c.step && columns[k] < t.A.last
    ensures var u := Adapter(TakeColumns(t.A, columns), TakeRows(t.B, rows));
            SharedA(u) && IsSlice(Product(t), Product(u), r, c)
  {
    ProductOfSlice(t, rows, columns);
    ProdOne(t.B.lead[0]);
    var x, y := Product(t), TakeColumns(TakeRows(Product(t), rows), columns);
    forall i: nat, j: nat | i < r.size && j < c.size ensures SameEntry(x, y, r, c, i, j) {
      assert y.rows[i][j] == x.rows[rows[i]][columns[j]];
    }
  }

  lemma RowsAreSlice(t: Adapter, rows: seq<nat>, r: Cut)
    requires SharedA(t) && |t.B.lead| == 1 && |rows| == r.size
    requires forall k :: 0 <= k < |rows| ==> rows[k] == r.lo + k * r.step && rows[k] < t.B.lead[0]
    ensures var u := Adapter(t.A, TakeRows(t.B, rows));
            SharedA(u) && IsSlice(Product(t), Product(u), r, Cut(0, 1, t.A.last))
  {
    var all := Selected(FULL, t.A.last).value;
    AllColumns(t.A);
    RangeOfOne(0, t.A.last);
    EntriesAreSlice(t, rows, all, r, Cut(0, 1, t.A.last));
  }

  lemma UndottedOne(e: Entry, n: nat)
    requires !e.Dots?
    ensures Undotted([e], n) == [e]
  {
    assert [e][1..] == [];
    assert Undotted([e], n) == [e] + Undotted([], n);
  }

  /** A missing entry, an ellipsis behind the rows and an ellipsis in front of the columns mean a full slice. */
  lemma EllipsisIsFullSlice(t: Adapter, s: Slice)
    requires WfAdapter(t) && |t.B.lead| == 1
    ensures GetItem(t, Tuple([Span(s)])) == GetItem(t, Tuple([Span(s), Span(FULL)]))
    ensures GetItem(t, Tuple([Span(s), Dots])) == GetItem(t, Tuple([Span(s), Span(FULL)]))
    ensures GetItem(t, Tuple([Dots, Span(s)])) == GetItem(t, Tuple([Span(FULL), Span(s)]))
  {
    var x, f := Span(s), Span(FULL);
    UndottedOne(x, 0);
    UndottedOne(x, 1);
    UndottedOne(f, 1);
    assert [x, f][1..] == [f] && [f, x][1..] == [x] && [Dots, x][1..] == [x];
    assert Undotted([x, f], 1) == [x, f] && Undotted([f, x], 1) == [f, x];
    assert seq(1, _ => f) == [f];
    assert Undotted([Dots, x], 1) == [f, x];
    assert [x, Dots][..1] == [x];
  }

  function Products(ts: seq<Adapter>): (r: seq<Tensor>)
    requires forall i :: 0 <= i < |ts| ==> SharedA(ts[i])
    ensures |r| == |ts| && forall i :: 0 <= i < |r| ==> r[i] == Product(ts[i])
  {
    seq(|ts|, i requires 0 <= i < |ts| => Product(ts[i]))
  }

  lemma {:induction false} RowsOfProducts(ts: seq<Adapter>, A: Tensor)
    requires forall i :: 0 <= i < |ts| ==> SharedA(ts[i]) && ts[i].A == A
    requires |ts| > 0 ==> |A.rows| == ts[0].Rank()
    ensures forall i :: 0 <= i < |AllRows(Bs(ts))| ==> |AllRows(Bs(ts))[i]| == |A.rows|
    ensures Wf(A) ==> AllRows(Products(ts)) == ProductRows(AllRows(Bs(ts)), A.rows, A.last)
  {
    if ts != [] {
      var n := |ts| - 1;
      SharedRows(ts[n]);
      SharedRows(ts[0]);
      RowsOfProducts(ts[..n], A);
      assert Bs(ts)[..n] == Bs(ts[..n]) && Products(ts)[..n] == Products(ts[..n]);
    }
  }

  lemma MatricesShare(ts: seq<Adapter>)
    requires Matrices(ts)
    ensures forall i :: 0 <= i < |ts| ==> SharedA(ts[i])
  {
  }

  /** How many rows the matrices before the i-th have. */
  function RowsBefore(ts: seq<Tensor>, i: nat): nat
    requires i <= |ts|
  {
    if i == 0 then 0 else RowsBefore(ts, i - 1) + |ts[i - 1].rows|
  }

  /** Row p of the i-th matrix stands behind all rows of those before it. */
  lemma {:induction false} RowOfConcatenation(ts: seq<Tensor>, i: nat, p: nat)
    requires i < |ts| && p < |ts[i].rows|
    ensures |AllRows(ts)| == RowsBefore(ts, |ts|)
    ensures RowsBefore(ts, i) + p < |AllRows(ts)| && AllRows(ts)[RowsBefore(ts, i) + p] == ts[i].rows[p]
  {
    var n := |ts| - 1;
    RowsCounted(ts);
    RowsCounted(ts[..n]);
    RowsBeforeFront(ts, n, n);
    RowsBeforeFront(ts, n, i);
    if i < n { RowOfConcatenation(ts[..n], i, p); }
  }

  lemma {:induction false} RowsCounted(ts: seq<Tensor>)
    ensures |AllRows(ts)| == RowsBefore(ts, |ts|)
  {
    if ts != [] {
      var n := |ts| - 1;
      RowsCounted(ts[..n]);
      RowsBeforeFront(ts, n, n);
    }
  }

  lemma {:induction false} RowsBeforeFront(ts: seq<Tensor>, n: nat, i: nat)
    requires i <= n <= |ts|
    ensures RowsBefore(ts[..n], i) == RowsBefore(ts, i)
  {
    if i > 0 { RowsBeforeFront(ts, n, i - 1); }
  }

  /** Concatenating pairs with one A concatenates the products. */
  lemma CatIsCat(ts: seq<Adapter>)
    requires ts != [] && Matrices(ts)
    ensures forall i :: 0 <= i < |ts| ==> SharedA(ts[i])
    ensures Cat(ts).Ok? <==> forall i :: 0 <= i < |ts| ==> ts[i].A == ts[0].A
    ensures Cat(ts).Ok? ==>
              SharedA(Cat(ts).value) && SameWidth(Products(ts))
              && Product(Cat(ts).value) == Concatenated(Products(ts))
  {
    MatricesShare(ts);
    if forall i :: 0 <= i < |ts| ==> ts[i].A == ts[0].A {
      SharedRows(ts[0]);
      RowsOfProducts(ts, ts[0].A);
    }
  }

  /** Row p of the i-th product stands behind all rows of those before it. */
  lemma RowOfCat(ts: seq<Adapter>, i: nat, p: nat)
    requires ts != [] && Matrices(ts) && Cat(ts).Ok? && i < |ts|
    requires SharedA(ts[i]) && p < |Product(ts[i]).rows|
    ensures forall k :: 0 <= k < |ts| ==> SharedA(ts[k])
    ensures SharedA(Cat(ts).value)
    ensures var rows, at := Product(Cat(ts).value).rows, RowsBefore(Products(ts), i) + p;
            && |rows| == RowsBefore(Products(ts), |ts|)
            && at < |rows| && rows[at] == Product(ts[i]).rows[p]
  {
    CatIsCat(ts);
    RowOfConcatenation(Products(ts), i, p);
  }
}
