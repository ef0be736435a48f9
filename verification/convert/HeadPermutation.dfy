/** `LlamaModel.permute`: the two halves of every head's rows are interleaved, by a reshape, an exchange of two axes
    and a reshape back. */
module HeadPermutation {
  import opened Options
  import opened Results
  import opened Tensors
  import opened Lora

  function Heads(nHead: nat, nHeadKv: Option<nat>): nat {
    if nHeadKv.Some? && nHead != nHeadKv.value then nHeadKv.value else nHead
  }

  /** `swapaxes(1, 2)` on a tensor with four axes. */
  function DenseSwap(t: Tensor): Result<Tensor, Error>
    requires Wf(t)
  {
    if |t.Shape()| != 4 then Err(RuntimeFailed) else DensePermute(t, [0, 2, 1, 3])
  }

  function AdapterSwap(t: Adapter): Result<Adapter, Error>
    requires WfAdapter(t)
  {
    if |t.Shape()| != 4 then Err(RuntimeFailed) else SwapAxes(t, 1, 2)
  }

  /** The exchange and the reshape back to a matrix. */
  function SwapBack(split: Tensor, rows: nat, columns: nat): Result<Tensor, Error> {
    if !Wf(split) then Err(RuntimeFailed)
    else
      match DenseSwap(split)
      case Err(e) => Err(e)
      case Ok(swapped) => DenseReshape(swapped, [rows, columns])
  }

  function AdapterSwapBack(split: Adapter, rows: nat, columns: nat): Result<Adapter, Error> {
    if !WfAdapter(split) then Err(RuntimeFailed)
    else
      match AdapterSwap(split)
      case Err(e) => Err(e)
      case Ok(swapped) => if WfAdapter(swapped) then Reshape(swapped, [rows, columns]) else Err(RuntimeFailed)
  }

  /** On a matrix. */
  function PermuteWeights(x: Tensor, nHead: nat, nHeadKv: Option<nat>): Result<Tensor, Error>
    requires Wf(x) && |x.lead| == 1
  {
    var h := Heads(nHead, nHeadKv);
    if h == 0 then Err(RuntimeFailed)
    else
      match DenseReshape(x, [h, 2, x.lead[0] / h / 2, x.last])
      case Err(e) => Err(e)
      case Ok(split) => SwapBack(split, x.lead[0], x.last)
  }

  /** On an adapter for a matrix. */
  function PermuteAdapter(t: Adapter, nHead: nat, nHeadKv: Option<nat>): Result<Adapter, Error>
    requires WfAdapter(t) && |t.B.lead| == 1
  {
    var h := Heads(nHead, nHeadKv);
    if h == 0 then Err(RuntimeFailed)
    else
      match Reshape(t, [h, 2, t.B.lead[0] / h / 2, t.A.last])
      case Err(e) => Err(e)
      case Ok(split) => AdapterSwapBack(split, t.B.lead[0], t.A.last)
  }

  /** Both fail, or the adapter stands for the tensor. */
  predicate StandsFor(a: Result<Adapter, Error>, d: Result<Tensor, Error>) {
    if a.Ok? then SharedA(a.value) && d == Ok(Product(a.value)) else d.Err?
  }

  lemma SwapIsSwap(t: Adapter)
    requires SharedA(t)
    ensures StandsFor(AdapterSwap(t), DenseSwap(Product(t)))
  {
    if |t.Shape()| == 4 {
      PermuteIsPermute(t, [0, 2, 1, 3]);
      var dims: seq<int> := seq(4, i => i);
      assert dims[1 := 2][2 := 1] == [0, 2, 1, 3];
    }
  }

  lemma ReshapeStandsFor(t: Adapter, shape: seq<int>)
    requires SharedA(t) && |shape| >= 2
    ensures StandsFor(Reshape(t, shape), DenseReshape(Product(t), shape))
  {
    ReshapeIsReshape(t, shape);
  }

  lemma SwapsBack(split: Adapter, rows: nat, columns: nat)
    requires SharedA(split)
    ensures StandsFor(AdapterSwapBack(split, rows, columns), SwapBack(Product(split), rows, columns))
  {
    SwapIsSwap(split);
    if AdapterSwap(split).Ok? { ReshapeStandsFor(AdapterSwap(split).value, [rows, columns]); }
  }

  /** Permuting the heads of an adapter permutes the heads of the matrix it stands for; both fail alike. */
  lemma AdapterHeads(t: Adapter, nHead: nat, nHeadKv: Option<nat>)
    requires SharedA(t) && |t.B.lead| == 1
    ensures StandsFor(PermuteAdapter(t, nHead, nHeadKv), PermuteWeights(Product(t), nHead, nHeadKv))
  {
    var h := Heads(nHead, nHeadKv);
    if h > 0 {
      var shape: seq<int> := [h, 2, t.B.lead[0] / h / 2, t.A.last];
      ReshapeStandsFor(t, shape);
      if Reshape(t, shape).Ok? { SwapsBack(Reshape(t, shape).value, t.B.lead[0], t.A.last); }
    }
  }

  // ---------------------------------------------------------------------------------------------
  // Which row goes where
  // ---------------------------------------------------------------------------------------------

  const SWAP: seq<nat> := [0, 2, 1]

  lemma SwapIsPermutation()
    ensures IsPermutation(SWAP)
  {
    assert SWAP[0] == 0 && SWAP[1] == 2 && SWAP[2] == 1;
  }

  lemma Prod3(a: nat, b: nat, c: nat)
    ensures Prod([a, b, c]) == a * b * c
  {
    assert [a, b, c][..2] == [a, b] && [a, b][..1] == [a];
    ProdOne(a);
  }

  lemma Flat3(shape: seq<nat>, i: nat, j: nat, k: nat)
    requires |shape| == 3
    ensures Flat(shape, [i, j, k]) == (i * shape[1] + j) * shape[2] + k
  {
    var idx := [i, j, k];
    assert idx[..2] == [i, j] && idx[..2][..1] == [i] && shape[..2][..1] == shape[..1];
    assert Flat(shape[..1], [i]) == i by { assert [i][..0] == [] && shape[..1][..0] == []; }
    assert Flat(shape[..2], [i, j]) == i * shape[1] + j;
  }

  lemma SwapsShape(h: nat, d: nat)
    ensures IsPermutation(SWAP) && Pick(SWAP, [h, 2, d]) == [h, d, 2]
  {
    SwapIsPermutation();
  }

  lemma SwapsIndex(a: nat, j: nat, i: nat)
    ensures IsPermutation(SWAP) && Unpick(SWAP, [a, j, i]) == [a, i, j]
  {
    SwapIsPermutation();
    var back := Unpick(SWAP, [a, j, i]);
    assert back[SWAP[0]] == a && back[SWAP[1]] == j && back[SWAP[2]] == i;
  }

  lemma IndexOfRow(shape: seq<nat>, a: nat, j: nat, i: nat)
    requires |shape| == 3 && a < shape[0] && j < shape[1] && i < shape[2]
    ensures var p := (a * shape[1] + j) * shape[2] + i; p < Prod(shape) && Unflat(shape, p) == [a, j, i]
  {
    Flat3(shape, a, j, i);
    UnflatFlat(shape, [a, j, i]);
  }

  /** Row (a * d + j) * 2 + i of the result is row (a * 2 + i) * d + j: within head a, element j of half i. */
  lemma SourceOfRow(h: nat, d: nat, a: nat, j: nat, i: nat)
    requires a < h && j < d && i < 2
    ensures IsPermutation(SWAP) && Pick(SWAP, [h, 2, d]) == [h, d, 2]
    ensures (a * d + j) * 2 + i < Prod([h, d, 2])
    ensures RowSource([h, 2, d], SWAP, (a * d + j) * 2 + i) == (a * 2 + i) * d + j
  {
    SwapsShape(h, d);
    IndexOfRow([h, d, 2], a, j, i);
    SwapsIndex(a, j, i);
    Flat3([h, 2, d], a, i, j);
  }

  lemma Splits(x: Tensor, h: nat, d: nat)
    requires Wf(x) && |x.lead| == 1 && h > 0
    ensures var r := DenseReshape(x, [h, 2, d, x.last]);
            if x.lead[0] == h * 2 * d then r == Ok(Tensor([h, 2, d], x.last, x.rows)) && Wf(r.value)
                else r == Err(RuntimeFailed)
  {
    var shape: seq<int> := [h, 2, d, x.last];
    ProdOne(x.lead[0]);
    Prod3(h, 2, d);
    assert AsNats(shape[..3]) == [h, 2, d];
  }

  lemma JoinsAgain(x: Tensor, n: nat)
    requires Wf(x) && |x.rows| == n
    ensures DenseReshape(x, [n, x.last]) == Ok(Tensor([n], x.last, x.rows))
  {
    var shape: seq<int> := [n, x.last];
    ProdOne(n);
    assert AsNats(shape[..1]) == [n];
  }

  const AXES: seq<nat> := [0, 2, 1, 3]

  lemma AxesArePermutation()
    ensures IsPermutation(AXES) && AXES[..3] == SWAP
  {
    assert AXES[0] == 0 && AXES[1] == 2 && AXES[2] == 1 && AXES[3] == 3;
  }

  lemma AxesFromFront()
    ensures Normalized([0, 2, 1, 3], 4) == [-4, -2, -3, -1]
    ensures FromFront([-4, -2, -3, -1], 4) == AXES
  {
  }

  lemma SwapsAxes(t: Tensor)
    requires Wf(t) && |t.lead| == 3
    ensures IsPermutation(SWAP) && DenseSwap(t) == Ok(Permuted(t, SWAP))
  {
    SwapIsPermutation();
    AxesFromFront();
    AxesArePermutation();
  }

  /** The permutation is defined exactly if the rows divide into heads of two halves; then the rows are those of the
      matrix, each half of a head interleaved with the other. */
  lemma HeadsInterleave(x: Tensor, nHead: nat, nHeadKv: Option<nat>)
    requires Wf(x) && |x.lead| == 1
    ensures var h := if nHeadKv.Some? then nHeadKv.value else nHead;
            var r := PermuteWeights(x, nHead, nHeadKv);
            && (r.Ok? <==> h > 0 && x.lead[0] == h * 2 * (x.lead[0] / h / 2))
            && (r.Ok? ==>
                  Wf(r.value) && r.value.Shape() == x.Shape()
                  && InterleavedRows(x.rows, r.value.rows, h, x.lead[0] / h / 2))
  {
    var h := Heads(nHead, nHeadKv);
    if h > 0 {
      var d := x.lead[0] / h / 2;
      Splits(x, h, d);
      if x.lead[0] == h * 2 * d {
        var split := Tensor([h, 2, d], x.last, x.rows);
        SwapsAxes(split);
        ProdOne(x.lead[0]);
        SwapRows(split, h, d);
        JoinsAgain(Permuted(split, SWAP), x.lead[0]);
      }
    }
  }

  predicate InterleavedRows(from: seq<Row>, to: seq<Row>, h: nat, d: nat) {
    && |from| == |to| == h * 2 * d
    && forall a: nat, j: nat, i: nat :: a < h && j < d && i < 2 ==> InterleavedRow(from, to, d, a, j, i)
  }

  predicate InterleavedRow(from: seq<Row>, to: seq<Row>, d: nat, a: nat, j: nat, i: nat) {
    var p, q := (a * d + j) * 2 + i, (a * 2 + i) * d + j;
    p < |to| && q < |from| && to[p] == from[q]
  }

  lemma SwapRows(split: Tensor, h: nat, d: nat)
    requires Wf(split) && split.lead == [h, 2, d]
    ensures IsPermutation(SWAP) && InterleavedRows(split.rows, Permuted(split, SWAP).rows, h, d)
  {
    SwapIsPermutation();
    var r := Permuted(split, SWAP);
    assert Pick(SWAP, [h, 2, d]) == [h, d, 2];
    Prod3(h, 2, d);
    Prod3(h, d, 2);
    assert h * 2 * d == h * d * 2;
    forall a: nat, j: nat, i: nat | a < h && j < d && i < 2 ensures InterleavedRow(split.rows, r.rows, d, a, j, i) {
      SourceOfRow(h, d, a, j, i);
      SourceInRange(split.lead, SWAP, (a * d + j) * 2 + i);
      assert r.rows[(a * d + j) * 2 + i] == RowFrom(split, SWAP, (a * d + j) * 2 + i);
    }
  }

  /** The interleaving is a bijection on the rows: every row of the matrix appears exactly once. */
  lemma HeadsBijective(h: nat, d: nat, q: nat) returns (p: nat)
    requires q < h * 2 * d
    ensures IsPermutation(SWAP) && Prod(Pick(SWAP, [h, 2, d])) == h * 2 * d
    ensures p < h * 2 * d && RowSource([h, 2, d], SWAP, p) == q
    ensures forall p': nat :: p' < h * 2 * d && RowSource([h, 2, d], SWAP, p') == q ==> p' == p
  {
    SwapIsPermutation();
    assert Pick(SWAP, [h, 2, d]) == [h, d, 2];
    Prod3(h, 2, d);
    Prod3(h, d, 2);
    assert h * 2 * d == h * d * 2;
    p := SourceOnto([h, 2, d], SWAP, q);
    forall p': nat | p' < h * 2 * d && RowSource([h, 2, d], SWAP, p') == q ensures p' == p {
      SourceInjective([h, 2, d], SWAP, p, p');
    }
  }
}
