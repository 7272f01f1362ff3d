/**
 * The Gather operator of `src/ops/mod.rs`, which follows the Gather entry
 * of the ONNX Operators specification (`numpy.take` along one axis).
 */
module OpsGather {
  import opened Wrappers
  import opened Tensors
  import opened Ops

  /** The output shape: the indices' shape replaces dimension `axis`. */
  function GatherShape(inShape: seq<nat>, axis: nat, idxShape: seq<nat>): (r: seq<nat>)
    requires axis < |inShape|
    ensures |r| == |inShape| - 1 + |idxShape|
    ensures r[..axis] == inShape[..axis] && r[axis..axis + |idxShape|] == idxShape
    ensures r[axis + |idxShape|..] == inShape[axis + 1..]
  {
    inShape[..axis] + idxShape + inShape[axis + 1..]
  }

  /** Every entry of `indices` passes the range check against a dimension of size `size`. */
  predicate IndicesInRange(indices: Tensor<I32>, size: nat)
  {
    forall k :: 0 <= k < |indices.data| ==> 0 <= indices.data[k] < WrapI32(size)
  }

  /** The coordinates of output index `outIdx` that address the indices tensor. */
  function IndicesPart(axis: nat, indices: Tensor<I32>, outIdx: seq<nat>): seq<nat>
    requires axis + |indices.shape| <= |outIdx|
  {
    outIdx[axis..axis + |indices.shape|]
  }

  /** The input index that output index `outIdx` reads (the ONNX definition). */
  function TakeIndex(inShape: seq<nat>, axis: nat, indices: Tensor<I32>, outIdx: seq<nat>): (r: seq<nat>)
    requires axis < |inShape| && indices.WellFormed()
    requires InBounds(GatherShape(inShape, axis, indices.shape), outIdx)
    requires IndicesInRange(indices, inShape[axis])
    ensures InBounds(inShape, r)
    ensures forall d :: 0 <= d < axis ==> r[d] == outIdx[d]
    ensures r[axis] == At(indices, IndicesPart(axis, indices, outIdx))
    ensures forall e :: axis < e < |inShape| ==> r[e] == outIdx[e - 1 + |indices.shape|]
  {
    var n := |indices.shape|;
    var part := IndicesPart(axis, indices, outIdx);
    PartInBounds(inShape, axis, indices, outIdx);
    var v := At(indices, part);
    var r := outIdx[..axis] + [v as nat] + outIdx[axis + n..];
    GatherIndexInBounds(inShape, axis, indices, outIdx, r);
    r
  }

  /** The coordinates of an output index that address the indices tensor are in its bounds. */
  lemma PartInBounds(inShape: seq<nat>, axis: nat, indices: Tensor<I32>, outIdx: seq<nat>)
    requires axis < |inShape|
    requires InBounds(GatherShape(inShape, axis, indices.shape), outIdx)
    ensures InBounds(indices.shape, IndicesPart(axis, indices, outIdx))
  {
    var n := |indices.shape|;
    var part := IndicesPart(axis, indices, outIdx);
    var outShape := GatherShape(inShape, axis, indices.shape);
    forall d | 0 <= d < n ensures part[d] < indices.shape[d] {
      assert part[d] == outIdx[axis + d] && outShape[axis + d] == indices.shape[d];
    }
  }

  lemma GatherIndexInBounds(inShape: seq<nat>, axis: nat, indices: Tensor<I32>, outIdx: seq<nat>, r: seq<nat>)
    requires axis < |inShape| && indices.WellFormed()
    requires InBounds(GatherShape(inShape, axis, indices.shape), outIdx)
    requires IndicesInRange(indices, inShape[axis])
    requires InBounds(indices.shape, IndicesPart(axis, indices, outIdx))
    requires r == outIdx[..axis] + [At(indices, IndicesPart(axis, indices, outIdx)) as nat] + outIdx[axis + |indices.shape|..]
    ensures InBounds(inShape, r)
  {
    var n := |indices.shape|;
    var outShape := GatherShape(inShape, axis, indices.shape);
    var v := At(indices, IndicesPart(axis, indices, outIdx));
    assert 0 <= v < WrapI32(inShape[axis]);
    forall d | 0 <= d < |inShape| ensures r[d] < inShape[d] {
      if d < axis {
        assert r[d] == outIdx[d] && outShape[d] == inShape[d];
      } else if d > axis {
        assert r[d] == outIdx[d - 1 + n] && outShape[d - 1 + n] == inShape[d];
      }
    }
  }

  /** The element of the gathered tensor at `outIdx`; `zero` outside the output. */
  function GatherAt<T>(input: Tensor<T>, axis: nat, indices: Tensor<I32>, zero: T, outIdx: seq<nat>): T
    requires input.WellFormed() && indices.WellFormed() && axis < |input.shape|
    requires IndicesInRange(indices, input.shape[axis])
  {
    if InBounds(GatherShape(input.shape, axis, indices.shape), outIdx) then
      At(input, TakeIndex(input.shape, axis, indices, outIdx))
    else zero
  }

  /** What Gather evaluates to, following the ONNX definition. */
  function GatherSpec<T>(input: Tensor<T>, axis: nat, indices: Tensor<I32>, zero: T): (r: Tensor<T>)
    requires input.WellFormed() && indices.WellFormed() && axis < |input.shape|
    requires IndicesInRange(indices, input.shape[axis])
    ensures r.WellFormed() && r.shape == GatherShape(input.shape, axis, indices.shape)
  {
    var outShape := GatherShape(input.shape, axis, indices.shape);
    Tensor(outShape, Tabulate(outShape, idx => GatherAt(input, axis, indices, zero, idx)))
  }

  /**
   * The input dimension the source's index loop leaves alone when the
   * indices tensor is 0-D: its `else if` chain takes the `dim == axis` branch
   * at output dimension `axis`, so the copy into input dimension `axis + 1`
   * never happens; when `axis` is the last input dimension, the loop stops
   * before reaching it and `axis` itself is left alone.
   */
  function Skipped(axis: nat, rank: nat): nat
  {
    if axis + 1 < rank then axis + 1 else axis
  }

  /**
   * The input index the source holds after handling output index `outIdx`,
   * starting from the one it held before, `prev`: the gather's index, except
   * that with a 0-D indices tensor and a non-empty output index, dimension
   * `Skipped` keeps its previous value.
   */
  function NextIndex(inShape: seq<nat>, axis: nat, indices: Tensor<I32>, outIdx: seq<nat>, prev: seq<nat>): (r: seq<nat>)
    requires axis < |inShape| && indices.WellFormed() && |prev| == |inShape|
    requires InBounds(GatherShape(inShape, axis, indices.shape), outIdx)
    requires IndicesInRange(indices, inShape[axis])
    ensures |r| == |inShape|
  {
    var take := TakeIndex(inShape, axis, indices, outIdx);
    if |indices.shape| == 0 && |outIdx| > 0 then take[Skipped(axis, |inShape|) := prev[Skipped(axis, |inShape|)]]
    else take
  }

  /**
   * The input index the source reads for output index `outIdx`. The entry
   * left alone is still the 0 the index was created with, so it is the
   * gather's index with that entry 0. Only with a 0-D indices tensor and an
   * input of rank 2 or more does it differ from the gather's.
   */
  function ReadIndex(inShape: seq<nat>, axis: nat, indices: Tensor<I32>, outIdx: seq<nat>): (r: seq<nat>)
    requires axis < |inShape| && indices.WellFormed()
    requires InBounds(GatherShape(inShape, axis, indices.shape), outIdx)
    requires IndicesInRange(indices, inShape[axis])
    ensures InBounds(inShape, r)
    ensures |indices.shape| > 0 || |inShape| == 1 ==> r == TakeIndex(inShape, axis, indices, outIdx)
    ensures |indices.shape| == 0 && |inShape| > 1 ==> r == TakeIndex(inShape, axis, indices, outIdx)[Skipped(axis, |inShape|) := 0]
  {
    SkippedInShape(inShape, axis, indices, outIdx);
    NextIndex(inShape, axis, indices, outIdx, seq(|inShape|, _ => 0))
  }

  /** The dimension left alone has room for the 0 it keeps. */
  lemma SkippedInShape(inShape: seq<nat>, axis: nat, indices: Tensor<I32>, outIdx: seq<nat>)
    requires axis < |inShape| && indices.WellFormed()
    requires InBounds(GatherShape(inShape, axis, indices.shape), outIdx)
    requires IndicesInRange(indices, inShape[axis])
    ensures |indices.shape| == 0 && |outIdx| > 0 ==> 0 < inShape[Skipped(axis, |inShape|)]
  {
    var u := Skipped(axis, |inShape|);
    if |indices.shape| == 0 && |outIdx| > 0 {
      if u == axis {
        assert 0 <= indices.data[0] < WrapI32(inShape[axis]);
      } else {
        assert outIdx[axis] < GatherShape(inShape, axis, indices.shape)[axis] == inShape[u];
      }
    }
  }

  /**
   * The source's loop for one output index: an empty output index (a 0-D
   * gather from a vector) stores the scalar index at `axis`; otherwise each
   * output dimension writes one input dimension through the `if / else if /
   * else if` chain. The input index is kept from one output index to the
   * next.
   */
  method InputIndex(inShape: seq<nat>, axis: nat, indices: Tensor<I32>, outIdx: seq<nat>, inIndex: seq<nat>)
    returns (r: seq<nat>)
    requires axis < |inShape| && indices.WellFormed() && |inIndex| == |inShape|
    requires InBounds(GatherShape(inShape, axis, indices.shape), outIdx)
    requires IndicesInRange(indices, inShape[axis])
    ensures r == NextIndex(inShape, axis, indices, outIdx, inIndex)
  {
    var n := |indices.shape|;
    r := inIndex;
    if |outIdx| == 0 {
      r := r[axis := AsUsize(Item(indices).UnwrapOr(0))];
      ScalarIntoVector(inShape, axis, indices, outIdx, inIndex, r);
      return;
    }
    PartInBounds(inShape, axis, indices, outIdx);
    ghost var v := AsUsize(At(indices, IndicesPart(axis, indices, outIdx)));
    var dim := 0;
    while dim < |outIdx|
      invariant 0 <= dim <= |outIdx| && |r| == |inShape|
      invariant forall e :: 0 <= e < |r| ==> r[e] == if Written(e, dim, axis, n) then Target(e, axis, n, outIdx, v) else inIndex[e]
    {
      ghost var before := r;
      if dim < axis {
        r := r[dim := outIdx[dim]];
        KeepsWritten(before, r, outIdx, inIndex, v, dim, axis, n, dim);
      } else if dim == axis {
        var index := At(indices, IndicesPart(axis, indices, outIdx));
        r := r[dim := AsUsize(index)];
        KeepsWritten(before, r, outIdx, inIndex, v, dim, axis, n, axis);
      } else if dim >= axis + n {
        r := r[dim + 1 - n := outIdx[dim]];
        KeepsWritten(before, r, outIdx, inIndex, v, dim, axis, n, dim + 1 - n);
      } else {
        KeepsWritten(before, r, outIdx, inIndex, v, dim, axis, n, -1);
      }
      dim := dim + 1;
    }
    LoopDone(inShape, axis, indices, outIdx, inIndex, r);
  }

  /** A 0-D gather from a vector: storing the scalar index at `axis` gives the gather's index. */
  lemma ScalarIntoVector(inShape: seq<nat>, axis: nat, indices: Tensor<I32>, outIdx: seq<nat>, inIndex: seq<nat>, r: seq<nat>)
    requires axis < |inShape| && indices.WellFormed() && |inIndex| == |inShape|
    requires InBounds(GatherShape(inShape, axis, indices.shape), outIdx)
    requires IndicesInRange(indices, inShape[axis])
    requires |outIdx| == 0 && r == inIndex[axis := AsUsize(Item(indices).UnwrapOr(0))]
    ensures r == NextIndex(inShape, axis, indices, outIdx, inIndex)
  {
    var take := TakeIndex(inShape, axis, indices, outIdx);
    assert |indices.shape| == 0 && |inShape| == 1 && axis == 0;
    assert IndicesPart(axis, indices, outIdx) == [];
    assert take[0] == indices.data[0];
  }

  /** After the loop, every dimension written holds the gather's index and the others their previous value. */
  lemma LoopDone(inShape: seq<nat>, axis: nat, indices: Tensor<I32>, outIdx: seq<nat>, inIndex: seq<nat>, r: seq<nat>)
    requires axis < |inShape| && indices.WellFormed() && |inIndex| == |inShape| == |r|
    requires InBounds(GatherShape(inShape, axis, indices.shape), outIdx)
    requires IndicesInRange(indices, inShape[axis])
    requires InBounds(indices.shape, IndicesPart(axis, indices, outIdx)) && |outIdx| > 0
    requires forall e :: 0 <= e < |r| ==>
      r[e] == (if Written(e, |outIdx|, axis, |indices.shape|)
               then Target(e, axis, |indices.shape|, outIdx, AsUsize(At(indices, IndicesPart(axis, indices, outIdx))))
               else inIndex[e])
    ensures r == NextIndex(inShape, axis, indices, outIdx, inIndex)
  {
    var take := TakeIndex(inShape, axis, indices, outIdx);
    var v := AsUsize(At(indices, IndicesPart(axis, indices, outIdx)));
    forall e | 0 <= e < |r|
      ensures r[e] == NextIndex(inShape, axis, indices, outIdx, inIndex)[e]
    {
      FinalWritten(e, axis, |inShape|, |indices.shape|);
      assert Written(e, |outIdx|, axis, |indices.shape|) ==> Target(e, axis, |indices.shape|, outIdx, v) == take[e];
    }
  }

  /**
   * The value the loop writes into input dimension `e`: the output
   * coordinate before `axis`, the index `v` at `axis`, and the output
   * coordinate one block further on after it.
   */
  function Target(e: nat, axis: nat, n: nat, outIdx: seq<nat>, v: nat): nat
  {
    if e < axis then (if e < |outIdx| then outIdx[e] else 0)
    else if e == axis then v
    else if e - 1 + n < |outIdx| then outIdx[e - 1 + n] else 0
  }

  /** The input dimension that output dimension `dim` writes, or -1 when it writes none. */
  function WritePos(dim: nat, axis: nat, n: nat): int
  {
    if dim < axis then dim
    else if dim == axis then axis
    else if dim >= axis + n then dim + 1 - n
    else -1
  }

  /** Whether input dimension `e` has been written once the output dimensions below `dim` are done. */
  predicate Written(e: nat, dim: nat, axis: nat, n: nat)
  {
    if e < axis then e < dim
    else if e == axis then dim > axis
    else e + n <= dim && !(n == 0 && e == axis + 1)
  }

  /** Writing the right value at `WritePos` extends what is written by one step. */
  lemma KeepsWritten(before: seq<nat>, after: seq<nat>, outIdx: seq<nat>, prev: seq<nat>, v: nat, dim: nat, axis: nat, n: nat, p: int)
    requires |before| == |prev| && p == WritePos(dim, axis, n) && p < |before| && dim < |outIdx|
    requires forall e :: 0 <= e < |before| ==> before[e] == if Written(e, dim, axis, n) then Target(e, axis, n, outIdx, v) else prev[e]
    requires if 0 <= p then after == before[p := if p == axis then v else outIdx[dim]] else after == before
    ensures |after| == |prev|
    ensures forall e :: 0 <= e < |after| ==> after[e] == if Written(e, dim + 1, axis, n) then Target(e, axis, n, outIdx, v) else prev[e]
  {
  }

  /** Once every output dimension is done, every input dimension but `Skipped` of a 0-D gather is written. */
  lemma FinalWritten(e: nat, axis: nat, rank: nat, n: nat)
    requires axis < rank && e < rank && rank - 1 + n > 0
    ensures Written(e, rank - 1 + n, axis, n) <==> !(n == 0 && e == Skipped(axis, rank))
  {
  }

  /** The element of the source's output at `outIdx`; `zero` outside the output. */
  function GatherAsWrittenAt<T>(input: Tensor<T>, axis: nat, indices: Tensor<I32>, zero: T, outIdx: seq<nat>): T
    requires input.WellFormed() && indices.WellFormed() && axis < |input.shape|
    requires IndicesInRange(indices, input.shape[axis])
  {
    if InBounds(GatherShape(input.shape, axis, indices.shape), outIdx) then
      At(input, ReadIndex(input.shape, axis, indices, outIdx))
    else zero
  }

  /** What `gather` evaluates to as written. */
  function GatherAsWritten<T>(input: Tensor<T>, axis: nat, indices: Tensor<I32>, zero: T): (r: Tensor<T>)
    requires input.WellFormed() && indices.WellFormed() && axis < |input.shape|
    requires IndicesInRange(indices, input.shape[axis])
    ensures r.WellFormed() && r.shape == GatherShape(input.shape, axis, indices.shape)
  {
    var outShape := GatherShape(input.shape, axis, indices.shape);
    Tensor(outShape, Tabulate(outShape, idx => GatherAsWrittenAt(input, axis, indices, zero, idx)))
  }

  /**
   * With an indices tensor of rank 1 or more, or a vector input, the
   * source's gather is the ONNX one.
   */
  lemma GatherAgrees<T>(input: Tensor<T>, axis: nat, indices: Tensor<I32>, zero: T)
    requires input.WellFormed() && indices.WellFormed() && axis < |input.shape|
    requires IndicesInRange(indices, input.shape[axis])
    requires |indices.shape| > 0 || |input.shape| == 1
    ensures GatherAsWritten(input, axis, indices, zero) == GatherSpec(input, axis, indices, zero)
  {
    var outShape := GatherShape(input.shape, axis, indices.shape);
    var written, spec := GatherAsWritten(input, axis, indices, zero).data, GatherSpec(input, axis, indices, zero).data;
    forall k | 0 <= k < |written| ensures written[k] == spec[k] {
      assert InBounds(outShape, Unravel(outShape, k));
    }
  }

  /** The first `k` output elements are the gathered ones. */
  ghost predicate Gathered<T>(s: seq<T>, k: nat, input: Tensor<T>, axis: nat, indices: Tensor<I32>, zero: T)
    requires input.WellFormed() && indices.WellFormed() && axis < |input.shape|
    requires IndicesInRange(indices, input.shape[axis])
  {
    var outShape := GatherShape(input.shape, axis, indices.shape);
    k <= |s| == Product(outShape) &&
    forall j :: 0 <= j < k ==> s[j] == GatherAsWrittenAt(input, axis, indices, zero, Unravel(outShape, j))
  }

  lemma GatheredStep<T>(before: seq<T>, after: seq<T>, k: nat, input: Tensor<T>, axis: nat, indices: Tensor<I32>, zero: T)
    requires input.WellFormed() && indices.WellFormed() && axis < |input.shape|
    requires IndicesInRange(indices, input.shape[axis])
    requires Gathered(before, k, input, axis, indices, zero) && k < |before|
    requires after == before[k := At(input, ReadIndex(input.shape, axis, indices, Unravel(GatherShape(input.shape, axis, indices.shape), k)))]
    ensures Gathered(after, k + 1, input, axis, indices, zero)
  {
  }

  lemma GatheredAll<T>(s: seq<T>, input: Tensor<T>, axis: nat, indices: Tensor<I32>, zero: T)
    requires input.WellFormed() && indices.WellFormed() && axis < |input.shape|
    requires IndicesInRange(indices, input.shape[axis])
    requires Gathered(s, |s|, input, axis, indices, zero)
    ensures s == GatherAsWritten(input, axis, indices, zero).data
  {
  }

  /** Whether the range check rejects some entry of `indices`. */
  method CheckIndices(indices: Tensor<I32>, size: nat) returns (ok: bool)
    ensures ok <==> IndicesInRange(indices, size)
  {
    var k := 0;
    while k < |indices.data|
      invariant 0 <= k <= |indices.data|
      invariant forall j :: 0 <= j < k ==> 0 <= indices.data[j] < WrapI32(size)
    {
      var index := indices.data[k];
      if index < 0 || index >= WrapI32(size) {
        return false;
      }
      k := k + 1;
    }
    return true;
  }

  /**
   * `gather` along `axis`: the range errors first, then one output element
   * per output index in row-major order, read at the input index the loop
   * builds, which it keeps from one output index to the next. `zero` is the
   * element type's default value, with which the output is first filled.
   */
  method Gather<T>(input: Tensor<T>, axis: nat, indices: Tensor<I32>, zero: T) returns (r: Result<Tensor<T>, OpError>)
    requires input.WellFormed() && indices.WellFormed()
    ensures axis >= |input.shape| ==> r == Err(InvalidValue("`axis` is out of range"))
    ensures axis < |input.shape| && !IndicesInRange(indices, input.shape[axis]) ==>
      r == Err(InvalidValue("Entry in `indices` is out of range"))
    ensures r.Ok? <==> axis < |input.shape| && IndicesInRange(indices, input.shape[axis])
    ensures r.Ok? ==> r.value == GatherAsWritten(input, axis, indices, zero)
  {
    if axis >= |input.shape| {
      return Err(InvalidValue("`axis` is out of range"));
    }
    var inRange := CheckIndices(indices, input.shape[axis]);
    if !inRange {
      return Err(InvalidValue("Entry in `indices` is out of range"));
    }
    var outShape := GatherShape(input.shape, axis, indices.shape);
    var len := Product(outShape);
    var output := new T[len](_ => zero);
    var inIndex := seq(|input.shape|, _ => 0);
    ghost var u := Skipped(axis, |input.shape|);
    var k := 0;
    while k < len
      invariant 0 <= k <= len && |inIndex| == |input.shape|
      invariant |indices.shape| == 0 && |outShape| > 0 ==> inIndex[u] == 0
      invariant Gathered(output[..], k, input, axis, indices, zero)
    {
      var outIdx := Unravel(outShape, k);
      inIndex := InputIndex(input.shape, axis, indices, outIdx, inIndex);
      assert inIndex == ReadIndex(input.shape, axis, indices, outIdx);
      ghost var before := output[..];
      output[k] := input.data[Offset(input.shape, inIndex)];
      GatheredStep(before, output[..], k, input, axis, indices, zero);
      k := k + 1;
    }
    GatheredAll(output[..], input, axis, indices, zero);
    return Ok(Tensor(outShape, output[..]));
  }

  /** Gather::run: a missing input, non-int indices, then the gather on either kind. */
  method GatherRun(axis: nat, inputs: seq<Input>) returns (r: Result<Output, OpError>)
    requires WellFormedInputs(inputs)
    ensures |inputs| == 0 ==> r == Err(MissingInputs)
    ensures |inputs| == 1 ==> r == Err(MissingInputs)
    ensures |inputs| >= 2 && !inputs[1].IntTensor? ==> r == Err(UnsupportedInputType)
    ensures r.Ok? <==> (|inputs| >= 2 && inputs[1].IntTensor? && axis < |inputs[0].Shape()| &&
                        IndicesInRange(inputs[1].i, inputs[0].Shape()[axis]))
    ensures r.Ok? ==> r.value.FloatTensor? == inputs[0].FloatTensor?
    ensures r.Ok? && inputs[0].FloatTensor? ==> r.value.f == GatherAsWritten(inputs[0].f, axis, inputs[1].i, Num(0.0))
    ensures r.Ok? && inputs[0].IntTensor? ==> r.value.i == GatherAsWritten(inputs[0].i, axis, inputs[1].i, 0)
  {
    if |inputs| == 0 {
      return Err(MissingInputs);
    }
    var indices :- GetInputAsInt(inputs, 1);
    match inputs[0]
    case IntTensor(t) =>
      var g :- Gather(t, axis, indices, 0);
      return Ok(Output.IntTensor(g));
    case FloatTensor(t) =>
      var g :- Gather(t, axis, indices, Num(0.0));
      return Ok(Output.FloatTensor(g));
  }

  /** Row-major positions in a 2 x 2 tensor. */
  lemma Offset2x2(i: nat, j: nat)
    requires i < 2 && j < 2
    ensures InBounds([2, 2], [i, j]) && Offset([2, 2], [i, j]) == 2 * i + j
  {
    assert [2, 2][1..] == [2] && [2][1..] == [];
    assert [i, j][1..] == [j] && [j][1..] == [];
  }

  /** The positions of a 2-element vector. */
  lemma Unravel2(k: nat)
    requires k < 2
    ensures Product([2]) == 2 && Unravel([2], k) == [k]
  {
    assert [2][1..] == [] && [k][1..] == [];
    assert Offset([2], [k]) == k;
    UnravelOffset([2], [k]);
  }

  /**
   * With a 0-D indices tensor and an input of rank 2 the dimension after
   * `axis` is never written and stays 0: for input [[1, 2], [3, 4]], axis 0
   * and index 1 the source reads element [1, 0] for both output positions,
   * giving [3, 3] where the gather is [3, 4].
   */
  lemma ScalarIndexSkipsDimension()
    ensures GatherAsWritten(Tensor([2, 2], [1, 2, 3, 4]), 0, Scalar(1), 0).data == [3, 3]
  {
    var input := Tensor([2, 2], [1, 2, 3, 4]);
    var indices: Tensor<I32> := Scalar(1);
    assert IndicesInRange(indices, 2);
    var g := GatherAsWritten(input, 0, indices, 0).data;
    Unravel2(0);
    Unravel2(1);
    ScalarIndexStale(0);
    ScalarIndexStale(1);
    assert g[0] == GatherAsWrittenAt(input, 0, indices, 0, [0]);
    assert g[1] == GatherAsWrittenAt(input, 0, indices, 0, [1]);
  }

  /** In the example, the source reads input element [1, 0] at every output position. */
  lemma ScalarIndexStale(j: nat)
    requires j < 2
    ensures IndicesInRange(Scalar(1), 2)
    ensures GatherAsWrittenAt(Tensor([2, 2], [1, 2, 3, 4]), 0, Scalar(1), 0, [j]) == 3
  {
    var input := Tensor([2, 2], [1, 2, 3, 4]);
    ScalarTakeIndex(j);
    assert ReadIndex([2, 2], 0, Scalar(1), [j]) == [1, 0];
    assert At(input, [1, 0]) == 3 by {
      Offset2x2(1, 0);
    }
  }

  /** The intended gather of the same example reads [3, 4]. */
  lemma ScalarIndexGather()
    ensures GatherSpec(Tensor([2, 2], [1, 2, 3, 4]), 0, Scalar(1), 0).data == [3, 4]
  {
    var input := Tensor([2, 2], [1, 2, 3, 4]);
    var indices: Tensor<I32> := Scalar(1);
    assert IndicesInRange(indices, 2);
    var g := GatherSpec(input, 0, indices, 0).data;
    Unravel2(0);
    Unravel2(1);
    ScalarIndexRead(0);
    ScalarIndexRead(1);
    assert g[0] == GatherAt(input, 0, indices, 0, [0]);
    assert g[1] == GatherAt(input, 0, indices, 0, [1]);
  }

  /** In the example, output position `j` reads input element [1, j]. */
  lemma ScalarIndexRead(j: nat)
    requires j < 2
    ensures IndicesInRange(Scalar(1), 2)
    ensures GatherAt(Tensor([2, 2], [1, 2, 3, 4]), 0, Scalar(1), 0, [j]) == 3 + j
  {
    var input := Tensor([2, 2], [1, 2, 3, 4]);
    ScalarTakeIndex(j);
    assert At(input, [1, j]) == 3 + j by {
      Offset2x2(1, j);
    }
  }

  /** A scalar index 1 on axis 0 of a 2x2 input turns output index `[j]` into input index `[1, j]`. */
  lemma ScalarTakeIndex(j: nat)
    requires j < 2
    ensures IndicesInRange(Scalar(1), 2) && InBounds(GatherShape([2, 2], 0, []), [j])
    ensures TakeIndex([2, 2], 0, Scalar(1), [j]) == [1, j]
  {
    var indices: Tensor<I32> := Scalar(1);
    assert IndicesInRange(indices, 2);
    assert GatherShape([2, 2], 0, indices.shape) == [2];
    assert [j][0..0] == [];
    assert At(indices, []) == 1;
  }
}
