/**
 * ArgMax and ArgMin of `src/ops/reduce.rs`: for every lane along the
 * chosen axis, the position of its best element. The comparison hands NaN
 * the win, so a lane holding a NaN selects the first NaN.
 */
module OpsArgMax {
  import opened Wrappers
  import opened Tensors
  import opened Ops
  import opened Lanes
  import opened ReduceOrder
  import OpsReshape

  /**
   * Which of several equally good elements is selected: the last, as the
   * standard library's `max_by` called by the source does, or the first,
   * as ONNX ArgMax/ArgMin without `select_last_index` and numpy's
   * `argmax`/`argmin` do.
   */
  datatype TieRule = LastOfEqual | FirstOfEqual

  function BestIndex(s: seq<F32>, cmp: (F32, F32) -> Ordering, rule: TieRule): (r: nat)
    requires |s| > 0
    ensures r < |s|
  {
    match rule
    case LastOfEqual => MaxByIndex(s, cmp)
    case FirstOfEqual => FirstBestIndex(s, cmp)
  }

  /** The shape of the indices: the reduced axis becomes 1, and is dropped unless `keepDims`. */
  function SelectedShape(shape: seq<nat>, d: nat, keepDims: bool): (r: seq<nat>)
    requires d < |shape|
  {
    if keepDims then OuterShape(shape, d) else OpsReshape.Keep(OuterShape(shape, d), OpsReshape.AxisSet([d]))
  }

  /** One index per lane along `d`, lanes in row-major order of the other dimensions. */
  function SelectedIndices(input: Tensor<F32>, d: nat, cmp: (F32, F32) -> Ordering, rule: TieRule): (r: seq<I32>)
    requires input.WellFormed() && d < |input.shape| && input.shape[d] > 0
    ensures |r| == LaneCount(input.shape, d)
    ensures forall l :: 0 <= l < |r| ==> r[l] == LaneBest(input, d, l, cmp, rule)
  {
    seq(LaneCount(input.shape, d), l requires 0 <= l < LaneCount(input.shape, d) => LaneBest(input, d, l, cmp, rule))
  }

  /** The selected position in lane `l`, as the `i32` the output holds. */
  function LaneBest(input: Tensor<F32>, d: nat, l: nat, cmp: (F32, F32) -> Ordering, rule: TieRule): I32
    requires input.WellFormed() && d < |input.shape| && input.shape[d] > 0 && l < LaneCount(input.shape, d)
  {
    WrapI32(BestIndex(Lane(input, d, l), cmp, rule))
  }

  /** `select_max_index` as a value: an invalid axis and an empty axis are errors. */
  function SelectMaxIndexSpec(input: Tensor<F32>, axis: int, keepDims: bool, cmp: (F32, F32) -> Ordering, rule: TieRule): (r: Result<Tensor<I32>, OpError>)
    requires input.WellFormed()
  {
    var d :- ResolveAxis(|input.shape|, axis);
    if input.shape[d] == 0 then Err(InvalidValue("Cannot select index from empty sequence"))
    else Ok(Tensor(SelectedShape(input.shape, d, keepDims), SelectedIndices(input, d, cmp, rule)))
  }

  /** `select_max_index`: one pass over the lanes, then the squeeze of the reduced axis. */
  method SelectMaxIndex(input: Tensor<F32>, axis: int, keepDims: bool, cmp: (F32, F32) -> Ordering, rule: TieRule)
    returns (r: Result<Tensor<I32>, OpError>)
    requires input.WellFormed()
    ensures r == SelectMaxIndexSpec(input, axis, keepDims, cmp, rule)
  {
    var resolved := ResolveAxis(|input.shape|, axis);
    if resolved.Err? {
      return Err(resolved.error);
    }
    var d := resolved.value;
    if input.shape[d] == 0 {
      return Err(InvalidValue("Cannot select index from empty sequence"));
    }
    var data := LaneIndices(input, d, cmp, rule);
    var reduced := new MutableTensor(Tensor(OuterShape(input.shape, d), data));
    if !keepDims {
      ReducedAxisSqueezes(input.shape, d);
      var squeezed := OpsReshape.SqueezeInPlace(reduced, Some([d]));
      assert squeezed.Ok?;
    }
    return Ok(reduced.Value());
  }

  /** Squeezing the reduced axis, now of size 1, succeeds and gives the unkept shape. */
  lemma ReducedAxisSqueezes(shape: seq<nat>, d: nat)
    requires d < |shape|
    ensures OpsReshape.SqueezedShape(OuterShape(shape, d), Some([d])) == Ok(SelectedShape(shape, d, false))
  {
    var outer := OuterShape(shape, d);
    assert OpsReshape.SqueezeOnesShape(outer, Some([d])).Ok?;
    OpsReshape.SqueezeAgrees(outer, Some([d]));
    assert OpsReshape.AxisSet([d]) == {d};
    OpsReshape.KeepOnesProduct(outer, {d});
  }

  /** The loop over the lanes, skipped for an empty input (which has no lanes). */
  method LaneIndices(input: Tensor<F32>, d: nat, cmp: (F32, F32) -> Ordering, rule: TieRule) returns (data: seq<I32>)
    requires input.WellFormed() && d < |input.shape| && input.shape[d] > 0
    ensures data == SelectedIndices(input, d, cmp, rule)
  {
    if |input.data| > 0 {
      data := EachLane(input, d, lane => Choose(lane, cmp, rule));
      AllLanes(input, d, cmp, rule, data);
    } else {
      data := [];
      assert LaneCount(input.shape, d) == 0 by { LaneCountProduct(input.shape, d); }
    }
  }

  /** `pick` applied to every lane along `d`, in lane order. */
  method EachLane(input: Tensor<F32>, d: nat, pick: seq<F32> -> I32) returns (data: seq<I32>)
    requires input.WellFormed() && d < |input.shape|
    ensures |data| == LaneCount(input.shape, d)
    ensures forall l :: 0 <= l < |data| ==> data[l] == pick(Lane(input, d, l))
  {
    var count := LaneCount(input.shape, d);
    data := [];
    var l := 0;
    while l < count
      invariant 0 <= l <= count && |data| == l
      invariant forall i :: 0 <= i < l ==> data[i] == pick(Lane(input, d, i))
    {
      data := data + [pick(Lane(input, d, l))];
      l := l + 1;
    }
  }

  /** The selected position of a lane as the `i32` the output holds (a lane is never empty here). */
  function Choose(lane: seq<F32>, cmp: (F32, F32) -> Ordering, rule: TieRule): I32
  {
    if |lane| == 0 then 0 else WrapI32(BestIndex(lane, cmp, rule))
  }

  /** Choosing in every lane, lane by lane, gives the selection. */
  lemma AllLanes(input: Tensor<F32>, d: nat, cmp: (F32, F32) -> Ordering, rule: TieRule, data: seq<I32>)
    requires input.WellFormed() && d < |input.shape| && input.shape[d] > 0
    requires |data| == LaneCount(input.shape, d)
    requires forall l :: 0 <= l < |data| ==> data[l] == (lane => Choose(lane, cmp, rule))(Lane(input, d, l))
    ensures data == SelectedIndices(input, d, cmp, rule)
  {
  }

  // ---------------------------------------------------------------------
  // What the selection means

  /** `Keep` with one removed position drops exactly that dimension. */
  lemma {:induction false} KeepOne(shape: seq<nat>, d: nat)
    requires d < |shape|
    ensures OpsReshape.Keep(shape, {d}) == shape[..d] + shape[d + 1..]
  {
    var n := |shape| - 1;
    assert shape[..n + 1] == shape;
    if d == n {
      KeepNone(shape[..n], d);
      assert shape[d + 1..] == [];
    } else {
      KeepOne(shape[..n], d);
      assert shape[..n][..d] == shape[..d];
      assert shape[d + 1..] == shape[..n][d + 1..] + [shape[n]];
    }
  }

  lemma {:induction false} KeepNone(shape: seq<nat>, d: nat)
    requires |shape| <= d
    ensures OpsReshape.Keep(shape, {d}) == shape
  {
    if |shape| > 0 {
      var n := |shape| - 1;
      KeepNone(shape[..n], d);
      assert shape == shape[..n] + [shape[n]];
    }
  }

  /**
   * The indices tensor is well formed; it has the input's shape with the
   * reduced axis set to 1 (kept) or removed (not kept), and its data does
   * not depend on `keepDims`.
   */
  lemma SelectedShapeIsReduced(input: Tensor<F32>, axis: int, keepDims: bool, cmp: (F32, F32) -> Ordering, rule: TieRule)
    requires input.WellFormed()
    requires SelectMaxIndexSpec(input, axis, keepDims, cmp, rule).Ok?
    ensures var d := ResolveAxis(|input.shape|, axis).value;
      var out := SelectMaxIndexSpec(input, axis, keepDims, cmp, rule).value;
      out.WellFormed() &&
      out.shape == (if keepDims then input.shape[d := 1] else input.shape[..d] + input.shape[d + 1..]) &&
      out.data == SelectMaxIndexSpec(input, axis, !keepDims, cmp, rule).value.data
  {
    var d := ResolveAxis(|input.shape|, axis).value;
    var outer := OuterShape(input.shape, d);
    assert OpsReshape.AxisSet([d]) == {d};
    KeepOne(outer, d);
    assert outer[..d] == input.shape[..d] && outer[d + 1..] == input.shape[d + 1..];
    OpsReshape.KeepOnesProduct(outer, {d});
  }

  /** `r` is where the source's ArgMax points: the first NaN, or else the last of the largest values. */
  predicate ArgMaxOf(s: seq<F32>, r: int)
  {
    0 <= r < |s| && (if HasNaN(s) then FirstNaN(s, r) else LastMax(s, r))
  }

  /** `r` is where the source's ArgMin points: the first NaN, or else the last of the smallest values. */
  predicate ArgMinOf(s: seq<F32>, r: int)
  {
    0 <= r < |s| && (if HasNaN(s) then FirstNaN(s, r) else LastMin(s, r))
  }

  /** `r` is where ONNX ArgMax points: the first NaN, or else the first of the largest values. */
  predicate FirstArgMaxOf(s: seq<F32>, r: int)
  {
    0 <= r < |s| && (if HasNaN(s) then FirstNaN(s, r) else FirstMax(s, r))
  }

  /** `r` is where ONNX ArgMin points: the first NaN, or else the first of the smallest values. */
  predicate FirstArgMinOf(s: seq<F32>, r: int)
  {
    0 <= r < |s| && (if HasNaN(s) then FirstNaN(s, r) else FirstMin(s, r))
  }

  /** Every element of ArgMax's output is the source's ArgMax of its lane (for axes that fit in an `i32`). */
  lemma ArgMaxSelects(input: Tensor<F32>, axis: int, keepDims: bool)
    requires input.WellFormed()
    requires SelectMaxIndexSpec(input, axis, keepDims, CmpNanGreater, LastOfEqual).Ok?
    ensures var d := ResolveAxis(|input.shape|, axis).value;
      var out := SelectMaxIndexSpec(input, axis, keepDims, CmpNanGreater, LastOfEqual).value;
      input.shape[d] <= MaxI32 + 1 ==>
        |out.data| == LaneCount(input.shape, d) &&
        forall l :: 0 <= l < |out.data| ==> ArgMaxOf(Lane(input, d, l), out.data[l])
  {
    var d := ResolveAxis(|input.shape|, axis).value;
    var out := SelectMaxIndexSpec(input, axis, keepDims, CmpNanGreater, LastOfEqual).value;
    assert out.data == SelectedIndices(input, d, CmpNanGreater, LastOfEqual);
    if input.shape[d] <= MaxI32 + 1 {
      forall l | 0 <= l < |out.data|
        ensures ArgMaxOf(Lane(input, d, l), out.data[l])
      {
        var lane := Lane(input, d, l);
        ArgMaxChoice(lane);
        var j := MaxByIndex(lane, CmpNanGreater);
        assert out.data[l] == WrapI32(j) == j;
      }
    }
  }

  /** Every element of ArgMin's output is the source's ArgMin of its lane (for axes that fit in an `i32`). */
  lemma ArgMinSelects(input: Tensor<F32>, axis: int, keepDims: bool)
    requires input.WellFormed()
    requires SelectMaxIndexSpec(input, axis, keepDims, ArgMinCmp, LastOfEqual).Ok?
    ensures var d := ResolveAxis(|input.shape|, axis).value;
      var out := SelectMaxIndexSpec(input, axis, keepDims, ArgMinCmp, LastOfEqual).value;
      input.shape[d] <= MaxI32 + 1 ==>
        |out.data| == LaneCount(input.shape, d) &&
        forall l :: 0 <= l < |out.data| ==> ArgMinOf(Lane(input, d, l), out.data[l])
  {
    var d := ResolveAxis(|input.shape|, axis).value;
    var out := SelectMaxIndexSpec(input, axis, keepDims, ArgMinCmp, LastOfEqual).value;
    assert out.data == SelectedIndices(input, d, ArgMinCmp, LastOfEqual);
    if input.shape[d] <= MaxI32 + 1 {
      forall l | 0 <= l < |out.data|
        ensures ArgMinOf(Lane(input, d, l), out.data[l])
      {
        var lane := Lane(input, d, l);
        ArgMinChoice(lane);
        var j := MaxByIndex(lane, ArgMinCmp);
        assert out.data[l] == WrapI32(j) == j;
      }
    }
  }

  /** With the first of equal elements, every element of the output is ONNX ArgMax of its lane. */
  lemma FirstArgMaxSelects(input: Tensor<F32>, axis: int, keepDims: bool)
    requires input.WellFormed()
    requires SelectMaxIndexSpec(input, axis, keepDims, CmpNanGreater, FirstOfEqual).Ok?
    ensures var d := ResolveAxis(|input.shape|, axis).value;
      var out := SelectMaxIndexSpec(input, axis, keepDims, CmpNanGreater, FirstOfEqual).value;
      input.shape[d] <= MaxI32 + 1 ==>
        |out.data| == LaneCount(input.shape, d) &&
        forall l :: 0 <= l < |out.data| ==> FirstArgMaxOf(Lane(input, d, l), out.data[l])
  {
    var d := ResolveAxis(|input.shape|, axis).value;
    var out := SelectMaxIndexSpec(input, axis, keepDims, CmpNanGreater, FirstOfEqual).value;
    assert out.data == SelectedIndices(input, d, CmpNanGreater, FirstOfEqual);
    if input.shape[d] <= MaxI32 + 1 {
      forall l | 0 <= l < |out.data|
        ensures FirstArgMaxOf(Lane(input, d, l), out.data[l])
      {
        var lane := Lane(input, d, l);
        FirstArgMaxChoice(lane);
        var j := FirstBestIndex(lane, CmpNanGreater);
        assert out.data[l] == WrapI32(j) == j;
      }
    }
  }

  /** With the first of equal elements, every element of the output is ONNX ArgMin of its lane. */
  lemma FirstArgMinSelects(input: Tensor<F32>, axis: int, keepDims: bool)
    requires input.WellFormed()
    requires SelectMaxIndexSpec(input, axis, keepDims, ArgMinCmp, FirstOfEqual).Ok?
    ensures var d := ResolveAxis(|input.shape|, axis).value;
      var out := SelectMaxIndexSpec(input, axis, keepDims, ArgMinCmp, FirstOfEqual).value;
      input.shape[d] <= MaxI32 + 1 ==>
        |out.data| == LaneCount(input.shape, d) &&
        forall l :: 0 <= l < |out.data| ==> FirstArgMinOf(Lane(input, d, l), out.data[l])
  {
    var d := ResolveAxis(|input.shape|, axis).value;
    var out := SelectMaxIndexSpec(input, axis, keepDims, ArgMinCmp, FirstOfEqual).value;
    assert out.data == SelectedIndices(input, d, ArgMinCmp, FirstOfEqual);
    if input.shape[d] <= MaxI32 + 1 {
      forall l | 0 <= l < |out.data|
        ensures FirstArgMinOf(Lane(input, d, l), out.data[l])
      {
        var lane := Lane(input, d, l);
        FirstArgMinChoice(lane);
        var j := FirstBestIndex(lane, ArgMinCmp);
        assert out.data[l] == WrapI32(j) == j;
      }
    }
  }

  /** The selection fails exactly for an invalid axis or an empty reduced axis. */
  lemma SelectMaxIndexErrors(input: Tensor<F32>, axis: int, keepDims: bool, cmp: (F32, F32) -> Ordering, rule: TieRule)
    requires input.WellFormed()
    ensures var r := SelectMaxIndexSpec(input, axis, keepDims, cmp, rule);
      (r.Err? <==> !(-|input.shape| <= axis < |input.shape|) || input.shape[ResolveAxis(|input.shape|, axis).value] == 0) &&
      (!(-|input.shape| <= axis < |input.shape|) ==> r == Err(InvalidValue("Axis is invalid")))
  {
  }

  // ---------------------------------------------------------------------
  // The operators

  /** ArgMax::run: the float input 0, reduced along `axis`. */
  method ArgMaxRun(axis: int, keepDims: bool, inputs: seq<Input>) returns (r: Result<Output, OpError>)
    requires WellFormedInputs(inputs)
    ensures GetInputAsFloat(inputs, 0).Err? ==> r == Err(GetInputAsFloat(inputs, 0).error)
    ensures GetInputAsFloat(inputs, 0).Ok? ==>
      r == match SelectMaxIndexSpec(GetInputAsFloat(inputs, 0).value, axis, keepDims, CmpNanGreater, LastOfEqual)
        case Ok(t) => Ok(Output.IntTensor(t))
        case Err(e) => Err(e)
  {
    var input :- GetInputAsFloat(inputs, 0);
    assert InputWellFormed(inputs[0]);
    var out :- SelectMaxIndex(input, axis, keepDims, CmpNanGreater, LastOfEqual);
    return Ok(Output.IntTensor(out));
  }

  /** ArgMin::run: the float input 0, reduced along `axis`. */
  method ArgMinRun(axis: int, keepDims: bool, inputs: seq<Input>) returns (r: Result<Output, OpError>)
    requires WellFormedInputs(inputs)
    ensures GetInputAsFloat(inputs, 0).Err? ==> r == Err(GetInputAsFloat(inputs, 0).error)
    ensures GetInputAsFloat(inputs, 0).Ok? ==>
      r == match SelectMaxIndexSpec(GetInputAsFloat(inputs, 0).value, axis, keepDims, ArgMinCmp, LastOfEqual)
        case Ok(t) => Ok(Output.IntTensor(t))
        case Err(e) => Err(e)
  {
    var input :- GetInputAsFloat(inputs, 0);
    assert InputWellFormed(inputs[0]);
    var out :- SelectMaxIndex(input, axis, keepDims, ArgMinCmp, LastOfEqual);
    return Ok(Output.IntTensor(out));
  }

  // ---------------------------------------------------------------------
  // Examples

  function Probs(): Tensor<F32>
  {
    Tensor([6], [Num(0.1), Num(0.5), Num(0.2), Num(0.9), Num(0.01), Num(0.6)])
  }

  /** Selecting along the only axis of a vector leaves a scalar, or a 1-element vector when kept. */
  lemma VectorSelectedShape(n: nat, keepDims: bool)
    ensures SelectedShape([n], 0, keepDims) == if keepDims then [1] else []
  {
    assert OuterShape([n], 0) == [1];
    assert OpsReshape.AxisSet([0]) == {0};
    assert [1][..0] == [];
    assert OpsReshape.Keep([1], {0}) == [];
  }

  /** A non-empty vector has one lane, the vector itself. */
  lemma VectorSelectedIndices(t: Tensor<F32>, cmp: (F32, F32) -> Ordering, rule: TieRule)
    requires t.WellFormed() && |t.shape| == 1 && |t.data| > 0
    ensures t.shape[0] > 0
    ensures SelectedIndices(t, 0, cmp, rule) == [WrapI32(BestIndex(t.data, cmp, rule))]
  {
    assert t.shape[0] * Product([]) == t.shape[0] * 1;
    assert t.shape[1..] == [];
    VectorLane(t);
    var sel := SelectedIndices(t, 0, cmp, rule);
    assert sel[0] == LaneBest(t, 0, 0, cmp, rule);
  }

  /** On a non-empty vector the selection is one index: a scalar, or a 1-element vector when kept. */
  lemma VectorSelect(t: Tensor<F32>, keepDims: bool, cmp: (F32, F32) -> Ordering, rule: TieRule)
    requires t.WellFormed() && |t.shape| == 1 && |t.data| > 0
    ensures SelectMaxIndexSpec(t, 0, keepDims, cmp, rule) ==
      Ok(Tensor(if keepDims then [1] else [], [WrapI32(BestIndex(t.data, cmp, rule))]))
  {
    VectorSelectedIndices(t, cmp, rule);
    VectorSelectedShape(t.shape[0], keepDims);
    assert t.shape == [t.shape[0]];
  }

  /** The largest of the example probabilities is at 3, the smallest at 4. */
  lemma ProbsBest()
    ensures BestIndex(Probs().data, CmpNanGreater, LastOfEqual) == 3
    ensures BestIndex(Probs().data, ArgMinCmp, LastOfEqual) == 4
  {
    var s := Probs().data;
    assert !HasNaN(s);
    ArgMaxChoice(s);
    var j := MaxByIndex(s, CmpNanGreater);
    assert s[3].value <= s[j].value;
    ArgMinChoice(s);
    var k := MaxByIndex(s, ArgMinCmp);
    assert s[k].value <= s[4].value;
  }

  /** ArgMax of a vector is a scalar holding the position of its largest element; ArgMin likewise. */
  lemma VectorArgMax()
    ensures SelectMaxIndexSpec(Probs(), 0, false, CmpNanGreater, LastOfEqual) == Ok(Tensor([], [3]))
    ensures SelectMaxIndexSpec(Probs(), 0, true, CmpNanGreater, LastOfEqual) == Ok(Tensor([1], [3]))
    ensures SelectMaxIndexSpec(Probs(), 0, false, ArgMinCmp, LastOfEqual) == Ok(Tensor([], [4]))
  {
    ProbsBest();
    VectorSelect(Probs(), false, CmpNanGreater, LastOfEqual);
    VectorSelect(Probs(), true, CmpNanGreater, LastOfEqual);
    VectorSelect(Probs(), false, ArgMinCmp, LastOfEqual);
  }

  /** A NaN wins both ArgMax and ArgMin. */
  lemma VectorArgMaxNaN()
    ensures var t := Tensor([6], [Num(0.1), Num(0.5), NaN, Num(0.9), Num(0.01), Num(0.6)]);
      SelectMaxIndexSpec(t, 0, false, CmpNanGreater, LastOfEqual) == Ok(Tensor([], [2])) &&
      SelectMaxIndexSpec(t, 0, false, ArgMinCmp, LastOfEqual) == Ok(Tensor([], [2]))
  {
    var t := Tensor([6], [Num(0.1), Num(0.5), NaN, Num(0.9), Num(0.01), Num(0.6)]);
    VectorSelect(t, false, CmpNanGreater, LastOfEqual);
    VectorSelect(t, false, ArgMinCmp, LastOfEqual);
    assert t.data[2].NaN?;
    ArgMaxChoice(t.data);
    ArgMinChoice(t.data);
  }

  /** With the source's `max_by`, ArgMax of `[1, 1]` is 1; ONNX and numpy give 0. */
  lemma ArgMaxTieAsWritten()
    ensures var t := Tensor([2], [Num(1.0), Num(1.0)]);
      SelectMaxIndexSpec(t, 0, false, CmpNanGreater, LastOfEqual) == Ok(Tensor([], [1])) &&
      SelectMaxIndexSpec(t, 0, false, CmpNanGreater, FirstOfEqual) == Ok(Tensor([], [0]))
  {
    var t := Tensor([2], [Num(1.0), Num(1.0)]);
    VectorSelect(t, false, CmpNanGreater, LastOfEqual);
    VectorSelect(t, false, CmpNanGreater, FirstOfEqual);
    ArgMaxTieDiffers();
  }

  /** An empty reduced axis is an error; an empty other axis gives an empty result. */
  lemma EmptyArgMax()
    ensures SelectMaxIndexSpec(Tensor([10, 0, 5], []), 1, false, CmpNanGreater, LastOfEqual) ==
      Err(InvalidValue("Cannot select index from empty sequence"))
    ensures SelectMaxIndexSpec(Tensor([10, 0, 5], []), 0, false, CmpNanGreater, LastOfEqual) == Ok(Tensor([0, 5], []))
  {
    var t: Tensor<F32> := Tensor([10, 0, 5], []);
    assert Product([0, 5]) == 0;
    assert t.WellFormed();
    SelectedShapeIsReduced(t, 0, false, CmpNanGreater, LastOfEqual);
    assert [10, 0, 5][..0] + [10, 0, 5][1..] == [0, 5];
    LaneCountProduct(t.shape, 0);
  }
}
