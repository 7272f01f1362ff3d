/**
 * The Pad operator of `src/ops/mod.rs`: surrounds a tensor with a constant.
 * `padding` holds the number of elements to add before each dimension,
 * followed by the number to add after each dimension.
 */
module OpsPad {
  import opened Wrappers
  import opened Tensors
  import opened Ops

  /** `padding` is a vector with a start and an end entry for each of `ndim` dimensions. */
  predicate PaddingShapeOk(padding: Tensor<I32>, ndim: nat)
  {
    |padding.shape| == 1 && padding.shape[0] == 2 * ndim
  }

  /** No entry of `padding` is negative. */
  predicate PadsNonNegative(padding: Tensor<I32>)
  {
    forall j :: 0 <= j < |padding.data| ==> padding.data[j] >= 0
  }

  /** The padding `padding` is accepted for a tensor of rank `ndim`. */
  predicate ValidPadding(padding: Tensor<I32>, ndim: nat)
  {
    padding.WellFormed() && PaddingShapeOk(padding, ndim) && PadsNonNegative(padding)
  }

  lemma PaddingLength(padding: Tensor<I32>, ndim: nat)
    requires padding.WellFormed() && PaddingShapeOk(padding, ndim)
    ensures |padding.data| == 2 * ndim
  {
    var len := padding.shape[0];
    assert padding.shape[1..] == [];
    assert Product(padding.shape) == len * Product([]);
    assert len * 1 == len;
  }

  /** The padding added before dimension `i`. */
  function StartPad(padding: Tensor<I32>, ndim: nat, i: nat): nat
    requires ValidPadding(padding, ndim) && i < ndim
  {
    PaddingLength(padding, ndim);
    padding.data[i]
  }

  /** The padding added after dimension `i`. */
  function EndPad(padding: Tensor<I32>, ndim: nat, i: nat): nat
    requires ValidPadding(padding, ndim) && i < ndim
  {
    PaddingLength(padding, ndim);
    padding.data[ndim + i]
  }

  /** Each dimension grows by its start and end padding. */
  function PadShape(shape: seq<nat>, padding: Tensor<I32>): (r: seq<nat>)
    requires ValidPadding(padding, |shape|)
    ensures |r| == |shape|
    ensures forall i :: 0 <= i < |shape| ==>
      r[i] == StartPad(padding, |shape|, i) + shape[i] + EndPad(padding, |shape|, i)
  {
    seq(|shape|, i requires 0 <= i < |shape| =>
      StartPad(padding, |shape|, i) + shape[i] + EndPad(padding, |shape|, i))
  }

  /** The start paddings, one per dimension. */
  function Starts(padding: Tensor<I32>, ndim: nat): (r: seq<nat>)
    requires ValidPadding(padding, ndim)
    ensures |r| == ndim && forall i :: 0 <= i < ndim ==> r[i] == StartPad(padding, ndim, i)
  {
    seq(ndim, i requires 0 <= i < ndim => StartPad(padding, ndim, i))
  }

  /** `idx` moved forward by `starts`, coordinate by coordinate. */
  function Shift(idx: seq<nat>, starts: seq<nat>): (r: seq<nat>)
    requires |idx| == |starts|
    ensures |r| == |idx| && forall i :: 0 <= i < |idx| ==> r[i] == idx[i] + starts[i]
  {
    seq(|idx|, i requires 0 <= i < |idx| => idx[i] + starts[i])
  }

  /** Output index `o` lies over the input, not over the padding. */
  predicate Inside(shape: seq<nat>, starts: seq<nat>, o: seq<nat>)
  {
    |o| == |shape| == |starts| && forall i :: 0 <= i < |shape| ==> starts[i] <= o[i] < starts[i] + shape[i]
  }

  /** `o` moved back by `starts`: the input index under an inside output index. */
  function Unshift(shape: seq<nat>, starts: seq<nat>, o: seq<nat>): (r: seq<nat>)
    requires Inside(shape, starts, o)
    ensures InBounds(shape, r) && Shift(r, starts) == o
  {
    seq(|o|, i requires 0 <= i < |o| => o[i] - starts[i])
  }

  /** The element of the padded tensor at output index `o`. */
  function PadAt<T>(input: Tensor<T>, starts: seq<nat>, constVal: T, o: seq<nat>): T
    requires input.WellFormed()
  {
    if Inside(input.shape, starts, o) then At(input, Unshift(input.shape, starts, o)) else constVal
  }

  /** The padded tensor. */
  function PadSpec<T>(input: Tensor<T>, padding: Tensor<I32>, constVal: T): Tensor<T>
    requires input.WellFormed() && ValidPadding(padding, |input.shape|)
  {
    var starts := Starts(padding, |input.shape|);
    var outShape := PadShape(input.shape, padding);
    Tensor(outShape, Tabulate(outShape, o => PadAt(input, starts, constVal, o)))
  }

  /** Shifting an input index by the start padding lands inside the padded shape. */
  lemma ShiftInBounds(shape: seq<nat>, padding: Tensor<I32>, idx: seq<nat>)
    requires ValidPadding(padding, |shape|) && InBounds(shape, idx)
    ensures Inside(shape, Starts(padding, |shape|), Shift(idx, Starts(padding, |shape|)))
    ensures InBounds(PadShape(shape, padding), Shift(idx, Starts(padding, |shape|)))
    ensures Unshift(shape, Starts(padding, |shape|), Shift(idx, Starts(padding, |shape|))) == idx
  {
  }

  /** Inside indices of the padded shape are in its bounds. */
  lemma InsideInBounds(shape: seq<nat>, padding: Tensor<I32>, o: seq<nat>)
    requires ValidPadding(padding, |shape|) && Inside(shape, Starts(padding, |shape|), o)
    ensures InBounds(PadShape(shape, padding), o)
  {
  }

  // ---------------------------------------------------------------------------
  // Properties of the padded tensor
  // ---------------------------------------------------------------------------

  /** The padded tensor keeps the tensor invariant. */
  lemma PadSpecWellFormed<T>(input: Tensor<T>, padding: Tensor<I32>, constVal: T)
    requires input.WellFormed() && ValidPadding(padding, |input.shape|)
    ensures PadSpec(input, padding, constVal).WellFormed()
    ensures PadSpec(input, padding, constVal).shape == PadShape(input.shape, padding)
  {
  }

  /** Every input element reappears at its index moved by the start padding. */
  lemma PadKeepsInput<T>(input: Tensor<T>, padding: Tensor<I32>, constVal: T, idx: seq<nat>)
    requires input.WellFormed() && ValidPadding(padding, |input.shape|) && InBounds(input.shape, idx)
    ensures InBounds(PadShape(input.shape, padding), Shift(idx, Starts(padding, |input.shape|)))
    ensures At(PadSpec(input, padding, constVal), Shift(idx, Starts(padding, |input.shape|))) == At(input, idx)
  {
    var starts := Starts(padding, |input.shape|);
    ShiftInBounds(input.shape, padding, idx);
    TabulateAt(PadShape(input.shape, padding), o => PadAt(input, starts, constVal, o), Shift(idx, starts));
  }

  /** Every output index outside the shifted input holds the constant. */
  lemma PadBorder<T>(input: Tensor<T>, padding: Tensor<I32>, constVal: T, o: seq<nat>)
    requires input.WellFormed() && ValidPadding(padding, |input.shape|)
    requires InBounds(PadShape(input.shape, padding), o) && !Inside(input.shape, Starts(padding, |input.shape|), o)
    ensures At(PadSpec(input, padding, constVal), o) == constVal
  {
    var starts := Starts(padding, |input.shape|);
    TabulateAt(PadShape(input.shape, padding), o => PadAt(input, starts, constVal, o), o);
  }

  /** Zero padding leaves the tensor as it is. */
  lemma PadNothing<T>(input: Tensor<T>, padding: Tensor<I32>, constVal: T)
    requires input.WellFormed() && ValidPadding(padding, |input.shape|)
    requires forall j :: 0 <= j < |padding.data| ==> padding.data[j] == 0
    ensures PadSpec(input, padding, constVal) == input
  {
    var n := |input.shape|;
    var starts := Starts(padding, n);
    PaddingLength(padding, n);
    assert forall i :: 0 <= i < n ==> starts[i] == 0 by {
      forall i | 0 <= i < n ensures starts[i] == 0 {
        assert padding.data[i] == 0;
      }
    }
    assert PadShape(input.shape, padding) == input.shape by {
      forall i | 0 <= i < n ensures PadShape(input.shape, padding)[i] == input.shape[i] {
        assert padding.data[n + i] == 0;
      }
    }
    var data := PadSpec(input, padding, constVal).data;
    forall k | 0 <= k < |data|
      ensures data[k] == input.data[k]
    {
      var o := Unravel(input.shape, k);
      assert data[k] == PadAt(input, starts, constVal, o);
      assert Inside(input.shape, starts, o);
      assert Unshift(input.shape, starts, o) == o;
    }
  }

  // ---------------------------------------------------------------------------
  // The operator
  // ---------------------------------------------------------------------------

  /**
   * The array after the first `k` input elements (in row-major order) are
   * copied: those hold their input element, everything else the constant.
   */
  ghost predicate Copied<T>(s: seq<T>, k: nat, input: Tensor<T>, padding: Tensor<I32>, constVal: T)
    requires input.WellFormed() && ValidPadding(padding, |input.shape|)
  {
    var starts := Starts(padding, |input.shape|);
    var outShape := PadShape(input.shape, padding);
    |s| == Product(outShape) &&
    forall p :: 0 <= p < |s| ==> s[p] == PartialAt(input, starts, constVal, Unravel(outShape, p), k)
  }

  /** The element at output index `o` once the first `k` input elements are copied. */
  function PartialAt<T>(input: Tensor<T>, starts: seq<nat>, constVal: T, o: seq<nat>, k: nat): T
    requires input.WellFormed()
  {
    if Inside(input.shape, starts, o) && Offset(input.shape, Unshift(input.shape, starts, o)) < k
    then At(input, Unshift(input.shape, starts, o))
    else constVal
  }

  lemma CopiedStep<T>(before: seq<T>, after: seq<T>, k: nat, input: Tensor<T>, padding: Tensor<I32>, constVal: T)
    requires input.WellFormed() && ValidPadding(padding, |input.shape|) && k < |input.data|
    requires Copied(before, k, input, padding, constVal)
    requires InBounds(PadShape(input.shape, padding), Shift(Unravel(input.shape, k), Starts(padding, |input.shape|)))
    requires after == before[Offset(PadShape(input.shape, padding), Shift(Unravel(input.shape, k), Starts(padding, |input.shape|))) := input.data[k]]
    ensures Copied(after, k + 1, input, padding, constVal)
  {
    var starts := Starts(padding, |input.shape|);
    var outShape := PadShape(input.shape, padding);
    var idx := Unravel(input.shape, k);
    var target := Shift(idx, starts);
    ShiftInBounds(input.shape, padding, idx);
    var q := Offset(outShape, target);
    forall p | 0 <= p < |after|
      ensures after[p] == PartialAt(input, starts, constVal, Unravel(outShape, p), k + 1)
    {
      var o := Unravel(outShape, p);
      if p == q {
        UnravelOffset(outShape, target);
      } else if Inside(input.shape, starts, o) {
        var u := Unshift(input.shape, starts, o);
        UnravelOffset(input.shape, u);
        assert Offset(input.shape, u) == k ==> o == target;
      }
    }
  }

  lemma CopiedAll<T>(s: seq<T>, input: Tensor<T>, padding: Tensor<I32>, constVal: T)
    requires input.WellFormed() && ValidPadding(padding, |input.shape|)
    requires Copied(s, |input.data|, input, padding, constVal)
    ensures s == PadSpec(input, padding, constVal).data
  {
  }

  /** `padding` as the code checks it: its shape first, then the sign of every entry. */
  method CheckPadding(padding: Tensor<I32>, ndim: nat) returns (r: Result<(), OpError>)
    requires padding.WellFormed()
    ensures !PaddingShapeOk(padding, ndim) ==>
      r == Err(InvalidValue("padding should be vector of length 2 * input dimensions"))
    ensures PaddingShapeOk(padding, ndim) && !PadsNonNegative(padding) ==>
      r == Err(InvalidValue("Pad only supports positive pads"))
    ensures r.Ok? <==> ValidPadding(padding, ndim)
  {
    if |padding.shape| != 1 || padding.shape[0] != ndim * 2 {
      return Err(InvalidValue("padding should be vector of length 2 * input dimensions"));
    }
    var j := 0;
    while j < |padding.data|
      invariant 0 <= j <= |padding.data|
      invariant forall i :: 0 <= i < j ==> padding.data[i] >= 0
    {
      if padding.data[j] < 0 {
        return Err(InvalidValue("Pad only supports positive pads"));
      }
      j := j + 1;
    }
    return Ok(());
  }

  /** The inner loop: each coordinate of the input index moved by its start padding. */
  method ShiftIndex(inIndex: seq<nat>, padding: Tensor<I32>) returns (outIndex: seq<nat>)
    requires ValidPadding(padding, |inIndex|)
    ensures outIndex == Shift(inIndex, Starts(padding, |inIndex|))
  {
    PaddingLength(padding, |inIndex|);
    outIndex := inIndex;
    var i := 0;
    while i < |outIndex|
      invariant 0 <= i <= |outIndex| == |inIndex|
      invariant forall d :: 0 <= d < i ==> outIndex[d] == inIndex[d] + StartPad(padding, |inIndex|, d)
      invariant forall d :: i <= d < |outIndex| ==> outIndex[d] == inIndex[d]
    {
      outIndex := outIndex[i := outIndex[i] + padding.data[i] as nat];
      i := i + 1;
    }
  }

  /**
   * `pad`: check the padding, fill an output of the padded shape with the
   * constant, then copy every input element, in row-major order, to its index
   * moved by the start padding.
   */
  method Pad<T>(input: Tensor<T>, padding: Tensor<I32>, constVal: T) returns (r: Result<Tensor<T>, OpError>)
    requires input.WellFormed() && padding.WellFormed()
    ensures !PaddingShapeOk(padding, |input.shape|) ==>
      r == Err(InvalidValue("padding should be vector of length 2 * input dimensions"))
    ensures PaddingShapeOk(padding, |input.shape|) && !PadsNonNegative(padding) ==>
      r == Err(InvalidValue("Pad only supports positive pads"))
    ensures r.Ok? <==> ValidPadding(padding, |input.shape|)
    ensures r.Ok? ==> r.value == PadSpec(input, padding, constVal)
  {
    var checked := CheckPadding(padding, |input.shape|);
    if checked.Err? {
      return Err(checked.error);
    }
    var outShape := PadShape(input.shape, padding);
    var output := new T[Product(outShape)](_ => constVal);
    var k := 0;
    while k < |input.data|
      invariant 0 <= k <= |input.data|
      invariant Copied(output[..], k, input, padding, constVal)
    {
      var inIndex := Unravel(input.shape, k);
      var outIndex := ShiftIndex(inIndex, padding);
      ShiftInBounds(input.shape, padding, inIndex);
      ghost var before := output[..];
      output[Offset(outShape, outIndex)] := input.data[k];
      CopiedStep(before, output[..], k, input, padding, constVal);
      k := k + 1;
    }
    CopiedAll(output[..], input, padding, constVal);
    return Ok(Tensor(outShape, output[..]));
  }

  /**
   * Pad::run: the input, the int pads, an optional scalar constant of the
   * input's kind (0 when absent) and an `axes` input that is refused.
   */
  method PadRun(inputs: seq<Input>) returns (r: Result<Output, OpError>)
    requires WellFormedInputs(inputs)
    ensures |inputs| == 0 ==> r == Err(MissingInputs)
    ensures |inputs| > 0 && GetInputAsInt(inputs, 1).Err? ==> r == Err(GetInputAsInt(inputs, 1).error)
    ensures |inputs| > 0 && GetInputAsInt(inputs, 1).Ok? && GetOptionalInputAsInt(inputs, 3).Err? ==>
      r == Err(GetOptionalInputAsInt(inputs, 3).error)
    ensures |inputs| > 3 && inputs[1].IntTensor? && inputs[3].IntTensor? ==>
      r == Err(UnsupportedValue("Pad operator does not yet support `axes` input"))
    ensures |inputs| > 2 && GetInputAsInt(inputs, 1).Ok? && GetOptionalInputAsInt(inputs, 3) == Ok(None) ==>
      (inputs[0].IntTensor? && ExtractScalarInt(inputs[2]).Err? ==> r == Err(ExtractScalarInt(inputs[2]).error)) &&
      (inputs[0].FloatTensor? && ExtractScalarFloat(inputs[2]).Err? ==> r == Err(ExtractScalarFloat(inputs[2]).error))
    ensures r.Ok? ==> |inputs| >= 2 && inputs[1].IntTensor? && (|inputs| <= 3 || !inputs[3].IntTensor?)
    ensures r.Ok? ==> r.value.FloatTensor? == inputs[0].FloatTensor?
    ensures r.Ok? && inputs[0].IntTensor? ==>
      var constVal := if |inputs| > 2 then ExtractScalarInt(inputs[2]).value else 0;
      ValidPadding(inputs[1].i, |inputs[0].i.shape|) && r.value.i == PadSpec(inputs[0].i, inputs[1].i, constVal)
    ensures r.Ok? && inputs[0].FloatTensor? ==>
      var constVal := if |inputs| > 2 then ExtractScalarFloat(inputs[2]).value else Num(0.0);
      ValidPadding(inputs[1].i, |inputs[0].f.shape|) && r.value.f == PadSpec(inputs[0].f, inputs[1].i, constVal)
  {
    if |inputs| == 0 {
      return Err(MissingInputs);
    }
    var pads :- GetInputAsInt(inputs, 1);
    assert InputWellFormed(inputs[1]);
    var axes :- GetOptionalInputAsInt(inputs, 3);
    if axes.Some? {
      return Err(UnsupportedValue("Pad operator does not yet support `axes` input"));
    }
    assert InputWellFormed(inputs[0]);
    match inputs[0]
    case IntTensor(t) =>
      var constVal: I32 := 0;
      if |inputs| > 2 {
        constVal :- ExtractScalarInt(inputs[2]);
      }
      var out :- Pad(t, pads, constVal);
      return Ok(Output.IntTensor(out));
    case FloatTensor(t) =>
      var constVal := Num(0.0);
      if |inputs| > 2 {
        constVal :- ExtractScalarFloat(inputs[2]);
      }
      var out :- Pad(t, pads, constVal);
      return Ok(Output.FloatTensor(out));
  }
}
