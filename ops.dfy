/**
 * The operator contract of `src/ops/mod.rs`: the tagged input and output
 * unions, the error taxonomy, the input-extraction helpers, the trait's
 * in-place defaults and the operators that only copy, convert or describe
 * their input (Identity, Shape, ConstantOfShape, Cast), plus the argument
 * checks of Gemm and MatMul.
 */
module Ops {
  import opened Wrappers
  import opened Tensors

  datatype DataType = Int32 | Float

  /** An operator input: a float or an int tensor. */
  datatype Input = FloatTensor(f: Tensor<F32>) | IntTensor(i: Tensor<I32>)
  {
    function Shape(): seq<nat>
    {
      match this
      case FloatTensor(t) => t.shape
      case IntTensor(t) => t.shape
    }

    function AsFloat(): (r: Option<Tensor<F32>>)
      ensures r.Some? <==> FloatTensor?
      ensures r.Some? ==> r.value == f
    {
      if FloatTensor? then Some(f) else None
    }

    function AsInt(): (r: Option<Tensor<I32>>)
      ensures r.Some? <==> IntTensor?
      ensures r.Some? ==> r.value == i
    {
      if IntTensor? then Some(i) else None
    }
  }

  predicate InputWellFormed(x: Input)
  {
    match x
    case FloatTensor(t) => t.WellFormed()
    case IntTensor(t) => t.WellFormed()
  }

  /** Every input keeps the tensor invariant. */
  predicate WellFormedInputs(inputs: seq<Input>)
  {
    forall j {:trigger inputs[j]} :: 0 <= j < |inputs| ==> InputWellFormed(inputs[j])
  }

  /** An operator output, owned by the caller. */
  datatype Output = FloatTensor(f: Tensor<F32>) | IntTensor(i: Tensor<I32>)
  {
    function IntoInt(): (r: Option<Tensor<I32>>)
      ensures r.Some? <==> IntTensor?
      ensures r.Some? ==> r.value == i
    {
      if IntTensor? then Some(i) else None
    }

    function IntoFloat(): (r: Option<Tensor<F32>>)
      ensures r.Some? <==> FloatTensor?
      ensures r.Some? ==> r.value == f
    {
      if FloatTensor? then Some(f) else None
    }

    /** The output viewed as an input of a further operator. */
    function AsInput(): (r: Input)
      ensures r.FloatTensor? <==> FloatTensor?
      ensures FloatTensor? ==> r.f == f
      ensures IntTensor? ==> r.i == i
    {
      match this
      case FloatTensor(t) => Input.FloatTensor(t)
      case IntTensor(t) => Input.IntTensor(t)
    }
  }

  /**
   * Why an operator fails. `Panic` is not a variant of the source's enum:
   * it stands for a panic (an assertion, an out-of-range index or a
   * division by zero) in the operator, which the source does not return.
   */
  datatype OpError =
    | UnsupportedInputType
    | IncompatibleInputShapes(reason: string)
    | IncompatibleInputTypes(reason: string)
    | MissingInputs
    | InvalidValue(reason: string)
    | UnsupportedValue(reason: string)
    | Panic(reason: string)

  // ---------------------------------------------------------------------
  // Extracting inputs

  /** The float tensor at `index`: missing, of the wrong kind, or found. */
  function GetInputAsFloat(inputs: seq<Input>, index: nat): (r: Result<Tensor<F32>, OpError>)
    ensures index >= |inputs| ==> r == Err(MissingInputs)
    ensures index < |inputs| && !inputs[index].FloatTensor? ==> r == Err(UnsupportedInputType)
    ensures index < |inputs| && inputs[index].FloatTensor? ==> r == Ok(inputs[index].f)
  {
    if index < |inputs| then
      match inputs[index].AsFloat()
      case Some(t) => Ok(t)
      case None => Err(UnsupportedInputType)
    else Err(MissingInputs)
  }

  function GetOptionalInputAsFloat(inputs: seq<Input>, index: nat): (r: Result<Option<Tensor<F32>>, OpError>)
    ensures r == Ok(None) <==> index >= |inputs|
  {
    if index < |inputs| then
      match inputs[index].AsFloat()
      case Some(t) => Ok(Some(t))
      case None => Err(UnsupportedInputType)
    else Ok(None)
  }

  /** The int tensor at `index`: missing, of the wrong kind, or found. */
  function GetInputAsInt(inputs: seq<Input>, index: nat): (r: Result<Tensor<I32>, OpError>)
    ensures index >= |inputs| ==> r == Err(MissingInputs)
    ensures index < |inputs| && !inputs[index].IntTensor? ==> r == Err(UnsupportedInputType)
    ensures index < |inputs| && inputs[index].IntTensor? ==> r == Ok(inputs[index].i)
  {
    if index < |inputs| then
      match inputs[index].AsInt()
      case Some(t) => Ok(t)
      case None => Err(UnsupportedInputType)
    else Err(MissingInputs)
  }

  function GetOptionalInputAsInt(inputs: seq<Input>, index: nat): (r: Result<Option<Tensor<I32>>, OpError>)
    ensures r == Ok(None) <==> index >= |inputs|
  {
    if index < |inputs| then
      match inputs[index].AsInt()
      case Some(t) => Ok(Some(t))
      case None => Err(UnsupportedInputType)
    else Ok(None)
  }

  /**
   * An optional input differs from a required one only when it is absent:
   * a present input gives the same tensor or the same error.
   */
  lemma OptionalInputAgrees(inputs: seq<Input>, index: nat)
    ensures index < |inputs| ==>
      GetOptionalInputAsFloat(inputs, index) == (match GetInputAsFloat(inputs, index)
        case Ok(t) => Ok(Some(t))
        case Err(e) => Err(e))
    ensures index < |inputs| ==>
      GetOptionalInputAsInt(inputs, index) == (match GetInputAsInt(inputs, index)
        case Ok(t) => Ok(Some(t))
        case Err(e) => Err(e))
    ensures index >= |inputs| ==>
      GetOptionalInputAsFloat(inputs, index) == Ok(None) && GetInputAsFloat(inputs, index) == Err(MissingInputs)
    ensures index >= |inputs| ==>
      GetOptionalInputAsInt(inputs, index) == Ok(None) && GetInputAsInt(inputs, index) == Err(MissingInputs)
  {
  }

  // ---------------------------------------------------------------------
  // Element conversions

  const TwoPow32: int := 0x1_0000_0000

  /** `x as i32` for an unsigned value: keep the low 32 bits, as two's complement. */
  function WrapI32(x: nat): (r: I32)
    ensures x <= MaxI32 ==> r == x
    ensures (r - x) % TwoPow32 == 0
  {
    var low := x % TwoPow32;
    if low <= MaxI32 then low else low - TwoPow32
  }

  const TwoPow64: int := 0x1_0000_0000_0000_0000

  /** `x as usize` for an `i32`: a negative value wraps to a huge size. */
  function AsUsize(x: I32): (r: nat)
    ensures x >= 0 ==> r == x
    ensures x < 0 ==> r == x + TwoPow64 && r > MaxI32
  {
    if x >= 0 then x else x + TwoPow64
  }

  /** `x as f32`. The value is kept exactly; rounding to 24 bits is not modelled. */
  function IntToFloat(x: I32): (r: F32)
    ensures r.Num? && r.value == x as real
  {
    Num(x as real)
  }

  /** The integer part of `v`, rounded toward zero. */
  function Trunc(v: real): (r: int)
    ensures v >= 0.0 ==> r as real <= v < r as real + 1.0
    ensures v < 0.0 ==> r as real - 1.0 < v <= r as real
  {
    if v >= 0.0 then v.Floor else -((-v).Floor)
  }

  /** `x as i32` for a float: NaN gives 0, other values truncate and saturate. */
  function FloatToInt(x: F32): (r: I32)
    ensures x.NaN? ==> r == 0
    ensures x.Num? && MinI32 as real <= x.value <= MaxI32 as real ==> r == Trunc(x.value)
    ensures x.Num? && x.value >= MaxI32 as real + 1.0 ==> r == MaxI32
    ensures x.Num? && x.value <= MinI32 as real - 1.0 ==> r == MinI32
  {
    match x
    case NaN => 0
    case Num(v) =>
      var t := Trunc(v);
      if t > MaxI32 then MaxI32 else if t < MinI32 then MinI32 else t
  }

  function MapTensor<A, B>(t: Tensor<A>, f: A -> B): (r: Tensor<B>)
    ensures r.shape == t.shape && |r.data| == |t.data|
    ensures forall k :: 0 <= k < |t.data| ==> r.data[k] == f(t.data[k])
  {
    Tensor(t.shape, seq(|t.data|, k requires 0 <= k < |t.data| => f(t.data[k])))
  }

  /** The only element of a one-element tensor. */
  function Item<T>(t: Tensor<T>): (r: Option<T>)
    ensures r.Some? <==> |t.data| == 1
    ensures r.Some? ==> r.value == t.data[0]
  {
    if |t.data| == 1 then Some(t.data[0]) else None
  }

  // ---------------------------------------------------------------------
  // The trait's defaults

  /** The operators of this revision. */
  datatype OperatorKind =
    | BatchNormalization
    | Cast(to: DataType)
    | Concat(dim: nat)
    | ConstantOfShape(value: I32)
    | Gather(axis: nat)
    | Gemm
    | Identity
    | MatMul
    | Pad
    | Reshape
    | Shape
    | Slice
    | Squeeze(axes: Option<seq<nat>>)
    | Transpose(perm: Option<seq<nat>>)
    | Unsqueeze(unsqueezeAxes: seq<nat>)

  /** Operators that override `can_run_in_place`; every other one keeps the default `false`. */
  predicate OverridesCanRunInPlace(op: OperatorKind)
  {
    op.BatchNormalization? || op.Cast? || op.Identity? || op.Reshape? || op.Slice? || op.Squeeze?
  }

  function CanRunInPlace(op: OperatorKind): (r: bool)
    ensures !OverridesCanRunInPlace(op) ==> !r
    ensures op.Reshape? ==> !r
    ensures r ==> OverridesCanRunInPlace(op)
  {
    match op
    case BatchNormalization => true
    case Cast(_) => true
    case Identity => true
    case Reshape => false
    case Slice => true
    case Squeeze(_) => true
    case _ => false
  }

  /** The default `run_in_place`: the input is returned untouched. */
  function DefaultRunInPlace(input: Output, other: seq<Input>): (r: Result<Output, OpError>)
    ensures r.Ok? && r.value == input
  {
    Ok(input)
  }

  // ---------------------------------------------------------------------
  // Identity, Shape, ConstantOfShape, Cast

  function FirstInput(inputs: seq<Input>): (r: Result<Input, OpError>)
    ensures r.Err? <==> |inputs| == 0
    ensures r.Err? ==> r.error == MissingInputs
    ensures r.Ok? ==> r.value == inputs[0]
  {
    if |inputs| > 0 then Ok(inputs[0]) else Err(MissingInputs)
  }

  function InputToOutput(x: Input): (r: Output)
    ensures r.AsInput() == x
  {
    match x
    case FloatTensor(t) => Output.FloatTensor(t)
    case IntTensor(t) => Output.IntTensor(t)
  }

  /** Identity: a copy of the first input. */
  function IdentityRun(inputs: seq<Input>): (r: Result<Output, OpError>)
    ensures r.Err? <==> |inputs| == 0
    ensures r.Err? ==> r.error == MissingInputs
    ensures r.Ok? ==> r.value.AsInput() == inputs[0]
  {
    var input :- FirstInput(inputs);
    Ok(InputToOutput(input))
  }

  function IdentityRunInPlace(input: Output, other: seq<Input>): (r: Result<Output, OpError>)
    ensures r == DefaultRunInPlace(input, other)
  {
    Ok(input)
  }

  /** Running Identity in place gives what running it on a copy gives. */
  lemma IdentityInPlaceAgrees(input: Output, other: seq<Input>)
    ensures IdentityRunInPlace(input, other) == IdentityRun([input.AsInput()] + other)
  {
    var r := IdentityRun([input.AsInput()] + other);
    assert r.Ok? && r.value.AsInput() == input.AsInput();
    match input
    case FloatTensor(t) =>
    case IntTensor(t) =>
  }

  /** Shape: a 1-D int tensor holding the input's dimensions. */
  function ShapeRun(inputs: seq<Input>): (r: Result<Output, OpError>)
    ensures r.Err? <==> |inputs| == 0
    ensures r.Err? ==> r.error == MissingInputs
    ensures r.Ok? ==> r.value.IntTensor? && r.value.i.WellFormed()
    ensures r.Ok? ==> r.value.i.shape == [|inputs[0].Shape()|] && |r.value.i.data| == |inputs[0].Shape()|
    ensures r.Ok? ==> forall d :: 0 <= d < |inputs[0].Shape()| && inputs[0].Shape()[d] <= MaxI32 ==>
      r.value.i.data[d] == inputs[0].Shape()[d]
  {
    var input :- FirstInput(inputs);
    var shape := input.Shape();
    var dims := seq(|shape|, d requires 0 <= d < |shape| => WrapI32(shape[d]));
    assert Product([|shape|]) == |shape| by {
      assert [|shape|][1..] == [];
    }
    Ok(Output.IntTensor(Tensor([|shape|], dims)))
  }

  const MaxUsize: int := TwoPow64 - 1

  /** `isize::MAX`: no allocation may exceed this many bytes. */
  const MaxIsize: int := 0x7fff_ffff_ffff_ffff

  /** The dimensions an `i32` tensor lists, each `as usize`. */
  function UsizeShape(dims: seq<I32>): (r: seq<nat>)
    ensures |r| == |dims| && forall d :: 0 <= d < |dims| ==> r[d] == AsUsize(dims[d])
  {
    seq(|dims|, d requires 0 <= d < |dims| => AsUsize(dims[d]))
  }

  /** Every partial product of `shape`, multiplied front to back, fits in a `usize`. */
  predicate ProductFits(shape: seq<nat>)
  {
    forall k :: 0 <= k <= |shape| ==> Product(shape[..k]) <= MaxUsize
  }

  /**
   * ConstantOfShape: a tensor of the given shape, every element `value`.
   * The element count is `Iterator::product`, which panics when a partial
   * product overflows, and a buffer of more than `isize::MAX` bytes is the
   * panic of `vec!`.
   */
  function ConstantOfShapeRun(value: I32, inputs: seq<Input>): (r: Result<Output, OpError>)
    ensures (|inputs| == 0) ==> r == Err(MissingInputs)
    ensures |inputs| > 0 && !inputs[0].IntTensor? ==> r == Err(UnsupportedInputType)
    ensures |inputs| > 0 && inputs[0].IntTensor? ==>
      var shape := UsizeShape(inputs[0].i.data);
      (r.Ok? <==> ProductFits(shape) && 4 * Product(shape) <= MaxIsize) &&
      (r.Err? ==> r.error == Panic("attempt to multiply with overflow") || r.error == Panic("capacity overflow"))
    ensures r.Ok? ==> r.value.IntTensor? && r.value.i.WellFormed() && 4 * |r.value.i.data| <= MaxIsize
    ensures r.Ok? ==> r.value.i.shape == UsizeShape(inputs[0].i.data)
    ensures r.Ok? ==> forall d :: 0 <= d < |inputs[0].i.data| && inputs[0].i.data[d] >= 0 ==>
      r.value.i.shape[d] == inputs[0].i.data[d]
    ensures r.Ok? ==> forall k :: 0 <= k < |r.value.i.data| ==> r.value.i.data[k] == value
  {
    var input :- GetInputAsInt(inputs, 0);
    var shape := UsizeShape(input.data);
    if !ProductFits(shape) then Err(Panic("attempt to multiply with overflow"))
    else if 4 * Product(shape) > MaxIsize then Err(Panic("capacity overflow"))
    else Ok(Output.IntTensor(Tensor(shape, seq(Product(shape), _ => value))))
  }

  /** A shape without empty dimensions has at least one element. */
  lemma ProductAtLeastOne(shape: seq<nat>)
    requires forall d :: 0 <= d < |shape| ==> shape[d] >= 1
    ensures Product(shape) >= 1
  {
    ProductZero(shape);
  }

  /** Without empty dimensions, each dimension is at most the element count. */
  lemma DimAtMostProduct(shape: seq<nat>, d: nat)
    requires d < |shape| && forall e :: 0 <= e < |shape| ==> shape[e] >= 1
    ensures shape[d] <= Product(shape)
  {
    ProductSplit(shape, d);
    ProductAtLeastOne(shape[..d]);
    ProductAtLeastOne(shape[d + 1..]);
    var a, b := Product(shape[..d]), Product(shape[d + 1..]);
    assert a * shape[d] >= shape[d] by {
      MulAtLeast(a, shape[d]);
    }
    MulAtLeast(b, a * shape[d]);
    assert Product(shape) == (a * shape[d]) * b;
  }

  lemma MulAtLeast(a: nat, x: nat)
    requires a >= 1
    ensures a * x >= x && x * a >= x
  {
  }

  /** Without empty dimensions, every partial product is at most the whole product. */
  lemma PrefixAtMostProduct(shape: seq<nat>, k: nat)
    requires k <= |shape| && forall e :: 0 <= e < |shape| ==> shape[e] >= 1
    ensures Product(shape[..k]) <= Product(shape)
  {
    assert shape == shape[..k] + shape[k..];
    ProductAppend(shape[..k], shape[k..]);
    ProductAtLeastOne(shape[k..]);
    MulAtLeast(Product(shape[k..]), Product(shape[..k]));
  }

  /**
   * A shape of positive dimensions whose buffer fits builds its tensor:
   * with no empty dimension no partial product exceeds the whole.
   */
  lemma ConstantOfShapeFits(value: I32, dims: Tensor<I32>)
    requires dims.WellFormed()
    requires forall d :: 0 <= d < |dims.data| ==> dims.data[d] >= 1
    requires 4 * Product(UsizeShape(dims.data)) <= MaxIsize
    ensures ConstantOfShapeRun(value, [Input.IntTensor(dims)]).Ok?
  {
    var shape := UsizeShape(dims.data);
    forall k | 0 <= k <= |shape|
      ensures Product(shape[..k]) <= MaxUsize
    {
      PrefixAtMostProduct(shape, k);
    }
  }

  /**
   * A negative dimension among positive ones is a panic: `as usize` makes
   * it at least 2^64 - 2^31, too many elements for any buffer.
   */
  lemma NegativeDimensionPanics(value: I32, dims: Tensor<I32>, d: nat)
    requires dims.WellFormed() && d < |dims.data| && dims.data[d] < 0
    requires forall e :: 0 <= e < |dims.data| && e != d ==> dims.data[e] >= 1
    ensures ConstantOfShapeRun(value, [Input.IntTensor(dims)]).Err?
  {
    var shape := UsizeShape(dims.data);
    DimAtMostProduct(shape, d);
  }

  /** With an empty dimension beside it, a negative one gives an empty tensor with a huge dimension. */
  lemma NegativeBesideEmpty()
    ensures ConstantOfShapeRun(7, [Input.IntTensor(Tensor([2], [-1, 0]))]) ==
      Ok(Output.IntTensor(Tensor([TwoPow64 - 1, 0], [])))
  {
    var dims: Tensor<I32> := Tensor([2], [-1, 0]);
    var shape := UsizeShape(dims.data);
    assert shape == [TwoPow64 - 1, 0];
    assert shape[..0] == [] && shape[..1] == [TwoPow64 - 1] && shape[..2] == shape;
    assert [TwoPow64 - 1][1..] == [] && shape[1..] == [0] && [0][1..] == [];
    assert Product(shape) == 0;
  }

  /** Cast as a fresh tensor: the result's kind is always the target kind. */
  function CastRun(to: DataType, inputs: seq<Input>): (r: Result<Output, OpError>)
    ensures r.Err? <==> |inputs| == 0
    ensures r.Err? ==> r.error == MissingInputs
    ensures r.Ok? ==> (r.value.IntTensor? <==> to == Int32)
    ensures r.Ok? ==> r.value.AsInput().Shape() == inputs[0].Shape()
    ensures r.Ok? && inputs[0].IntTensor? && to == Int32 ==> r.value.i == inputs[0].i
    ensures r.Ok? && inputs[0].FloatTensor? && to == Float ==> r.value.f == inputs[0].f
    ensures r.Ok? && inputs[0].IntTensor? && to == Float ==> r.value.f == MapTensor(inputs[0].i, IntToFloat)
    ensures r.Ok? && inputs[0].FloatTensor? && to == Int32 ==> r.value.i == MapTensor(inputs[0].f, FloatToInt)
  {
    var input :- FirstInput(inputs);
    match input
    case IntTensor(t) =>
      (match to
       case Int32 => Ok(Output.IntTensor(t))
       case Float => Ok(Output.FloatTensor(MapTensor(t, IntToFloat))))
    case FloatTensor(t) =>
      (match to
       case Int32 => Ok(Output.IntTensor(MapTensor(t, FloatToInt)))
       case Float => Ok(Output.FloatTensor(t)))
  }

  /** Cast in place: a tensor already of the target kind is returned as is, any other is cast afresh. */
  function CastRunInPlace(to: DataType, input: Output, other: seq<Input>): (r: Result<Output, OpError>)
    ensures (input.IntTensor? && to == Int32) || (input.FloatTensor? && to == Float) ==> r == Ok(input)
    ensures input.IntTensor? && to == Float ==> r == CastRun(to, [Input.IntTensor(input.i)])
    ensures input.FloatTensor? && to == Int32 ==> r == CastRun(to, [Input.FloatTensor(input.f)])
  {
    match (input, to)
    case (IntTensor(t), Int32) => Ok(input)
    case (IntTensor(t), _) => CastRun(to, [Input.IntTensor(t)])
    case (FloatTensor(t), Float) => Ok(input)
    case (FloatTensor(t), _) => CastRun(to, [Input.FloatTensor(t)])
  }

  /** Casting in place is observably the same as casting a copy. */
  lemma CastInPlaceAgrees(to: DataType, input: Output, other: seq<Input>)
    ensures CastRunInPlace(to, input, other) == CastRun(to, [input.AsInput()])
  {
    var r := CastRun(to, [input.AsInput()]);
    assert r.Ok?;
    match input
    case IntTensor(t) =>
    case FloatTensor(t) =>
  }

  // ---------------------------------------------------------------------
  // Gemm and MatMul argument checks (the kernels are floating point)

  /** Gemm supports only `alpha == 1` and `beta` in {0, 1}; NaN fails both. */
  function GemmCheck(alpha: F32, beta: F32): (r: Result<(), OpError>)
    ensures r.Ok? <==> alpha == Num(1.0) && (beta == Num(0.0) || beta == Num(1.0))
    ensures alpha != Num(1.0) ==> r == Err(UnsupportedValue("Gemm only supports `alpha` value of 1.0"))
  {
    if alpha != Num(1.0) then Err(UnsupportedValue("Gemm only supports `alpha` value of 1.0"))
    else if beta != Num(0.0) && beta != Num(1.0) then Err(UnsupportedValue("Gemm only supports `beta` values of 0.0 and 1.0"))
    else Ok(())
  }

  /** Gemm's output shape: rows of (possibly transposed) `a` by columns of (possibly transposed) `b`. */
  function GemmOutputShape(aShape: seq<nat>, bShape: seq<nat>, transposeA: bool, transposeB: bool): (r: Result<seq<nat>, OpError>)
    ensures r.Ok? <==> |aShape| >= 2 && |bShape| >= 2
    ensures r.Ok? ==> r.value == [if transposeA then aShape[1] else aShape[0], if transposeB then bShape[0] else bShape[1]]
  {
    if |aShape| < 2 || |bShape| < 2 then Err(Panic("index out of bounds"))
    else Ok([if transposeA then aShape[1] else aShape[0], if transposeB then bShape[0] else bShape[1]])
  }

  /** MatMul takes two matrices whose inner dimensions agree. */
  function MatMulOutputShape(aShape: seq<nat>, bShape: seq<nat>): (r: Result<seq<nat>, OpError>)
    ensures r.Ok? <==> |aShape| == 2 && |bShape| == 2 && aShape[1] == bShape[0]
    ensures |aShape| == 2 && |bShape| == 2 && aShape[1] != bShape[0] ==>
      r == Err(IncompatibleInputShapes("Columns of first matrix does not match rows of second matrix"))
    ensures r.Ok? ==> r.value == [aShape[0], bShape[1]]
  {
    if |aShape| != 2 || |bShape| != 2 then Err(Panic("expected a 2-D tensor"))
    else if aShape[1] != bShape[0] then
      Err(IncompatibleInputShapes("Columns of first matrix does not match rows of second matrix"))
    else Ok([aShape[0], bShape[1]])
  }

  // ---------------------------------------------------------------------
  // Scalars

  function ExtractScalar<T>(x: Tensor<T>): (r: Result<T, OpError>)
    ensures r.Ok? <==> |x.data| == 1
    ensures r.Ok? ==> r.value == x.data[0]
    ensures r.Err? ==> r.error == InvalidValue("Expected scalar value")
  {
    match Item(x)
    case Some(v) => Ok(v)
    case None => Err(InvalidValue("Expected scalar value"))
  }

  function ExtractScalarInt(x: Input): (r: Result<I32, OpError>)
    ensures !x.IntTensor? ==> r == Err(IncompatibleInputTypes("Expected int input"))
    ensures x.IntTensor? ==> r == ExtractScalar(x.i)
  {
    if x.IntTensor? then ExtractScalar(x.i) else Err(IncompatibleInputTypes("Expected int input"))
  }

  /** The error message says "int" although a float is expected, as in the source. */
  function ExtractScalarFloat(x: Input): (r: Result<F32, OpError>)
    ensures !x.FloatTensor? ==> r == Err(IncompatibleInputTypes("Expected int input"))
    ensures x.FloatTensor? ==> r == ExtractScalar(x.f)
  {
    if x.FloatTensor? then ExtractScalar(x.f) else Err(IncompatibleInputTypes("Expected int input"))
  }

  // ---------------------------------------------------------------------
  // Axes

  /**
   * `resolve_axis`: an axis in `[-ndim, ndim)`, negative values counting
   * from the end. The function itself is not part of this model; its
   * behaviour is the one its callers' tests rely on.
   */
  function ResolveAxis(ndim: nat, axis: int): (r: Result<nat, OpError>)
    ensures r.Ok? <==> -(ndim as int) <= axis < ndim
    ensures r.Err? ==> r.error == InvalidValue("Axis is invalid")
    ensures r.Ok? ==> r.value < ndim && (r.value - axis) % ndim == 0
  {
    if axis < -(ndim as int) || axis >= ndim then Err(InvalidValue("Axis is invalid"))
    else if axis < 0 then Ok(axis + ndim)
    else Ok(axis)
  }

  /** A resolved axis is the one dimension congruent to the given axis. */
  lemma ResolveAxisUnique(ndim: nat, axis: int, d: nat)
    requires d < ndim && (d - axis) % ndim == 0
    ensures ResolveAxis(ndim, axis).Ok? ==> ResolveAxis(ndim, axis).value == d
  {
    if ResolveAxis(ndim, axis).Ok? {
      var e := ResolveAxis(ndim, axis).value;
      var q1 := (d - axis) / ndim;
      var q2 := (e - axis) / ndim;
      assert d - axis == q1 * ndim;
      assert e - axis == q2 * ndim;
      assert d - e == (q1 - q2) * ndim;
      if q1 - q2 >= 1 {
        MulMono(1, q1 - q2, ndim);
      } else if q1 - q2 <= -1 {
        MulMono(1, q2 - q1, ndim);
      }
    }
  }
}
