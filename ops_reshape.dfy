/**
 * The operators of `src/ops/mod.rs` that change a tensor's shape and keep
 * its data: Reshape (with one dimension inferred from `-1`), Squeeze and
 * Unsqueeze.
 */
module OpsReshape {
  import opened Wrappers
  import opened Tensors
  import opened Ops

  // ---------------------------------------------------------------------
  // Reshape

  /** How many entries of `dims` are `-1`. */
  function NegOnes(dims: seq<I32>): (c: nat)
    ensures c <= |dims|
  {
    if |dims| == 0 then 0
    else NegOnes(dims[..|dims| - 1]) + (if dims[|dims| - 1] == -1 then 1 else 0)
  }

  /** The product of the entries of `dims` other than `-1`, each read as a `usize`. */
  function SpecifiedSize(dims: seq<I32>): nat
  {
    if |dims| == 0 then 1
    else SpecifiedSize(dims[..|dims| - 1]) * (if dims[|dims| - 1] == -1 then 1 else AsUsize(dims[|dims| - 1]))
  }

  /** A shape request the scan accepts: no entry below -1 and at most one -1. */
  predicate ValidDims(dims: seq<I32>)
  {
    (forall k :: 0 <= k < |dims| ==> dims[k] >= -1) && NegOnes(dims) <= 1
  }

  /** The requested shape with `-1` replaced by `inferred`. */
  function CompleteShape(dims: seq<I32>, inferred: nat): (r: seq<nat>)
    ensures |r| == |dims|
    ensures forall k :: 0 <= k < |dims| && dims[k] == -1 ==> r[k] == inferred
    ensures forall k :: 0 <= k < |dims| && dims[k] >= 0 ==> r[k] == dims[k]
  {
    seq(|dims|, k requires 0 <= k < |dims| => if dims[k] == -1 then inferred else AsUsize(dims[k]))
  }

  /** The size the `-1` entry stands for, or `None` when the division panics. */
  function InferredSize(len: nat, specified: nat): (r: Option<(nat, nat)>)
    ensures r.None? <==> len > 0 && specified == 0
    ensures len == 0 ==> r == Some((0, 0))
    ensures r.Some? && len > 0 ==> r.value.0 * specified + r.value.1 == len && r.value.1 < specified
  {
    if len == 0 then Some((0, 0))
    else if specified == 0 then None
    else Some((len / specified, len % specified))
  }

  /** Some entry below -1 comes before any second -1, so the scan reports it. */
  predicate BadSizeFirst(dims: seq<I32>)
  {
    exists k :: 0 <= k < |dims| && dims[k] < -1 && NegOnes(dims[..k]) <= 1
  }

  /**
   * The shape reshape produces, or why it fails: the scan's errors in the
   * order it meets them, a panic on dividing by a zero specified size, the
   * divisibility check, then the completed shape, which the tensor's own
   * constructor refuses (a panic) unless it has the input's length.
   */
  function ReshapeShape(len: nat, dims: seq<I32>): (r: Result<seq<nat>, OpError>)
    ensures r.Ok? ==> ValidDims(dims) && Product(r.value) == len && |r.value| == |dims|
    ensures r.Ok? ==> forall k :: 0 <= k < |dims| && dims[k] >= 0 ==> r.value[k] == dims[k]
  {
    if BadSizeFirst(dims) then Err(InvalidValue("Invalid dimension size in shape"))
    else if !ValidDims(dims) then Err(InvalidValue("Multiple dimensions in new shape set to -1"))
    else match InferredSize(len, SpecifiedSize(dims))
      case None => Err(Panic("attempt to divide by zero"))
      case Some((inferred, remainder)) =>
        if remainder != 0 then Err(InvalidValue("Input length must be a multiple of specified dimensions"))
        else if Product(CompleteShape(dims, inferred)) != len then Err(Panic("shape does not match the data length"))
        else Ok(CompleteShape(dims, inferred))
  }

  /**
   * reshape: a scan of the requested dimensions that stops at the first
   * entry below -1 or second -1, accumulating the specified size and the
   * position of the -1, then the division and the new shape.
   */
  method Reshape<T>(input: Tensor<T>, shape: Tensor<I32>) returns (r: Result<Tensor<T>, OpError>)
    requires input.WellFormed()
    ensures r.Ok? <==> ReshapeShape(|input.data|, shape.data).Ok?
    ensures r.Err? ==> r.error == ReshapeShape(|input.data|, shape.data).error
    ensures r.Ok? ==> r.value == Tensor(ReshapeShape(|input.data|, shape.data).value, input.data)
  {
    var dims := shape.data;
    var unspecifiedDim: Option<nat> := None;
    var specifiedDimsSize := 1;
    var k := 0;
    while k < |dims|
      invariant 0 <= k <= |dims|
      invariant ValidDims(dims[..k])
      invariant unspecifiedDim.None? <==> NegOnes(dims[..k]) == 0
      invariant specifiedDimsSize == SpecifiedSize(dims[..k])
    {
      var size := dims[k];
      assert dims[..k + 1][..k] == dims[..k];
      if size < -1 {
        assert BadSizeFirst(dims);
        return Err(InvalidValue("Invalid dimension size in shape"));
      } else if size != -1 {
        specifiedDimsSize := specifiedDimsSize * AsUsize(size);
      } else if unspecifiedDim.Some? {
        SecondNegOne(dims, k);
        return Err(InvalidValue("Multiple dimensions in new shape set to -1"));
      } else {
        unspecifiedDim := Some(k);
      }
      k := k + 1;
    }
    assert dims[..k] == dims;
    NoScanError(dims);
    var inferred := InferredSize(|input.data|, specifiedDimsSize);
    if inferred.None? {
      return Err(Panic("attempt to divide by zero"));
    }
    var (unspecifiedDimSize, remainder) := inferred.value;
    if remainder != 0 {
      return Err(InvalidValue("Input length must be a multiple of specified dimensions"));
    }
    var completeShape := CompleteShape(dims, unspecifiedDimSize);
    if Product(completeShape) != |input.data| {
      return Err(Panic("shape does not match the data length"));
    }
    return Ok(Tensor(completeShape, input.data));
  }

  /** A second -1 met before any entry below -1 makes the shape invalid without a bad size first. */
  lemma SecondNegOne(dims: seq<I32>, k: nat)
    requires k < |dims| && ValidDims(dims[..k]) && dims[k] == -1 && NegOnes(dims[..k]) > 0
    ensures !BadSizeFirst(dims) && !ValidDims(dims)
  {
    assert dims[..k + 1][..k] == dims[..k];
    NegOnesMono(dims, k + 1, |dims|);
    assert dims[..|dims|] == dims;
    forall j | 0 <= j < k ensures dims[j] >= -1 {
      assert dims[..k][j] == dims[j];
    }
    forall j | k < j < |dims| ensures NegOnes(dims[..j]) > 1 {
      NegOnesMono(dims, k + 1, j);
    }
  }

  /** A scan that finishes without error saw no error entry. */
  lemma NoScanError(dims: seq<I32>)
    requires ValidDims(dims)
    ensures !BadSizeFirst(dims)
  {
  }

  /** Counting `-1`s over a longer prefix never gives fewer. */
  lemma {:induction false} NegOnesMono(dims: seq<I32>, i: nat, j: nat)
    requires i <= j <= |dims|
    ensures NegOnes(dims[..i]) <= NegOnes(dims[..j])
    decreases j - i
  {
    if i < j {
      NegOnesMono(dims, i, j - 1);
      assert dims[..j][..j - 1] == dims[..j - 1];
    }
  }

  /** The number of elements of an input tensor of either kind. */
  function InputLen(x: Input): nat
  {
    if x.FloatTensor? then |x.f.data| else |x.i.data|
  }

  /** Reshape::run: a missing input, non-int shape, then reshape on either kind. */
  method ReshapeRun(inputs: seq<Input>) returns (r: Result<Output, OpError>)
    requires WellFormedInputs(inputs)
    ensures |inputs| <= 1 ==> r == Err(MissingInputs)
    ensures |inputs| >= 2 && !inputs[1].IntTensor? ==> r == Err(UnsupportedInputType)
    ensures r.Ok? ==> r.value.FloatTensor? == inputs[0].FloatTensor?
    ensures r.Ok? && inputs[0].FloatTensor? ==> r.value.f.data == inputs[0].f.data && r.value.f.WellFormed()
    ensures r.Ok? && inputs[0].IntTensor? ==> r.value.i.data == inputs[0].i.data && r.value.i.WellFormed()
    ensures |inputs| >= 2 && inputs[1].IntTensor? ==>
      (r.Ok? <==> ReshapeShape(InputLen(inputs[0]), inputs[1].i.data).Ok?) &&
      (r.Err? ==> r.error == ReshapeShape(InputLen(inputs[0]), inputs[1].i.data).error) &&
      (r.Ok? && inputs[0].FloatTensor? ==> r.value.f.shape == ReshapeShape(InputLen(inputs[0]), inputs[1].i.data).value) &&
      (r.Ok? && inputs[0].IntTensor? ==> r.value.i.shape == ReshapeShape(InputLen(inputs[0]), inputs[1].i.data).value)
  {
    if |inputs| == 0 {
      return Err(MissingInputs);
    }
    var shape :- GetInputAsInt(inputs, 1);
    match inputs[0]
    case IntTensor(t) =>
      var out :- Reshape(t, shape);
      return Ok(Output.IntTensor(out));
    case FloatTensor(t) =>
      var out :- Reshape(t, shape);
      return Ok(Output.FloatTensor(out));
  }

  /** The completed shape has the specified size times the inferred one for the `-1`, if any. */
  lemma {:induction false} CompleteShapeProduct(dims: seq<I32>, inferred: nat)
    requires forall k :: 0 <= k < |dims| ==> dims[k] >= -1
    ensures NegOnes(dims) == 0 ==> Product(CompleteShape(dims, inferred)) == SpecifiedSize(dims)
    ensures NegOnes(dims) == 1 ==> Product(CompleteShape(dims, inferred)) == SpecifiedSize(dims) * inferred
  {
    if |dims| > 0 {
      var n := |dims| - 1;
      var init := dims[..n];
      CompleteShapeProduct(init, inferred);
      var last := CompleteShape(dims, inferred)[n];
      var p := Product(CompleteShape(init, inferred));
      var si := SpecifiedSize(init);
      assert CompleteShape(dims, inferred) == CompleteShape(init, inferred) + [last];
      ProductAppend(CompleteShape(init, inferred), [last]);
      assert Product([last]) == last by {
        assert [last][1..] == [];
      }
      assert Product(CompleteShape(dims, inferred)) == p * last;
      if dims[n] == -1 {
        assert SpecifiedSize(dims) == si;
        assert last == inferred;
      } else {
        assert SpecifiedSize(dims) == si * last;
        if NegOnes(init) == 1 {
          assert p == si * inferred;
          MulSwap(si, inferred, last);
        }
      }
    }
  }

  lemma MulSwap(a: nat, b: nat, c: nat)
    ensures a * b * c == a * c * b
  {
  }

  /**
   * The inference succeeds: with exactly one `-1` and a nonzero specified
   * size dividing a nonzero input length, the `-1` becomes
   * `len / specified`.
   */
  lemma ReshapeInfers(len: nat, dims: seq<I32>)
    requires ValidDims(dims) && NegOnes(dims) == 1 && len > 0
    requires SpecifiedSize(dims) > 0 && len % SpecifiedSize(dims) == 0
    ensures ReshapeShape(len, dims) == Ok(CompleteShape(dims, len / SpecifiedSize(dims)))
  {
    var s := SpecifiedSize(dims);
    var q := len / s;
    NoScanError(dims);
    assert InferredSize(len, s) == Some((q, 0));
    CompleteShapeProduct(dims, q);
    DivExact(len, s);
    assert Product(CompleteShape(dims, q)) == len;
  }

  lemma DivExact(len: nat, s: nat)
    requires s > 0 && len % s == 0
    ensures s * (len / s) == len
  {
  }

  /** An empty input gives the `-1` dimension size 0. */
  lemma ReshapeEmpty(dims: seq<I32>)
    requires ValidDims(dims) && NegOnes(dims) == 1
    ensures ReshapeShape(0, dims) == Ok(CompleteShape(dims, 0))
  {
    CompleteShapeProduct(dims, 0);
  }

  /** Without `-1` the reshape succeeds exactly when the requested shape has the input's length. */
  lemma ReshapeExact(len: nat, dims: seq<I32>)
    requires ValidDims(dims) && NegOnes(dims) == 0
    ensures ReshapeShape(len, dims).Ok? <==> SpecifiedSize(dims) == len
  {
    var sp := SpecifiedSize(dims);
    var inferred := InferredSize(len, sp);
    if inferred.Some? {
      CompleteShapeProduct(dims, inferred.value.0);
      if sp == len && len > 0 {
        assert len % len == 0;
      }
    }
  }

  // ---------------------------------------------------------------------
  // Squeeze

  /** `shape` without the dimensions whose positions are in `removed`, in order. */
  function Keep(shape: seq<nat>, removed: set<nat>): (r: seq<nat>)
    ensures |r| <= |shape|
  {
    if |shape| == 0 then []
    else Keep(shape[..|shape| - 1], removed) + (if |shape| - 1 in removed then [] else [shape[|shape| - 1]])
  }

  /** The positions listed in `axes`. */
  function AxisSet(axes: seq<nat>): (r: set<nat>)
    ensures forall d :: d in r <==> d in axes
  {
    set d | d in axes
  }

  /** The positions of the dimensions of size `size`. */
  function DimsOfSize(shape: seq<nat>, size: nat): (r: set<nat>)
    ensures forall d: nat :: d in r <==> d < |shape| && shape[d] == size
  {
    set d: nat | d < |shape| && shape[d] == size
  }

  /**
   * The squeezed shape the operator is meant to give. With `axes`, every
   * listed dimension must have size 1 and is dropped (listed positions past
   * the rank are ignored); without, every dimension of size 1 is dropped.
   */
  function SqueezeOnesShape(shape: seq<nat>, axes: Option<seq<nat>>): (r: Result<seq<nat>, OpError>)
    ensures axes.None? ==> r == Ok(Keep(shape, DimsOfSize(shape, 1)))
    ensures axes.Some? ==> (r.Ok? <==> forall d :: 0 <= d < |shape| && d in axes.value ==> shape[d] == 1)
    ensures axes.Some? && r.Ok? ==> r.value == Keep(shape, AxisSet(axes.value))
    ensures r.Err? ==> r.error == Panic("Can only remove dimensions of size 1")
  {
    match axes
    case None => Ok(Keep(shape, DimsOfSize(shape, 1)))
    case Some(a) =>
      if forall d :: 0 <= d < |shape| && d in a ==> shape[d] == 1 then Ok(Keep(shape, AxisSet(a)))
      else Err(Panic("Can only remove dimensions of size 1"))
  }

  /** The source's filter without axes: only dimensions of size above 1 stay. */
  function SqueezeAllAsWritten(shape: seq<nat>): (r: seq<nat>)
    ensures forall d :: 0 <= d < |r| ==> r[d] > 1
  {
    var removed := set d: nat | d < |shape| && shape[d] <= 1;
    KeepRemovesSmall(shape, removed);
    Keep(shape, removed)
  }

  lemma {:induction false} KeepRemovesSmall(shape: seq<nat>, removed: set<nat>)
    requires forall d :: 0 <= d < |shape| && shape[d] <= 1 ==> d in removed
    ensures forall d :: 0 <= d < |Keep(shape, removed)| ==> Keep(shape, removed)[d] > 1
  {
    if |shape| > 0 {
      KeepRemovesSmall(shape[..|shape| - 1], removed);
    }
  }

  /**
   * The shape filter of `squeeze_in_place`, as written: with `axes` it is
   * the one above, without it keeps only the dimensions of size above 1,
   * so it drops empty dimensions as well as those of size 1.
   */
  function SqueezeShape(shape: seq<nat>, axes: Option<seq<nat>>): (r: Result<seq<nat>, OpError>)
    ensures axes.None? ==> r.Ok? && forall d :: 0 <= d < |r.value| ==> r.value[d] > 1
    ensures axes.Some? ==> r == SqueezeOnesShape(shape, axes)
  {
    match axes
    case None => Ok(SqueezeAllAsWritten(shape))
    case Some(_) => SqueezeOnesShape(shape, axes)
  }

  /**
   * The shape `squeeze_in_place` leaves: the filtered shape, which
   * `Tensor::reshape` refuses when its element count differs from the
   * tensor's.
   */
  function SqueezedShape(shape: seq<nat>, axes: Option<seq<nat>>): (r: Result<seq<nat>, OpError>)
    ensures r.Ok? <==> SqueezeShape(shape, axes).Ok? && Product(SqueezeShape(shape, axes).value) == Product(shape)
    ensures r.Ok? ==> r == SqueezeShape(shape, axes) && Product(r.value) == Product(shape)
  {
    var filtered :- SqueezeShape(shape, axes);
    if Product(filtered) != Product(shape) then Err(Panic("shape does not match the data length")) else Ok(filtered)
  }

  /** A shape with an empty dimension has no elements. */
  lemma {:induction false} ProductHasZero(shape: seq<nat>)
    requires 0 in shape
    ensures Product(shape) == 0
  {
    if shape[0] != 0 {
      ProductHasZero(shape[1..]);
    }
  }

  /** A shape without empty dimensions has at least one element. */
  lemma {:induction false} ProductPositive(shape: seq<nat>)
    requires forall d :: 0 <= d < |shape| ==> shape[d] > 0
    ensures Product(shape) > 0
  {
    if |shape| > 0 {
      ProductPositive(shape[1..]);
      assert Product(shape) == shape[0] * Product(shape[1..]);
    }
  }

  /**
   * Without axes, a tensor with an empty dimension cannot be squeezed as
   * written: the kept dimensions hold at least one element where the tensor
   * has none. Dropping only the dimensions of size 1 succeeds.
   */
  lemma EmptySqueezeFails(shape: seq<nat>)
    requires 0 in shape
    ensures SqueezedShape(shape, None) == Err(Panic("shape does not match the data length"))
    ensures SqueezeOnesShape(shape, None).Ok?
  {
    ProductHasZero(shape);
    ProductPositive(SqueezeAllAsWritten(shape));
  }

  /**
   * Where no dimension is empty, or axes are given, the squeeze as written
   * is the one intended.
   */
  lemma SqueezeAgrees(shape: seq<nat>, axes: Option<seq<nat>>)
    requires axes.Some? || 0 !in shape
    ensures SqueezedShape(shape, axes) == SqueezeOnesShape(shape, axes)
  {
    match axes
    case None =>
      var small := set d: nat | d < |shape| && shape[d] <= 1;
      assert small == DimsOfSize(shape, 1) by {
        forall d: nat ensures d in small <==> d in DimsOfSize(shape, 1) {
          if d < |shape| {
            assert shape[d] != 0;
          }
        }
      }
      KeepOnesProduct(shape, DimsOfSize(shape, 1));
    case Some(a) =>
      if SqueezeOnesShape(shape, axes).Ok? {
        KeepOnesProduct(shape, AxisSet(a));
      }
  }

  /**
   * An empty tensor of shape [0, 3]: the filter as written keeps [3], a
   * shape with 3 elements for no data, so the reshape fails; dropping only
   * size-1 dimensions keeps [0, 3].
   */
  lemma SqueezeDropsEmptyDimension()
    ensures SqueezeShape([0, 3], None) == Ok([3])
    ensures SqueezedShape([0, 3], None).Err?
    ensures SqueezeOnesShape([0, 3], None) == Ok([0, 3])
  {
    assert [0, 3][..1] == [0] && [0][..0] == [];
    assert SqueezeAllAsWritten([0, 3]) == [3] by {
      assert (set d: nat | d < 2 && [0, 3][d] <= 1) == {0};
      assert Keep([0], {0}) == [];
      assert Keep([0, 3], {0}) == [3];
    }
    assert Product([3]) != Product([0, 3]) by {
      assert [3][1..] == [] && [0, 3][1..] == [3];
    }
    assert SqueezeOnesShape([0, 3], None) == Ok([0, 3]) by {
      assert DimsOfSize([0, 3], 1) == {};
      assert Keep([0], {}) == [0];
      assert Keep([0, 3], {}) == [0, 3];
    }
  }

  /** Dropping only dimensions of size 1 keeps the element count. */
  lemma {:induction false} KeepOnesProduct(shape: seq<nat>, removed: set<nat>)
    requires forall d :: 0 <= d < |shape| && d in removed ==> shape[d] == 1
    ensures Product(Keep(shape, removed)) == Product(shape)
  {
    if |shape| > 0 {
      var n := |shape| - 1;
      KeepOnesProduct(shape[..n], removed);
      assert shape == shape[..n] + [shape[n]];
      ProductAppend(shape[..n], [shape[n]]);
      ProductAppend(Keep(shape[..n], removed), if n in removed then [] else [shape[n]]);
      assert Product([shape[n]]) == shape[n] by {
        assert [shape[n]][1..] == [];
      }
    }
  }

  /** A squeeze that succeeds keeps the element count. */
  lemma SqueezeKeepsLength(shape: seq<nat>, axes: Option<seq<nat>>)
    requires SqueezeOnesShape(shape, axes).Ok?
    ensures Product(SqueezeOnesShape(shape, axes).value) == Product(shape)
  {
    match axes
    case None => KeepOnesProduct(shape, DimsOfSize(shape, 1));
    case Some(a) => KeepOnesProduct(shape, AxisSet(a));
  }

  /**
   * squeeze_in_place: the shape loses the squeezed dimensions, the data
   * stays; the reshape panics when the filtered shape has a different
   * element count.
   */
  method SqueezeInPlace<T>(t: MutableTensor<T>, axes: Option<seq<nat>>) returns (r: Result<(), OpError>)
    requires |t.data| == Product(t.shape)
    modifies t
    ensures r.Ok? <==> SqueezedShape(old(t.shape), axes).Ok?
    ensures r.Ok? ==> t.shape == SqueezedShape(old(t.shape), axes).value && t.data == old(t.data)
    ensures r.Err? ==> r == Err(SqueezedShape(old(t.shape), axes).error) && unchanged(t)
  {
    var newShape := SqueezeShape(t.shape, axes);
    if newShape.Err? {
      return Err(newShape.error);
    }
    if Product(newShape.value) != |t.data| {
      return Err(Panic("shape does not match the data length"));
    }
    t.shape := newShape.value;
    return Ok(());
  }

  /** squeeze: squeeze a copy of the input. */
  method Squeeze<T>(input: Tensor<T>, axes: Option<seq<nat>>) returns (r: Result<Tensor<T>, OpError>)
    requires input.WellFormed()
    ensures r.Ok? <==> SqueezedShape(input.shape, axes).Ok?
    ensures r.Ok? ==> r.value.WellFormed() && r.value.data == input.data
    ensures r.Ok? ==> r.value.shape == SqueezedShape(input.shape, axes).value
    ensures r.Ok? && axes.None? ==> forall d :: 0 <= d < |r.value.shape| ==> r.value.shape[d] > 1
    ensures r.Err? ==> r == Err(SqueezedShape(input.shape, axes).error)
  {
    var output := new MutableTensor(input);
    var done := SqueezeInPlace(output, axes);
    if done.Err? {
      return Err(done.error);
    }
    return Ok(output.Value());
  }

  /** Squeeze::run: a copy of the first input, squeezed. */
  method SqueezeRun(axes: Option<seq<nat>>, inputs: seq<Input>) returns (r: Result<Output, OpError>)
    requires WellFormedInputs(inputs)
    ensures |inputs| == 0 ==> r == Err(MissingInputs)
    ensures |inputs| > 0 ==> (r.Ok? <==> SqueezedShape(inputs[0].Shape(), axes).Ok?)
    ensures r.Ok? ==> r.value.FloatTensor? == inputs[0].FloatTensor?
    ensures r.Ok? ==> r.value.AsInput().Shape() == SqueezedShape(inputs[0].Shape(), axes).value
    ensures r.Ok? && inputs[0].FloatTensor? ==> r.value.f.data == inputs[0].f.data
    ensures r.Ok? && inputs[0].IntTensor? ==> r.value.i.data == inputs[0].i.data
  {
    if |inputs| == 0 {
      return Err(MissingInputs);
    }
    match inputs[0]
    case FloatTensor(t) =>
      var out :- Squeeze(t, axes);
      return Ok(Output.FloatTensor(out));
    case IntTensor(t) =>
      var out :- Squeeze(t, axes);
      return Ok(Output.IntTensor(out));
  }

  /** Squeeze::run_in_place: the owned input squeezed in place, with the same outcome as `SqueezeRun`. */
  method SqueezeRunInPlace(axes: Option<seq<nat>>, input: Output) returns (r: Result<Output, OpError>)
    requires InputWellFormed(input.AsInput())
    ensures r.Ok? <==> SqueezedShape(input.AsInput().Shape(), axes).Ok?
    ensures r.Ok? ==> r.value.FloatTensor? == input.FloatTensor?
    ensures r.Ok? ==> r.value.AsInput().Shape() == SqueezedShape(input.AsInput().Shape(), axes).value
    ensures r.Ok? && input.FloatTensor? ==> r.value.f.data == input.f.data
    ensures r.Ok? && input.IntTensor? ==> r.value.i.data == input.i.data
  {
    match input
    case FloatTensor(t) =>
      var buf := new MutableTensor(t);
      var done := SqueezeInPlace(buf, axes);
      if done.Err? {
        return Err(done.error);
      }
      return Ok(Output.FloatTensor(buf.Value()));
    case IntTensor(t) =>
      var buf := new MutableTensor(t);
      var done := SqueezeInPlace(buf, axes);
      if done.Err? {
        return Err(done.error);
      }
      return Ok(Output.IntTensor(buf.Value()));
  }

  /** Without axes, the intended squeeze leaves no dimension of size 1. */
  lemma SqueezeOnesLeavesNone(shape: seq<nat>)
    ensures forall d :: 0 <= d < |SqueezeOnesShape(shape, None).value| ==> SqueezeOnesShape(shape, None).value[d] != 1
  {
    KeepRemovesAll(shape, DimsOfSize(shape, 1), 1);
  }

  /** Dropping every dimension of a given size leaves none of that size. */
  lemma {:induction false} KeepRemovesAll(shape: seq<nat>, removed: set<nat>, size: nat)
    requires forall d :: 0 <= d < |shape| && shape[d] == size ==> d in removed
    ensures forall d :: 0 <= d < |Keep(shape, removed)| ==> Keep(shape, removed)[d] != size
  {
    if |shape| > 0 {
      var n := |shape| - 1;
      KeepRemovesAll(shape[..n], removed, size);
    }
  }

  // ---------------------------------------------------------------------
  // Unsqueeze

  predicate Sorted(s: seq<nat>)
  {
    forall i, j :: 0 <= i < j < |s| ==> s[i] <= s[j]
  }

  function InsertSorted(x: nat, s: seq<nat>): (r: seq<nat>)
    requires Sorted(s)
    ensures Sorted(r) && multiset(r) == multiset(s) + multiset{x}
    ensures forall y :: y in r ==> y == x || y in s
  {
    if |s| == 0 then [x]
    else if x <= s[0] then [x] + s
    else
      var rest := InsertSorted(x, s[1..]);
      assert s == [s[0]] + s[1..];
      ConsSorted(s[0], rest);
      [s[0]] + rest
  }

  lemma ConsSorted(h: nat, rest: seq<nat>)
    requires Sorted(rest) && forall y :: y in rest ==> h <= y
    ensures Sorted([h] + rest)
  {
    var r := [h] + rest;
    forall i, j | 0 <= i < j < |r| ensures r[i] <= r[j] {
      if i > 0 {
        assert r[i] == rest[i - 1] && r[j] == rest[j - 1];
      } else {
        assert r[j] == rest[j - 1] && r[j] in rest;
      }
    }
  }

  /** The axes in ascending order, as the source's `sort` leaves them. */
  function SortAxes(axes: seq<nat>): (r: seq<nat>)
    ensures Sorted(r) && multiset(r) == multiset(axes)
  {
    if |axes| == 0 then []
    else
      assert axes == [axes[0]] + axes[1..];
      InsertSorted(axes[0], SortAxes(axes[1..]))
  }

  /** `shape` with a dimension of size 1 inserted at each of `axes`, in order. */
  function InsertOnes(shape: seq<nat>, axes: seq<nat>): Option<seq<nat>>
  {
    if |axes| == 0 then Some(shape)
    else
      match InsertOnes(shape, axes[..|axes| - 1])
      case None => None
      case Some(s) =>
        var a := axes[|axes| - 1];
        if a <= |s| then Some(s[..a] + [1] + s[a..]) else None
  }

  /**
   * unsqueeze: insert a size-1 dimension at each axis in ascending order; an
   * axis past the current rank makes the insertion panic.
   */
  method Unsqueeze<T>(input: Tensor<T>, axes: seq<nat>) returns (r: Result<Tensor<T>, OpError>)
    requires input.WellFormed()
    ensures r.Ok? <==> InsertOnes(input.shape, SortAxes(axes)).Some?
    ensures r.Ok? ==> r.value.shape == InsertOnes(input.shape, SortAxes(axes)).value
    ensures r.Ok? ==> r.value.WellFormed() && r.value.data == input.data
  {
    var newShape := input.shape;
    var sortedAxes := SortAxes(axes);
    var k := 0;
    while k < |sortedAxes|
      invariant 0 <= k <= |sortedAxes|
      invariant InsertOnes(input.shape, sortedAxes[..k]) == Some(newShape)
      invariant Product(newShape) == Product(input.shape)
    {
      var axis := sortedAxes[k];
      assert sortedAxes[..k + 1][..k] == sortedAxes[..k];
      if axis > |newShape| {
        InsertOnesFails(input.shape, sortedAxes, k + 1);
        return Err(Panic("insertion index should be <= len"));
      }
      InsertOneProduct(newShape, axis);
      newShape := newShape[..axis] + [1] + newShape[axis..];
      k := k + 1;
    }
    assert sortedAxes[..k] == sortedAxes;
    return Ok(Tensor(newShape, input.data));
  }

  /** Inserting a dimension of size 1 keeps the element count. */
  lemma InsertOneProduct(s: seq<nat>, a: nat)
    requires a <= |s|
    ensures Product(s[..a] + [1] + s[a..]) == Product(s)
  {
    var x, y := s[..a], s[a..];
    ProductSnoc(x, 1);
    ProductAppend(x + [1], y);
    ProductAppend(x, y);
    assert x + y == s;
  }

  /** Unsqueeze::run: a copy of the first input with the size-1 dimensions inserted. */
  method UnsqueezeRun(axes: seq<nat>, inputs: seq<Input>) returns (r: Result<Output, OpError>)
    requires WellFormedInputs(inputs)
    ensures |inputs| == 0 ==> r == Err(MissingInputs)
    ensures |inputs| > 0 ==> (r.Ok? <==> InsertOnes(inputs[0].Shape(), SortAxes(axes)).Some?)
    ensures r.Ok? ==> r.value.FloatTensor? == inputs[0].FloatTensor?
    ensures r.Ok? ==> r.value.AsInput().Shape() == InsertOnes(inputs[0].Shape(), SortAxes(axes)).value
    ensures r.Ok? && inputs[0].FloatTensor? ==> r.value.f.data == inputs[0].f.data
    ensures r.Ok? && inputs[0].IntTensor? ==> r.value.i.data == inputs[0].i.data
  {
    if |inputs| == 0 {
      return Err(MissingInputs);
    }
    match inputs[0]
    case FloatTensor(t) =>
      var out :- Unsqueeze(t, axes);
      return Ok(Output.FloatTensor(out));
    case IntTensor(t) =>
      var out :- Unsqueeze(t, axes);
      return Ok(Output.IntTensor(out));
  }

  /** A failed insertion fails every longer run. */
  lemma {:induction false} InsertOnesFails(shape: seq<nat>, axes: seq<nat>, k: nat)
    requires 0 < k <= |axes| && InsertOnes(shape, axes[..k]).None?
    ensures InsertOnes(shape, axes).None?
    decreases |axes| - k
  {
    if k < |axes| {
      assert axes[..k + 1][..k] == axes[..k];
      InsertOnesFails(shape, axes, k + 1);
    } else {
      assert axes[..k] == axes;
    }
  }

  /** The axes are distinct and each is below the output rank, as the ONNX definition requires. */
  predicate ValidUnsqueezeAxes(rank: nat, axes: seq<nat>)
  {
    (forall i, j :: 0 <= i < j < |axes| ==> axes[i] != axes[j]) &&
    forall i :: 0 <= i < |axes| ==> axes[i] < rank + |axes|
  }

  predicate StrictlyIncreasing(s: seq<nat>)
  {
    forall i, j :: 0 <= i < j < |s| ==> s[i] < s[j]
  }

  /**
   * Unsqueeze then Squeeze on the same axes is the identity on the shape:
   * the inserted dimensions are exactly the listed positions, each of size 1.
   */
  lemma SqueezeUnsqueeze(shape: seq<nat>, axes: seq<nat>)
    requires ValidUnsqueezeAxes(|shape|, axes)
    ensures InsertOnes(shape, SortAxes(axes)).Some?
    ensures SqueezedShape(InsertOnes(shape, SortAxes(axes)).value, Some(axes)) == Ok(shape)
  {
    var sorted := SortAxes(axes);
    StrictlySorted(axes, sorted);
    forall i | 0 <= i < |sorted| ensures sorted[i] < |shape| + |sorted| {
      assert sorted[i] in AxisSet(axes);
      var k :| 0 <= k < |axes| && axes[k] == sorted[i];
    }
    forall j | 0 <= j < |sorted| ensures sorted[j] <= |shape| + j {
      Headroom(sorted, j, |shape|);
    }
    InsertOnesKeep(shape, sorted, |sorted|);
    assert sorted[..|sorted|] == sorted;
    assert AxisSet(axes) == AxisSet(sorted);
    SqueezeAgrees(InsertOnes(shape, sorted).value, Some(axes));
  }

  /** A sorted permutation of distinct values increases strictly and has the same members. */
  lemma StrictlySorted(axes: seq<nat>, sorted: seq<nat>)
    requires forall i, j :: 0 <= i < j < |axes| ==> axes[i] != axes[j]
    requires Sorted(sorted) && multiset(sorted) == multiset(axes)
    ensures StrictlyIncreasing(sorted) && |sorted| == |axes|
    ensures AxisSet(sorted) == AxisSet(axes)
  {
    assert |sorted| == |multiset(sorted)| == |multiset(axes)| == |axes|;
    forall d ensures d in sorted <==> d in axes {
      assert d in sorted <==> d in multiset(sorted);
      assert d in axes <==> d in multiset(axes);
    }
    forall i, j | 0 <= i < j < |sorted| ensures sorted[i] < sorted[j] {
      if sorted[i] == sorted[j] {
        DistinctCount(axes, sorted[i]);
        TwoOccurrences(sorted, i, j);
      }
    }
  }

  lemma DistinctCount(axes: seq<nat>, x: nat)
    requires forall i, j :: 0 <= i < j < |axes| ==> axes[i] != axes[j]
    ensures multiset(axes)[x] <= 1
  {
    if |axes| > 0 {
      assert axes == [axes[0]] + axes[1..];
      DistinctCount(axes[1..], x);
      if axes[0] == x {
        assert x !in axes[1..];
      }
    }
  }

  lemma TwoOccurrences(s: seq<nat>, i: nat, j: nat)
    requires i < j < |s| && s[i] == s[j]
    ensures multiset(s)[s[i]] >= 2
  {
    assert s == s[..j] + [s[j]] + s[j + 1..];
    assert s[..j] == s[..i] + [s[i]] + s[i + 1..j];
  }

  /** In a strictly increasing sequence below `bound + |s|`, entry `j` is at most `bound + j`. */
  lemma {:induction false} Headroom(s: seq<nat>, j: nat, bound: nat)
    requires j < |s| && StrictlyIncreasing(s)
    requires forall i :: 0 <= i < |s| ==> s[i] < bound + |s|
    ensures s[j] <= bound + j
    decreases |s| - j
  {
    if j + 1 < |s| {
      Headroom(s, j + 1, bound);
    }
  }

  /**
   * After inserting at the first `k` strictly increasing axes, each of them
   * holds a 1 and removing them gives back `shape`.
   */
  lemma {:induction false} InsertOnesKeep(shape: seq<nat>, sorted: seq<nat>, k: nat)
    requires k <= |sorted| && StrictlyIncreasing(sorted)
    requires forall j :: 0 <= j < |sorted| ==> sorted[j] <= |shape| + j
    ensures InsertOnes(shape, sorted[..k]).Some?
    ensures |InsertOnes(shape, sorted[..k]).value| == |shape| + k
    ensures forall j :: 0 <= j < k ==> InsertOnes(shape, sorted[..k]).value[sorted[j]] == 1
    ensures Keep(InsertOnes(shape, sorted[..k]).value, AxisSet(sorted[..k])) == shape
  {
    if k == 0 {
      KeepNone(shape);
    } else {
      InsertOnesKeep(shape, sorted, k - 1);
      var prefix := sorted[..k - 1];
      assert sorted[..k][..k - 1] == prefix;
      var u := InsertOnes(shape, prefix).value;
      var a := sorted[k - 1];
      assert InsertOnes(shape, sorted[..k]) == Some(u[..a] + [1] + u[a..]);
      var removed := AxisSet(prefix);
      forall d | d in removed ensures d < a {
        var j :| 0 <= j < k - 1 && prefix[j] == d;
      }
      assert AxisSet(sorted[..k]) == removed + {a};
      KeepInsert(u, a, removed);
    }
  }

  lemma {:induction false} KeepNone(shape: seq<nat>)
    ensures Keep(shape, AxisSet([])) == shape
  {
    if |shape| > 0 {
      KeepNone(shape[..|shape| - 1]);
    }
  }

  /** Inserting a 1 past every removed position and removing it as well leaves the kept dimensions alone. */
  lemma KeepInsert(u: seq<nat>, a: nat, removed: set<nat>)
    requires a <= |u| && forall d :: d in removed ==> d < a
    ensures Keep(u[..a] + [1] + u[a..], removed + {a}) == Keep(u, removed)
  {
    var x, y := u[..a], u[a..];
    var withOne := x + [1];
    assert withOne[..|withOne| - 1] == x;
    assert Keep(withOne, removed + {a}) == Keep(x, removed + {a});
    KeepAbove(x, removed, a);
    KeepTail(withOne, y, removed + {a});
    KeepTail(x, y, removed);
    assert x + y == u;
    assert u[..a] + [1] + u[a..] == withOne + y;
  }

  /** Positions past the end of `x` do not matter. */
  lemma {:induction false} KeepAbove(x: seq<nat>, removed: set<nat>, a: nat)
    requires a >= |x|
    ensures Keep(x, removed + {a}) == Keep(x, removed)
  {
    if |x| > 0 {
      KeepAbove(x[..|x| - 1], removed, a);
    }
  }

  /** Removing only positions inside `x` leaves a tail appended to it untouched. */
  lemma {:induction false} KeepTail(x: seq<nat>, y: seq<nat>, removed: set<nat>)
    requires forall d :: d in removed ==> d < |x|
    ensures Keep(x + y, removed) == Keep(x, removed) + y
  {
    if |y| > 0 {
      var n := |y| - 1;
      KeepTail(x, y[..n], removed);
      assert (x + y)[..|x + y| - 1] == x + y[..n];
      assert y[..n] + [y[n]] == y;
    } else {
      assert x + y == x;
    }
  }
}
