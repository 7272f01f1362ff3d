/**
 * The reference image operators of `src/ops.rs`, which work on tensors laid
 * out as height, width, channels (HWC): the output shapes and channel checks
 * of the two convolutions, max pooling, spatial zero padding and a
 * two-input concatenation. Kernels are laid out as height, width, output
 * channels, input channels.
 *
 * These functions panic rather than return errors; a panic is an `Err` of
 * `Panic` here. The tensors hold `f32`; the convolutions' sums of products
 * are not modelled, only their shapes.
 */
module HwcOps {
  import opened Wrappers
  import opened Tensors
  import OpsPad
  import OpsConcat

  /** The panics of these operators. */
  datatype Panic =
    | ChannelMismatch(inChannels: nat, kernelChannels: nat)
    | SubtractOverflow
    | DivideByZero
    | RankMismatch
    | DimOutOfRange(dim: nat, ndim: nat)
    | ShapeMismatch

  /** `a - b` on `usize`, which panics when `b` is larger. */
  function Sub(a: nat, b: nat): (r: Result<nat, Panic>)
    ensures r.Ok? <==> b <= a
    ensures r.Ok? ==> r.value + b == a
    ensures r.Err? ==> r.error == SubtractOverflow
  {
    if b > a then Err(SubtractOverflow) else Ok(a - b)
  }

  // ---------------------------------------------------------------------------
  // Convolution shapes
  // ---------------------------------------------------------------------------

  /**
   * The output shape of `conv_2d`. The input channels must match the
   * kernel's; `in - k` is taken before the padding is added, so a kernel
   * larger than the unpadded input overflows.
   */
  function Conv2dShape(input: seq<nat>, kernel: seq<nat>, padH: nat, padW: nat): (r: Result<seq<nat>, Panic>)
    requires |input| == 3 && |kernel| == 4
    ensures input[2] != kernel[3] ==> r == Err(ChannelMismatch(input[2], kernel[3]))
    ensures r.Ok? <==> input[2] == kernel[3] && kernel[0] <= input[0] && kernel[1] <= input[1]
    ensures r.Err? && input[2] == kernel[3] ==> r.error == SubtractOverflow
    ensures r.Ok? ==>
      (|r.value| == 3 && r.value[2] == kernel[2] &&
       r.value[0] + kernel[0] == input[0] + 2 * padH + 1 && r.value[1] + kernel[1] == input[1] + 2 * padW + 1)
  {
    if input[2] != kernel[3] then Err(ChannelMismatch(input[2], kernel[3]))
    else
      var dh :- Sub(input[0], kernel[0]);
      var dw :- Sub(input[1], kernel[1]);
      Ok([dh + 1 + 2 * padH, dw + 1 + 2 * padW, kernel[2]])
  }

  /**
   * The output shape `conv_2d` evidently intends: one output position for
   * every placement of the kernel inside the padded input.
   */
  function Conv2dShapePadded(input: seq<nat>, kernel: seq<nat>, padH: nat, padW: nat): (r: Result<seq<nat>, Panic>)
    requires |input| == 3 && |kernel| == 4
    ensures input[2] != kernel[3] ==> r == Err(ChannelMismatch(input[2], kernel[3]))
    ensures r.Ok? <==> input[2] == kernel[3] && kernel[0] <= input[0] + 2 * padH && kernel[1] <= input[1] + 2 * padW
    ensures r.Ok? ==>
      (|r.value| == 3 && r.value[2] == kernel[2] &&
       r.value[0] + kernel[0] == input[0] + 2 * padH + 1 && r.value[1] + kernel[1] == input[1] + 2 * padW + 1)
  {
    if input[2] != kernel[3] then Err(ChannelMismatch(input[2], kernel[3]))
    else
      var dh :- Sub(input[0] + 2 * padH, kernel[0]);
      var dw :- Sub(input[1] + 2 * padW, kernel[1]);
      Ok([dh + 1, dw + 1, kernel[2]])
  }

  /** Where `conv_2d` computes a shape, it is the intended one. */
  lemma Conv2dShapeAgrees(input: seq<nat>, kernel: seq<nat>, padH: nat, padW: nat)
    requires |input| == 3 && |kernel| == 4
    ensures Conv2dShape(input, kernel, padH, padW).Ok? ==>
      Conv2dShape(input, kernel, padH, padW) == Conv2dShapePadded(input, kernel, padH, padW)
  {
    var r := Conv2dShape(input, kernel, padH, padW);
    if r.Ok? {
      var q := Conv2dShapePadded(input, kernel, padH, padW);
      assert r.value == [r.value[0], r.value[1], r.value[2]];
      assert q.value == [q.value[0], q.value[1], q.value[2]];
    }
  }

  /** A 3x3 kernel with one pixel of padding over a 1x1 image: `conv_2d` overflows. */
  lemma PaddedKernelOverflows()
    ensures Conv2dShape([1, 1, 1], [3, 3, 1, 1], 1, 1) == Err(SubtractOverflow)
    ensures Conv2dShapePadded([1, 1, 1], [3, 3, 1, 1], 1, 1) == Ok([1, 1, 1])
  {
    var q := Conv2dShapePadded([1, 1, 1], [3, 3, 1, 1], 1, 1);
    assert q.value == [q.value[0], q.value[1], q.value[2]];
  }

  /** An odd kernel of size `2p + 1` with padding `p` keeps the image size. */
  lemma SamePadding(h: nat, w: nat, c: nat, outC: nat, p: nat)
    requires 2 * p + 1 <= h && 2 * p + 1 <= w
    ensures Conv2dShape([h, w, c], [2 * p + 1, 2 * p + 1, outC, c], p, p) == Ok([h, w, outC])
  {
    var r := Conv2dShape([h, w, c], [2 * p + 1, 2 * p + 1, outC, c], p, p);
    assert r.value == [r.value[0], r.value[1], r.value[2]];
  }

  /**
   * The output shape of `conv_transpose_2d`: `(in - 1) * stride + k` in each
   * spatial dimension, which panics on an empty input.
   */
  function ConvTranspose2dShape(input: seq<nat>, kernel: seq<nat>, stride: nat): (r: Result<seq<nat>, Panic>)
    requires |input| == 3 && |kernel| == 4
    ensures input[2] != kernel[3] ==> r == Err(ChannelMismatch(input[2], kernel[3]))
    ensures r.Ok? <==> input[2] == kernel[3] && input[0] > 0 && input[1] > 0
    ensures r.Err? && input[2] == kernel[3] ==> r.error == SubtractOverflow
    ensures r.Ok? ==> |r.value| == 3 && r.value[2] == kernel[2]
  {
    if input[2] != kernel[3] then Err(ChannelMismatch(input[2], kernel[3]))
    else
      var lastY :- Sub(input[0], 1);
      var lastX :- Sub(input[1], 1);
      Ok([lastY * stride + kernel[0], lastX * stride + kernel[1], kernel[2]])
  }

  /**
   * Every write of `conv_transpose_2d`, at `(y * stride + ky, x * stride + kx)`,
   * lands inside the output, and the last input pixel with the last kernel
   * row and column writes the last output row and column.
   */
  lemma ConvTransposeWritesInside(input: seq<nat>, kernel: seq<nat>, stride: nat, y: nat, ky: nat, x: nat, kx: nat)
    requires |input| == 3 && |kernel| == 4
    requires ConvTranspose2dShape(input, kernel, stride).Ok?
    requires y < input[0] && ky < kernel[0] && x < input[1] && kx < kernel[1]
    ensures var out := ConvTranspose2dShape(input, kernel, stride).value;
      y * stride + ky < out[0] && x * stride + kx < out[1] &&
      (input[0] - 1) * stride + kernel[0] - 1 == out[0] - 1 && (input[1] - 1) * stride + kernel[1] - 1 == out[1] - 1
  {
    MulMono(y, input[0] - 1, stride);
    MulMono(x, input[1] - 1, stride);
  }

  /**
   * With stride 1, a convolution without padding undoes the shape change of
   * a transposed convolution by the mirrored kernel.
   */
  lemma ConvUndoesTranspose(h: nat, w: nat, c: nat, kh: nat, kw: nat, outC: nat)
    requires h > 0 && w > 0
    ensures ConvTranspose2dShape([h, w, c], [kh, kw, outC, c], 1) == Ok([h - 1 + kh, w - 1 + kw, outC])
    ensures Conv2dShape([h - 1 + kh, w - 1 + kw, outC], [kh, kw, c, outC], 0, 0) == Ok([h, w, c])
  {
    var t := ConvTranspose2dShape([h, w, c], [kh, kw, outC, c], 1);
    var r := Conv2dShape([h - 1 + kh, w - 1 + kw, outC], [kh, kw, c, outC], 0, 0);
    assert r.value == [r.value[0], r.value[1], r.value[2]];
  }

  // ---------------------------------------------------------------------------
  // Max pooling
  // ---------------------------------------------------------------------------

  /** The output shape of `max_pool_2d`: whole windows only; a zero kernel divides by zero. */
  function MaxPool2dShape(input: seq<nat>, k: nat): (r: Result<seq<nat>, Panic>)
    requires |input| == 3
    ensures r.Err? <==> k == 0
    ensures r.Err? ==> r.error == DivideByZero
    ensures r.Ok? ==> |r.value| == 3 && r.value[2] == input[2]
    ensures r.Ok? ==> r.value[0] * k <= input[0] < (r.value[0] + 1) * k
    ensures r.Ok? ==> r.value[1] * k <= input[1] < (r.value[1] + 1) * k
  {
    if k == 0 then Err(DivideByZero)
    else
      var oh: nat := input[0] / k;
      var ow: nat := input[1] / k;
      WholeWindows(input[0], k);
      WholeWindows(input[1], k);
      var shape: seq<nat> := [oh, ow, input[2]];
      Ok(shape)
  }

  lemma WholeWindows(n: nat, k: nat)
    requires k > 0
    ensures (n / k) * k <= n < (n / k + 1) * k
  {
    assert n == (n / k) * k + n % k && 0 <= n % k < k;
    assert (n / k + 1) * k == (n / k) * k + k;
  }

  /** Window row `o * k + d` of output row `o < n / k` lies inside the input. */
  lemma WindowInBounds(n: nat, k: nat, o: nat, d: nat)
    requires k > 0 && o < n / k && d < k
    ensures o * k + d < n && o < n
  {
    var q := n / k;
    assert q * k <= n by { WholeWindows(n, k); }
    assert (o + 1) * k <= q * k by { MulMono(o + 1, q, k); }
    assert (o + 1) * k == o * k + k;
    assert o <= o * k by { MulMono(1, k, o); }
  }

  /** Rust's `f32::max`: a NaN operand gives way to the other one. */
  function MaxF32(a: F32, b: F32): (r: F32)
    ensures r == a || r == b
    ensures r.NaN? <==> a.NaN? && b.NaN?
    ensures r.Num? ==> (a.Num? ==> a.value <= r.value) && (b.Num? ==> b.value <= r.value)
  {
    if a.NaN? then b else if b.NaN? then a else if a.value < b.value then b else a
  }

  /** An HWC tensor. */
  predicate Hwc(input: Tensor<F32>)
  {
    input.WellFormed() && |input.shape| == 3
  }

  /** Output cell `(oy, ox)` in channel `ch` of a pooling with kernel `k`. */
  predicate PoolCell(input: Tensor<F32>, k: nat, oy: nat, ox: nat, ch: nat)
  {
    Hwc(input) && k > 0 && oy < input.shape[0] / k && ox < input.shape[1] / k && ch < input.shape[2]
  }

  /** Element `(dy, dx)` of the window of an output cell. */
  function WindowAt(input: Tensor<F32>, k: nat, oy: nat, ox: nat, ch: nat, dy: nat, dx: nat): F32
    requires PoolCell(input, k, oy, ox, ch) && dy < k && dx < k
  {
    WindowInBounds(input.shape[0], k, oy, dy);
    WindowInBounds(input.shape[1], k, ox, dx);
    At(input, [oy * k + dy, ox * k + dx, ch])
  }

  /** `acc` combined with the first `n` elements of window row `dy`. */
  function RowMax(input: Tensor<F32>, k: nat, oy: nat, ox: nat, ch: nat, acc: F32, dy: nat, n: nat): F32
    requires PoolCell(input, k, oy, ox, ch) && dy < k && n <= k
  {
    if n == 0 then acc else MaxF32(RowMax(input, k, oy, ox, ch, acc, dy, n - 1), WindowAt(input, k, oy, ox, ch, dy, n - 1))
  }

  /** `acc` combined with the first `rows` rows of the window, row by row. */
  function RowsMax(input: Tensor<F32>, k: nat, oy: nat, ox: nat, ch: nat, acc: F32, rows: nat): F32
    requires PoolCell(input, k, oy, ox, ch) && rows <= k
  {
    if rows == 0 then acc else RowMax(input, k, oy, ox, ch, RowsMax(input, k, oy, ox, ch, acc, rows - 1), rows - 1, k)
  }

  /** `r` is at least `v` when `v` is a number (and then `r` is a number too). */
  predicate AtLeast(r: F32, v: F32)
  {
    v.Num? ==> r.Num? && v.value <= r.value
  }

  /** Folding `MaxF32` along a row: one of the elements or `acc`, and at least each of them. */
  lemma {:induction false} RowMaxIs(input: Tensor<F32>, k: nat, oy: nat, ox: nat, ch: nat, acc: F32, dy: nat, n: nat)
    requires PoolCell(input, k, oy, ox, ch) && dy < k && n <= k
    ensures var r := RowMax(input, k, oy, ox, ch, acc, dy, n);
      (r == acc || exists dx: nat :: dx < n && r == WindowAt(input, k, oy, ox, ch, dy, dx)) &&
      AtLeast(r, acc) && forall dx: nat :: dx < n ==> AtLeast(r, WindowAt(input, k, oy, ox, ch, dy, dx))
  {
    if n > 0 {
      RowMaxIs(input, k, oy, ox, ch, acc, dy, n - 1);
    }
  }

  /** Folding `MaxF32` over whole rows: one of the elements or `acc`, and at least each of them. */
  lemma {:induction false} RowsMaxIs(input: Tensor<F32>, k: nat, oy: nat, ox: nat, ch: nat, acc: F32, rows: nat)
    requires PoolCell(input, k, oy, ox, ch) && rows <= k
    ensures var r := RowsMax(input, k, oy, ox, ch, acc, rows);
      (r == acc || exists dy: nat, dx: nat :: dy < rows && dx < k && r == WindowAt(input, k, oy, ox, ch, dy, dx)) &&
      AtLeast(r, acc) && forall dy: nat, dx: nat :: dy < rows && dx < k ==> AtLeast(r, WindowAt(input, k, oy, ox, ch, dy, dx))
  {
    if rows > 0 {
      var before := RowsMax(input, k, oy, ox, ch, acc, rows - 1);
      RowsMaxIs(input, k, oy, ox, ch, acc, rows - 1);
      RowMaxIs(input, k, oy, ox, ch, before, rows - 1, k);
    }
  }

  /**
   * The value `max_pool_2d` evidently intends for an output cell: the
   * maximum of its window, starting from the window's first element.
   */
  function MaxPoolCell(input: Tensor<F32>, k: nat, oy: nat, ox: nat, ch: nat): F32
    requires PoolCell(input, k, oy, ox, ch)
  {
    RowsMax(input, k, oy, ox, ch, WindowAt(input, k, oy, ox, ch, 0, 0), k)
  }

  /**
   * The value `max_pool_2d` computes: it starts from the input element at
   * `(oy, ox)`, which lies outside the window unless `oy` and `ox` are 0 or
   * `k` is 1.
   */
  function MaxPoolCellAsWritten(input: Tensor<F32>, k: nat, oy: nat, ox: nat, ch: nat): F32
    requires PoolCell(input, k, oy, ox, ch)
  {
    WindowInBounds(input.shape[0], k, oy, 0);
    WindowInBounds(input.shape[1], k, ox, 0);
    RowsMax(input, k, oy, ox, ch, At(input, [oy, ox, ch]), k)
  }

  /**
   * The intended cell is the window's maximum: an element of the window, at
   * least every number in it, and NaN only when the whole window is NaN.
   */
  lemma MaxPoolCellIsMax(input: Tensor<F32>, k: nat, oy: nat, ox: nat, ch: nat)
    requires PoolCell(input, k, oy, ox, ch)
    ensures var r := MaxPoolCell(input, k, oy, ox, ch);
      (exists dy: nat, dx: nat :: dy < k && dx < k && r == WindowAt(input, k, oy, ox, ch, dy, dx)) &&
      (forall dy: nat, dx: nat :: dy < k && dx < k ==> AtLeast(r, WindowAt(input, k, oy, ox, ch, dy, dx))) &&
      (r.NaN? <==> forall dy: nat, dx: nat :: dy < k && dx < k ==> WindowAt(input, k, oy, ox, ch, dy, dx).NaN?)
  {
    RowsMaxIs(input, k, oy, ox, ch, WindowAt(input, k, oy, ox, ch, 0, 0), k);
  }

  /**
   * The computed cell is the maximum of the window and the stray element at
   * `(oy, ox)`.
   */
  lemma MaxPoolCellAsWrittenIsMax(input: Tensor<F32>, k: nat, oy: nat, ox: nat, ch: nat)
    requires PoolCell(input, k, oy, ox, ch)
    ensures oy < input.shape[0] && ox < input.shape[1]
    ensures var r := MaxPoolCellAsWritten(input, k, oy, ox, ch);
      (r == At(input, [oy, ox, ch]) || exists dy: nat, dx: nat :: dy < k && dx < k && r == WindowAt(input, k, oy, ox, ch, dy, dx)) &&
      AtLeast(r, At(input, [oy, ox, ch])) &&
      (forall dy: nat, dx: nat :: dy < k && dx < k ==> AtLeast(r, WindowAt(input, k, oy, ox, ch, dy, dx)))
  {
    WindowInBounds(input.shape[0], k, oy, 0);
    WindowInBounds(input.shape[1], k, ox, 0);
    RowsMaxIs(input, k, oy, ox, ch, At(input, [oy, ox, ch]), k);
  }

  /**
   * Counterexample: pooling with `k = 2` where a 9 at `(1, 1)` belongs to
   * the first window only. The computed cell `(1, 1)` picks it up although
   * its window holds only zeros.
   */
  lemma MaxPoolReadsOutsideWindowAt(input: Tensor<F32>)
    requires Hwc(input) && input.shape == [4, 4, 1]
    requires At(input, [1, 1, 0]) == Num(9.0)
    requires forall y: nat, x: nat :: 2 <= y < 4 && 2 <= x < 4 ==> At(input, [y, x, 0]) == Num(0.0)
    ensures PoolCell(input, 2, 1, 1, 0)
    ensures MaxPoolCellAsWritten(input, 2, 1, 1, 0) == Num(9.0)
    ensures MaxPoolCell(input, 2, 1, 1, 0) == Num(0.0)
  {
    assert PoolCell(input, 2, 1, 1, 0);
    forall dy: nat, dx: nat | dy < 2 && dx < 2
      ensures WindowAt(input, 2, 1, 1, 0, dy, dx) == Num(0.0)
    {
      assert At(input, [1 * 2 + dy, 1 * 2 + dx, 0]) == Num(0.0);
    }
    MaxPoolCellIsMax(input, 2, 1, 1, 0);
    MaxPoolCellAsWrittenIsMax(input, 2, 1, 1, 0);
  }

  /** The same on a concrete 4x4 single-channel image. */
  lemma MaxPoolReadsOutsideWindow()
    ensures var input := Tensor([4, 4, 1], seq(16, i => if i == 5 then Num(9.0) else Num(0.0)));
      PoolCell(input, 2, 1, 1, 0) &&
      MaxPoolCellAsWritten(input, 2, 1, 1, 0) == Num(9.0) && MaxPoolCell(input, 2, 1, 1, 0) == Num(0.0)
  {
    var input := Tensor([4, 4, 1], seq(16, i => if i == 5 then Num(9.0) else Num(0.0)));
    assert Hwc(input);
    assert Offset([4, 4, 1], [1, 1, 0]) == 5;
    forall y: nat, x: nat | 2 <= y < 4 && 2 <= x < 4
      ensures At(input, [y, x, 0]) == Num(0.0)
    {
      assert Offset([4, 4, 1], [y, x, 0]) == y * 4 + x;
    }
    MaxPoolReadsOutsideWindowAt(input);
  }

  /** Cells of the output buffer in row-major order before `(oy, ox, ch)`. */
  predicate Earlier(y: nat, x: nat, c: nat, oy: nat, ox: nat, ch: nat)
  {
    y < oy || (y == oy && (x < ox || (x == ox && c < ch)))
  }

  /** The pooling output holds the computed cells before `(oy, ox, ch)` and zero after. */
  ghost predicate PoolFilled(output: array3<F32>, input: Tensor<F32>, k: nat, oy: nat, ox: nat, ch: nat)
    reads output
  {
    Hwc(input) && k > 0 &&
    output.Length0 == input.shape[0] / k && output.Length1 == input.shape[1] / k && output.Length2 == input.shape[2] &&
    forall y: nat, x: nat, c: nat :: y < output.Length0 && x < output.Length1 && c < output.Length2 ==>
      output[y, x, c] == (if Earlier(y, x, c, oy, ox, ch) then MaxPoolCellAsWritten(input, k, y, x, c) else Num(0.0))
  }

  /** The two window loops of `max_pool_2d` for one output cell. */
  method PoolWindow(input: Tensor<F32>, k: nat, oy: nat, ox: nat, ch: nat) returns (maxVal: F32)
    requires PoolCell(input, k, oy, ox, ch)
    ensures maxVal == MaxPoolCellAsWritten(input, k, oy, ox, ch)
  {
    WindowInBounds(input.shape[0], k, oy, 0);
    WindowInBounds(input.shape[1], k, ox, 0);
    var init := At(input, [oy, ox, ch]);
    maxVal := init;
    for dy := 0 to k
      invariant maxVal == RowsMax(input, k, oy, ox, ch, init, dy)
    {
      for dx := 0 to k
        invariant maxVal == RowMax(input, k, oy, ox, ch, RowsMax(input, k, oy, ox, ch, init, dy), dy, dx)
      {
        WindowInBounds(input.shape[0], k, oy, dy);
        WindowInBounds(input.shape[1], k, ox, dx);
        var val := At(input, [oy * k + dy, ox * k + dx, ch]);
        maxVal := MaxF32(maxVal, val);
      }
    }
  }

  /** The channel loop of `max_pool_2d` for output position `(oy, ox)`. */
  method PoolChannels(output: array3<F32>, input: Tensor<F32>, k: nat, oy: nat, ox: nat)
    requires PoolFilled(output, input, k, oy, ox, 0) && oy < output.Length0 && ox < output.Length1
    modifies output
    ensures PoolFilled(output, input, k, oy, ox, output.Length2)
  {
    for ch := 0 to output.Length2
      invariant PoolFilled(output, input, k, oy, ox, ch)
    {
      var maxVal := PoolWindow(input, k, oy, ox, ch);
      output[oy, ox, ch] := maxVal;
    }
  }

  /**
   * `max_pool_2d` as written: every whole window of the input, channel by
   * channel, into a zeroed output buffer.
   */
  method MaxPool2d(input: Tensor<F32>, k: nat) returns (r: Result<array3<F32>, Panic>)
    requires Hwc(input)
    ensures r.Err? <==> k == 0
    ensures r.Err? ==> r.error == DivideByZero
    ensures r.Ok? ==>
      (fresh(r.value) &&
       r.value.Length0 == input.shape[0] / k && r.value.Length1 == input.shape[1] / k && r.value.Length2 == input.shape[2])
    ensures r.Ok? ==>
      forall y: nat, x: nat, c: nat :: y < r.value.Length0 && x < r.value.Length1 && c < r.value.Length2 ==>
        PoolCell(input, k, y, x, c) && r.value[y, x, c] == MaxPoolCellAsWritten(input, k, y, x, c)
  {
    if k == 0 {
      return Err(DivideByZero);
    }
    var outH, outW, chans := input.shape[0] / k, input.shape[1] / k, input.shape[2];
    var output := new F32[outH, outW, chans]((_, _, _) => Num(0.0));
    for oy := 0 to outH
      invariant PoolFilled(output, input, k, oy, 0, 0)
    {
      for ox := 0 to outW
        invariant PoolFilled(output, input, k, oy, ox, 0)
      {
        PoolChannels(output, input, k, oy, ox);
      }
    }
    r := Ok(output);
  }

  // ---------------------------------------------------------------------------
  // Spatial padding
  // ---------------------------------------------------------------------------

  /** Output shape of `pad_2d` with `padding = [left, top, right, bottom]`. */
  function Pad2dShape(input: seq<nat>, padding: seq<nat>): (r: seq<nat>)
    requires |input| == 3 && |padding| == 4
    ensures |r| == 3 && r[2] == input[2]
    ensures r[0] == padding[1] + input[0] + padding[3] && r[1] == padding[0] + input[1] + padding[2]
  {
    [input[0] + padding[1] + padding[3], input[1] + padding[0] + padding[2], input[2]]
  }

  /** The element `pad_2d` leaves at `(y, x, c)`: the shifted input over it, zero elsewhere. */
  function Pad2dAt(input: Tensor<F32>, padding: seq<nat>, y: nat, x: nat, c: nat): F32
    requires Hwc(input) && |padding| == 4 && c < input.shape[2]
  {
    var top, left := padding[1], padding[0];
    if top <= y < top + input.shape[0] && left <= x < left + input.shape[1] then
      At(input, [y - top, x - left, c])
    else Num(0.0)
  }

  /**
   * `pad_2d` is the general Pad operator with zero as the constant, the top
   * and left padding as the start padding of the first two dimensions and
   * none on the channels.
   */
  lemma Pad2dIsPad(input: Tensor<F32>, padding: seq<nat>, y: nat, x: nat, c: nat)
    requires Hwc(input) && |padding| == 4 && c < input.shape[2]
    ensures Pad2dAt(input, padding, y, x, c) == OpsPad.PadAt(input, [padding[1], padding[0], 0], Num(0.0), [y, x, c])
  {
    var starts, o := [padding[1], padding[0], 0], [y, x, c];
    if OpsPad.Inside(input.shape, starts, o) {
      assert OpsPad.Unshift(input.shape, starts, o) == [y - padding[1], x - padding[0], c];
    } else {
      assert !(padding[1] <= y < padding[1] + input.shape[0] && padding[0] <= x < padding[0] + input.shape[1]);
    }
  }

  /** Every input element reappears shifted down by `top` and right by `left`. */
  lemma Pad2dKeepsInput(input: Tensor<F32>, padding: seq<nat>, y: nat, x: nat, c: nat)
    requires Hwc(input) && |padding| == 4 && y < input.shape[0] && x < input.shape[1] && c < input.shape[2]
    ensures Pad2dAt(input, padding, y + padding[1], x + padding[0], c) == At(input, [y, x, c])
  {
  }

  /** The cells `pad_2d` has copied before `(oy, ox, ch)`, in its loop order, and zero elsewhere. */
  ghost predicate PadFilled(output: array3<F32>, input: Tensor<F32>, padding: seq<nat>, oy: nat, ox: nat, ch: nat)
    reads output
  {
    Hwc(input) && |padding| == 4 &&
    output.Length0 == Pad2dShape(input.shape, padding)[0] && output.Length1 == Pad2dShape(input.shape, padding)[1] &&
    output.Length2 == input.shape[2] &&
    forall y: nat, x: nat, c: nat :: y < output.Length0 && x < output.Length1 && c < output.Length2 ==>
      output[y, x, c] == (if Earlier(y, x, c, oy, ox, ch) then Pad2dAt(input, padding, y, x, c) else Num(0.0))
  }

  /**
   * `pad_2d`: copies the input into a zeroed buffer of the padded shape,
   * row by row over the rows and columns that are not padding.
   */
  method Pad2d(input: Tensor<F32>, padding: seq<nat>) returns (output: array3<F32>)
    requires Hwc(input) && |padding| == 4
    ensures fresh(output)
    ensures [output.Length0, output.Length1, output.Length2] == Pad2dShape(input.shape, padding)
    ensures forall y: nat, x: nat, c: nat :: y < output.Length0 && x < output.Length1 && c < output.Length2 ==>
      output[y, x, c] == Pad2dAt(input, padding, y, x, c)
  {
    var inH, inW, inC := input.shape[0], input.shape[1], input.shape[2];
    var left, top, right, bottom := padding[0], padding[1], padding[2], padding[3];
    var outH := inH + top + bottom;
    var outW := inW + left + right;
    output := new F32[outH, outW, inC]((_, _, _) => Num(0.0));
    for y := top to outH - bottom
      invariant PadFilled(output, input, padding, y, left, 0)
    {
      for x := left to outW - right
        invariant PadFilled(output, input, padding, y, x, 0)
      {
        for c := 0 to inC
          invariant PadFilled(output, input, padding, y, x, c)
        {
          output[y, x, c] := At(input, [y - top, x - left, c]);
        }
      }
    }
  }

  // ---------------------------------------------------------------------------
  // Two-input concatenation
  // ---------------------------------------------------------------------------

  /** The panics `concat` checks for, in its order. */
  function ConcatChecks(a: seq<nat>, b: seq<nat>, dim: nat): (r: Result<(), Panic>)
    ensures r.Ok? <==> dim < |a| && OpsConcat.SameExceptAt(a, b, dim)
    ensures |a| != |b| ==> r == Err(RankMismatch)
    ensures |a| == |b| && dim >= |a| ==> r == Err(DimOutOfRange(dim, |a|))
    ensures |a| == |b| && dim < |a| && r.Err? ==> r == Err(ShapeMismatch)
  {
    if |a| != |b| then Err(RankMismatch)
    else if dim >= |a| then Err(DimOutOfRange(dim, |a|))
    else if exists d :: 0 <= d < |a| && d != dim && a[d] != b[d] then Err(ShapeMismatch)
    else Ok(())
  }

  /** The chunk of up to `s` elements of `x` starting at `pos`. */
  function Chunk(x: seq<F32>, pos: nat, s: nat): (r: seq<F32>)
    requires pos <= |x|
    ensures |r| <= s && |r| <= |x| - pos
  {
    if pos + s <= |x| then x[pos..pos + s] else x[pos..]
  }

  /**
   * What the copy loop of `concat` outputs from position `pos` on: a chunk
   * of `s` elements from `x`, then one from `y`, again and again while both
   * have elements left.
   */
  function Alternate(x: seq<F32>, y: seq<F32>, s: nat, pos: nat): (r: seq<F32>)
    requires pos <= |x| && pos <= |y|
    ensures |r| <= |x| - pos + |y| - pos
    decreases |x| - pos
  {
    if pos == |x| || pos == |y| || s == 0 then []
    else if pos + s > |x| || pos + s > |y| then Chunk(x, pos, s) + Chunk(y, pos, s)
    else Chunk(x, pos, s) + Chunk(y, pos, s) + Alternate(x, y, s, pos + s)
  }

  /** `n` zeros: what `zero_tensor` starts the output with. */
  function Zeros(n: nat): (r: seq<F32>)
    ensures |r| == n && forall i :: 0 <= i < n ==> r[i] == Num(0.0)
  {
    seq(n, _ => Num(0.0))
  }

  /** Elements after dimension `dim`: the `stride(dim)` of a contiguous tensor. */
  function Stride(shape: seq<nat>, dim: nat): nat
    requires dim < |shape|
  {
    Product(shape[dim + 1..])
  }

  /** The number of elements of a tensor is the number up to `dim` times the stride. */
  lemma StrideSplit(shape: seq<nat>, dim: nat)
    requires dim < |shape|
    ensures Product(shape) == Product(shape[..dim + 1]) * Stride(shape, dim)
  {
    assert shape == shape[..dim + 1] + shape[dim + 1..];
    ProductAppend(shape[..dim + 1], shape[dim + 1..]);
  }

  /** Shapes that pass the checks differ only at `dim`, so the output has the elements of both. */
  lemma ConcatShapeLength(a: Tensor<F32>, b: Tensor<F32>, dim: nat)
    requires a.WellFormed() && b.WellFormed() && ConcatChecks(a.shape, b.shape, dim).Ok?
    ensures b.shape == SetDim(a.shape, dim, b.shape[dim])
    ensures Product(SetDim(a.shape, dim, a.shape[dim] + b.shape[dim])) == |a.data| + |b.data|
    ensures Stride(a.shape, dim) == Stride(b.shape, dim)
  {
    assert b.shape == SetDim(a.shape, dim, b.shape[dim]);
    assert a.shape == SetDim(a.shape, dim, a.shape[dim]);
    OpsConcat.ProductSetDimAdd(a.shape, dim, a.shape[dim], b.shape[dim]);
    assert a.shape[dim + 1..] == b.shape[dim + 1..];
  }

  /**
   * `concat` as written: after its checks, an input that is empty along
   * `dim` gives a copy of the other one; otherwise the output has the
   * summed shape and holds the alternating chunks of `stride(dim)`
   * elements, then zeros for whatever the loop did not reach.
   */
  function ConcatAsWritten(a: Tensor<F32>, b: Tensor<F32>, dim: nat): (r: Result<Tensor<F32>, Panic>)
    requires a.WellFormed() && b.WellFormed()
    ensures r.Err? <==> ConcatChecks(a.shape, b.shape, dim).Err?
    ensures r.Err? ==> r.error == ConcatChecks(a.shape, b.shape, dim).error
    ensures r.Ok? ==> r.value.WellFormed() && r.value.shape == SetDim(a.shape, dim, a.shape[dim] + b.shape[dim])
    ensures r.Ok? && a.shape[dim] == 0 ==> r.value == b
    ensures r.Ok? && a.shape[dim] > 0 && b.shape[dim] == 0 ==> r.value == a
  {
    var _ :- ConcatChecks(a.shape, b.shape, dim);
    ConcatShapeLength(a, b, dim);
    if a.shape[dim] == 0 then Ok(b)
    else if b.shape[dim] == 0 then
      assert a.shape == SetDim(a.shape, dim, a.shape[dim]);
      Ok(a)
    else
      var copied := Alternate(a.data, b.data, Stride(a.shape, dim), 0);
      Ok(Tensor(SetDim(a.shape, dim, a.shape[dim] + b.shape[dim]), copied + Zeros(|a.data| + |b.data| - |copied|)))
  }

  /** Copies `n` elements of `src` from `srcPos` to `output` at `outPos`; nothing else changes. */
  method CopyChunk(output: array<F32>, outPos: nat, src: seq<F32>, srcPos: nat, n: nat)
    requires outPos + n <= output.Length && srcPos + n <= |src|
    modifies output
    ensures output[..outPos + n] == old(output[..outPos]) + src[srcPos..srcPos + n]
    ensures forall p :: outPos + n <= p < output.Length ==> output[p] == old(output[p])
  {
    for j := 0 to n
      invariant output[..outPos + j] == old(output[..outPos]) + src[srcPos..srcPos + j]
      invariant forall p :: outPos + j <= p < output.Length ==> output[p] == old(output[p])
    {
      output[outPos + j] := src[srcPos + j];
      assert src[srcPos..srcPos + j + 1] == src[srcPos..srcPos + j] + [src[srcPos + j]];
      assert output[..outPos + j + 1] == output[..outPos + j] + [src[srcPos + j]];
    }
  }

  /** The copy loop has output `done` and consumed `pos` elements of each input. */
  predicate CopiedSoFar(x: seq<F32>, y: seq<F32>, s: nat, done: seq<F32>, pos: nat)
    requires pos <= |x| && pos <= |y|
  {
    Alternate(x, y, s, 0) == done + Alternate(x, y, s, pos)
  }

  lemma CopiedStep(x: seq<F32>, y: seq<F32>, s: nat, done: seq<F32>, pos: nat, next: nat, after: seq<F32>)
    requires pos < |x| && pos < |y| && s > 0 && next == pos + s <= |x| && pos + s <= |y|
    requires CopiedSoFar(x, y, s, done, pos) && after == done + x[pos..pos + s] + y[pos..pos + s]
    ensures CopiedSoFar(x, y, s, after, next)
  {
    var xc, yc, rest := x[pos..pos + s], y[pos..pos + s], Alternate(x, y, s, pos + s);
    assert Alternate(x, y, s, pos) == xc + yc + rest;
    SeqAssoc(done, xc + yc, rest);
    SeqAssoc(done, xc, yc);
  }

  lemma SeqAssoc<T>(a: seq<T>, b: seq<T>, c: seq<T>)
    ensures a + (b + c) == a + b + c
  {
  }

  /** One pass of the copy loop's body: a chunk of `x`, then one of `y`. */
  method CopyRound(output: array<F32>, outPos: nat, x: seq<F32>, y: seq<F32>, pos: nat, s: nat)
    requires outPos + 2 * s <= output.Length && pos + s <= |x| && pos + s <= |y|
    modifies output
    ensures output[..outPos + 2 * s] == old(output[..outPos]) + x[pos..pos + s] + y[pos..pos + s]
    ensures forall p :: outPos + 2 * s <= p < output.Length ==> output[p] == old(output[p])
  {
    CopyChunk(output, outPos, x, pos, s);
    ghost var middle := output[..outPos + s];
    CopyChunk(output, outPos + s, y, pos, s);
  }

  /** `CopyRound` inside the copy loop: what is copied so far grows by the round, and the rest stays zero. */
  method CopyRoundTracked(output: array<F32>, outPos: nat, x: seq<F32>, y: seq<F32>, pos: nat, s: nat)
    returns (nextOut: nat, nextPos: nat)
    requires outPos + 2 * s <= output.Length && 0 < s && pos + s <= |x| && pos + s <= |y|
    requires CopiedSoFar(x, y, s, output[..outPos], pos)
    requires forall p :: outPos <= p < output.Length ==> output[p] == Num(0.0)
    modifies output
    ensures nextOut == outPos + 2 * s && nextPos == pos + s
    ensures CopiedSoFar(x, y, s, output[..nextOut], nextPos)
    ensures forall p :: nextOut <= p < output.Length ==> output[p] == Num(0.0)
  {
    ghost var before := output[..outPos];
    CopyRound(output, outPos, x, y, pos, s);
    nextOut, nextPos := outPos + 2 * s, pos + s;
    ghost var after := output[..nextOut];
    assert after == before + x[pos..pos + s] + y[pos..pos + s];
    CopiedStep(x, y, s, before, pos, nextPos, after);
  }

  /** A buffer whose elements from `n` on are zero is its first `n` elements followed by zeros. */
  lemma ZeroTail(data: seq<F32>, n: nat)
    requires n <= |data| && forall p :: n <= p < |data| ==> data[p] == Num(0.0)
    ensures data == data[..n] + Zeros(|data| - n)
  {
  }

  /** `len` elements make whole chunks of `s`. */
  predicate WholeChunks(len: nat, s: nat)
    decreases len
  {
    len == 0 || (0 < s <= len && WholeChunks(len - s, s))
  }

  lemma {:induction false} ChunksOfProduct(n: nat, s: nat)
    ensures WholeChunks(n * s, s)
  {
    if n > 0 && s > 0 {
      ChunksOfProduct(n - 1, s);
      assert n * s - s == (n - 1) * s;
    }
  }

  /** The checks of `concat`: the ranks, `dim`, then each other dimension. */
  method CheckConcat(a: seq<nat>, b: seq<nat>, dim: nat) returns (r: Result<(), Panic>)
    ensures r == ConcatChecks(a, b, dim)
  {
    if |a| != |b| {
      return Err(RankMismatch);
    }
    if dim >= |a| {
      return Err(DimOutOfRange(dim, |a|));
    }
    for d := 0 to |a|
      invariant forall e :: 0 <= e < d && e != dim ==> a[e] == b[e]
    {
      if d != dim && a[d] != b[d] {
        return Err(ShapeMismatch);
      }
    }
    return Ok(());
  }

  /**
   * The copy loop of `concat` over inputs of whole chunks of `s`
   * elements, into a zeroed buffer for both.
   */
  method CopyAlternating(x: seq<F32>, y: seq<F32>, s: nat) returns (data: seq<F32>)
    requires WholeChunks(|x|, s) && WholeChunks(|y|, s)
    ensures data == Alternate(x, y, s, 0) + Zeros(|x| + |y| - |Alternate(x, y, s, 0)|)
  {
    var output := new F32[|x| + |y|](_ => Num(0.0));
    var aPos, bPos, outPos := 0, 0, 0;
    while aPos < |x| && bPos < |y|
      invariant aPos == bPos <= |x| && bPos <= |y| && outPos == 2 * aPos
      invariant WholeChunks(|x| - aPos, s) && WholeChunks(|y| - bPos, s)
      invariant CopiedSoFar(x, y, s, output[..outPos], aPos)
      invariant forall p :: outPos <= p < output.Length ==> output[p] == Num(0.0)
      decreases |x| - aPos
    {
      assert 0 < s <= |x| - aPos && s <= |y| - bPos;
      outPos, aPos := CopyRoundTracked(output, outPos, x, y, aPos, s);
      bPos := bPos + s;
    }
    assert output[..outPos] == Alternate(x, y, s, 0) by {
      assert Alternate(x, y, s, aPos) == [];
      assert output[..outPos] + [] == output[..outPos];
    }
    data := output[..];
    ZeroTail(data, outPos);
  }

  /** `concat` from `src/ops.rs`: its checks, the early copies, and the copy loop. */
  method Concat(a: Tensor<F32>, b: Tensor<F32>, dim: nat) returns (r: Result<Tensor<F32>, Panic>)
    requires a.WellFormed() && b.WellFormed()
    ensures r == ConcatAsWritten(a, b, dim)
  {
    var checked := CheckConcat(a.shape, b.shape, dim);
    if checked.Err? {
      return Err(checked.error);
    }
    if a.shape[dim] == 0 {
      return Ok(b);
    } else if b.shape[dim] == 0 {
      return Ok(a);
    }
    ConcatShapeLength(a, b, dim);
    var outShape := SetDim(a.shape, dim, a.shape[dim] + b.shape[dim]);
    var stride := Stride(a.shape, dim);
    StrideSplit(a.shape, dim);
    StrideSplit(b.shape, dim);
    ChunksOfProduct(Product(a.shape[..dim + 1]), stride);
    ChunksOfProduct(Product(b.shape[..dim + 1]), stride);
    var data := CopyAlternating(a.data, b.data, stride);
    r := Ok(Tensor(outShape, data));
  }

  /**
   * The concatenation `concat` evidently intends, the one the Concat
   * operator of `src/ops/mod.rs` computes: for each index before `dim`,
   * the whole slice of `a`, then the whole slice of `b`.
   */
  function ConcatCorrected(a: Tensor<F32>, b: Tensor<F32>, dim: nat): (r: Result<Tensor<F32>, Panic>)
    requires a.WellFormed() && b.WellFormed()
    ensures r.Err? <==> ConcatChecks(a.shape, b.shape, dim).Err?
    ensures r.Err? ==> r.error == ConcatChecks(a.shape, b.shape, dim).error
    ensures r.Ok? ==> r.value.WellFormed() && r.value.shape == SetDim(a.shape, dim, a.shape[dim] + b.shape[dim])
    ensures r.Ok? && a.shape[dim] == 0 ==> r.value == b
    ensures r.Ok? && a.shape[dim] > 0 && b.shape[dim] == 0 ==> r.value == a
  {
    var _ :- ConcatChecks(a.shape, b.shape, dim);
    ConcatShapeLength(a, b, dim);
    if a.shape[dim] == 0 then Ok(b)
    else if b.shape[dim] == 0 then
      assert a.shape == SetDim(a.shape, dim, a.shape[dim]);
      Ok(a)
    else
      PairConcatenable(a, b, dim);
      OpsConcat.ConcatSpecWellFormed([a, b], dim);
      Ok(OpsConcat.ConcatSpec([a, b], dim))
  }

  /** Two inputs that pass the checks are concatenable in the sense of the general operator. */
  lemma PairConcatenable(a: Tensor<F32>, b: Tensor<F32>, dim: nat)
    requires a.WellFormed() && b.WellFormed() && ConcatChecks(a.shape, b.shape, dim).Ok?
    ensures OpsConcat.Concatenable([a, b], dim) && OpsConcat.AllWellFormed([a, b])
    ensures OpsConcat.ConcatShape([a, b], dim) == SetDim(a.shape, dim, a.shape[dim] + b.shape[dim])
    ensures OpsConcat.Datas([a, b]) == [a.data, b.data]
    ensures OpsConcat.Chunks([a, b], dim) == [a.shape[dim] * Stride(a.shape, dim), b.shape[dim] * Stride(b.shape, dim)]
  {
    assert [a, b][1..] == [b];
    assert OpsConcat.SumDim([a, b], 1, dim) == a.shape[dim] by {
      assert OpsConcat.DimOr(a.shape, dim) == a.shape[dim];
    }
    assert OpsConcat.DimOr(b.shape, dim) == b.shape[dim];
    assert a.shape[dim..][1..] == a.shape[dim + 1..] && b.shape[dim..][1..] == b.shape[dim + 1..];
    var d := OpsConcat.Datas([a, b]);
    assert d == [d[0], d[1]];
    var c := OpsConcat.Chunks([a, b], dim);
    assert c == [c[0], c[1]];
  }

  /** The two parts of a slice of `x` from `pos`, split `s` further on. */
  lemma SliceParts(x: seq<F32>, pos: nat, s: nat)
    requires pos + s <= |x|
    ensures x[pos..][..s] == x[pos..pos + s] && x[pos..][s..] == x[pos + s..]
  {
  }

  /** With equal inputs of whole chunks, the copy loop is the general one-chunk-each interleaving. */
  lemma {:induction false} AlternateIsInterleave(x: seq<F32>, y: seq<F32>, s: nat, pos: nat)
    requires |x| == |y| && pos <= |x| && WholeChunks(|x| - pos, s)
    ensures OpsConcat.Progresses([x[pos..], y[pos..]], [s, s])
    ensures Alternate(x, y, s, pos) == OpsConcat.Interleave([x[pos..], y[pos..]], [s, s])
    decreases |x| - pos
  {
    if pos == |x| {
      OpsConcat.PairsEmpty(x[pos..], y[pos..], s);
    } else {
      ChunksNext(|x|, pos, s);
      AlternateIsInterleave(x, y, s, pos + s);
      AlternateJoin(x, y, s, pos);
    }
  }

  /** Whole chunks with something left from `pos` on start with a chunk, and whole chunks follow it. */
  lemma ChunksNext(len: nat, pos: nat, s: nat)
    requires pos < len && WholeChunks(len - pos, s)
    ensures 0 < s && pos + s <= len && WholeChunks(len - (pos + s), s)
  {
  }

  /** When both loops agree after a round, they agree from its start. */
  lemma AlternateJoin(x: seq<F32>, y: seq<F32>, s: nat, pos: nat)
    requires |x| == |y| && 0 < s && pos + s <= |x|
    requires OpsConcat.Progresses([x[pos + s..], y[pos + s..]], [s, s])
    requires Alternate(x, y, s, pos + s) == OpsConcat.Interleave([x[pos + s..], y[pos + s..]], [s, s])
    ensures OpsConcat.Progresses([x[pos..], y[pos..]], [s, s])
    ensures Alternate(x, y, s, pos) == OpsConcat.Interleave([x[pos..], y[pos..]], [s, s])
  {
    AlternateStep(x, y, s, pos);
    InterleaveSlices(x, y, s, pos);
  }

  /** A whole round of the copy loop. */
  lemma AlternateStep(x: seq<F32>, y: seq<F32>, s: nat, pos: nat)
    requires |x| == |y| && 0 < s && pos + s <= |x|
    ensures Alternate(x, y, s, pos) == x[pos..pos + s] + (y[pos..pos + s] + Alternate(x, y, s, pos + s))
  {
  }

  /** A whole round of the general interleaving, in terms of positions. */
  lemma InterleaveSlices(x: seq<F32>, y: seq<F32>, s: nat, pos: nat)
    requires |x| == |y| && 0 < s && pos + s <= |x|
    ensures OpsConcat.Progresses([x[pos..], y[pos..]], [s, s])
    ensures OpsConcat.Progresses([x[pos + s..], y[pos + s..]], [s, s])
    ensures OpsConcat.Interleave([x[pos..], y[pos..]], [s, s])
      == x[pos..pos + s] + (y[pos..pos + s] + OpsConcat.Interleave([x[pos + s..], y[pos + s..]], [s, s]))
  {
    OpsConcat.PairStep(x[pos..], y[pos..], s);
    SliceParts(x, pos, s);
    SliceParts(y, pos, s);
  }

  /**
   * When both inputs have size 1 along `dim`, one chunk of each per round
   * is the whole slice of each, and `concat` computes the intended result.
   */
  lemma ConcatAgreesOnUnitDims(a: Tensor<F32>, b: Tensor<F32>, dim: nat)
    requires a.WellFormed() && b.WellFormed() && ConcatChecks(a.shape, b.shape, dim).Ok?
    requires a.shape[dim] == 1 && b.shape[dim] == 1
    ensures ConcatAsWritten(a, b, dim) == ConcatCorrected(a, b, dim)
  {
    ConcatShapeLength(a, b, dim);
    PairConcatenable(a, b, dim);
    assert a.shape == b.shape by {
      assert a.shape == SetDim(a.shape, dim, 1);
    }
    var s := Stride(a.shape, dim);
    StrideSplit(a.shape, dim);
    ChunksOfProduct(Product(a.shape[..dim + 1]), s);
    assert |a.data| == |b.data|;
    assert a.data[0..] == a.data && b.data[0..] == b.data;
    AlternateIsInterleave(a.data, b.data, s, 0);
    var copied := Alternate(a.data, b.data, s, 0);
    assert copied == OpsConcat.ConcatSpec([a, b], dim).data;
    OpsConcat.InterleaveLength([a.data, b.data], [s, s]);
    assert OpsConcat.SumLen([a.data, b.data], 2) == |a.data| + |b.data|;
    assert Zeros(|a.data| + |b.data| - |copied|) == [];
    var shape := SetDim(a.shape, dim, a.shape[dim] + b.shape[dim]);
    assert ConcatAsWritten(a, b, dim) == Ok(Tensor(shape, copied + Zeros(|a.data| + |b.data| - |copied|)));
    assert ConcatCorrected(a, b, dim) == Ok(OpsConcat.ConcatSpec([a, b], dim));
    assert OpsConcat.ConcatSpec([a, b], dim) == Tensor(shape, copied);
    assert copied + Zeros(|a.data| + |b.data| - |copied|) == copied;
  }

  /**
   * Counterexample: joining `[p, q]` and `[u, v]` along their only
   * dimension, `concat` interleaves them.
   */
  lemma ConcatInterleavesAt(p: F32, q: F32, u: F32, v: F32)
    ensures ConcatAsWritten(Tensor([2], [p, q]), Tensor([2], [u, v]), 0) == Ok(Tensor([4], [p, u, q, v]))
    ensures ConcatCorrected(Tensor([2], [p, q]), Tensor([2], [u, v]), 0) == Ok(Tensor([4], [p, q, u, v]))
  {
    var a, b := Tensor([2], [p, q]), Tensor([2], [u, v]);
    assert a.WellFormed() && b.WellFormed();
    PairAsWritten(a, b, p, q, u, v);
    PairCorrected(a, b, p, q, u, v);
  }

  lemma PairAsWritten(a: Tensor<F32>, b: Tensor<F32>, p: F32, q: F32, u: F32, v: F32)
    requires a == Tensor([2], [p, q]) && b == Tensor([2], [u, v]) && a.WellFormed() && b.WellFormed()
    ensures ConcatAsWritten(a, b, 0) == Ok(Tensor([4], [p, u, q, v]))
  {
    assert ConcatChecks(a.shape, b.shape, 0).Ok?;
    assert Stride(a.shape, 0) == 1 by {
      assert a.shape[1..] == [];
    }
    assert Alternate(a.data, b.data, 1, 2) == [];
    assert Alternate(a.data, b.data, 1, 1) == [q, v];
    var copied := Alternate(a.data, b.data, 1, 0);
    assert copied == [p, u, q, v];
    assert copied + Zeros(0) == copied;
    assert SetDim(a.shape, 0, 4) == [4];
  }

  lemma PairCorrected(a: Tensor<F32>, b: Tensor<F32>, p: F32, q: F32, u: F32, v: F32)
    requires a == Tensor([2], [p, q]) && b == Tensor([2], [u, v]) && a.WellFormed() && b.WellFormed()
    ensures ConcatCorrected(a, b, 0) == Ok(Tensor([4], [p, q, u, v]))
  {
    assert ConcatChecks(a.shape, b.shape, 0).Ok?;
    var spec := OpsConcat.ConcatSpec([a, b], 0);
    assert ConcatCorrected(a, b, 0) == Ok(spec);
    assert spec.data == [p, q, u, v] by {
      PairConcatenable(a, b, 0);
      OpsConcat.ConcatFirstDim([a, b]);
      assert OpsConcat.Flatten([a.data, b.data], 1) == [p, q] by {
        assert OpsConcat.Flatten([a.data, b.data], 0) == [];
      }
      assert OpsConcat.Flatten([a.data, b.data], 2) == [p, q, u, v];
    }
    assert spec.shape == SetDim(a.shape, 0, 4) == [4];
  }

  /** The same with the numbers 1, 2 and 3, 4: `[1, 3, 2, 4]` instead of `[1, 2, 3, 4]`. */
  lemma ConcatInterleaves()
    ensures ConcatAsWritten(Tensor([2], [Num(1.0), Num(2.0)]), Tensor([2], [Num(3.0), Num(4.0)]), 0)
      == Ok(Tensor([4], [Num(1.0), Num(3.0), Num(2.0), Num(4.0)]))
    ensures ConcatCorrected(Tensor([2], [Num(1.0), Num(2.0)]), Tensor([2], [Num(3.0), Num(4.0)]), 0)
      == Ok(Tensor([4], [Num(1.0), Num(2.0), Num(3.0), Num(4.0)]))
  {
    ConcatInterleavesAt(Num(1.0), Num(2.0), Num(3.0), Num(4.0));
  }
}
