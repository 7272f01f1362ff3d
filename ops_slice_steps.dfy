/**
 * The Slice operator of `src/ops/slice.rs`, following the ONNX Slice
 * operator: per-axis starts, ends and steps, negative indices counting from
 * the end of a dimension, bounds clamped to the dimension, and negative
 * steps walking backwards.
 *
 * `SliceRange::resolve_clamped`, the input-list accessors and the
 * `static_dims!` rank check are not part of this model. Clamping is
 * specified as the ONNX operator defines it and as the source's tests pin it
 * down; `static_dims!` is taken to fail with `IncompatibleInputShapes` on a
 * tensor that is not 1-dimensional.
 */
module OpsSliceSteps {
  import opened Wrappers
  import opened Tensors
  import opened Ops
  import opened Slicing

  /** An unresolved range: `start .. end` by `step`, either bound possibly negative. */
  datatype SliceRange = SliceRange(start: int, end: int, step: int)

  function Clamp(x: int, lo: int, hi: int): (r: int)
    requires lo <= hi
    ensures lo <= r <= hi
    ensures lo <= x <= hi ==> r == x
  {
    if x < lo then lo else if x > hi then hi else x
  }

  /** `a / b` rounded up, for `b > 0` and `a >= 0`. */
  function CeilDiv(a: nat, b: nat): (r: nat)
    requires b > 0
    ensures r * b >= a && (r == 0 || (r - 1) * b < a)
  {
    var q := (a + b - 1) / b;
    assert q * b <= a + b - 1 && q * b > a - 1;
    q
  }

  /** A count from `CeilDiv` is exactly the number of steps of `b` that stay below `a`. */
  lemma CeilDivCounts(a: nat, b: nat, j: nat)
    requires b > 0
    ensures j < CeilDiv(a, b) <==> j * b < a
  {
    var q := CeilDiv(a, b);
    if j < q {
      MulMono(j, q - 1, b);
    } else {
      MulMono(q, j, b);
    }
  }

  /** A negative index counts from the end of a dimension of size `size`. */
  function FromEnd(x: int, size: nat): int
  {
    if x < 0 then x + size else x
  }

  /** Walking forward from `s` while below `e` stays inside a dimension of size `size`. */
  lemma ForwardFits(s: nat, e: nat, step: nat, size: nat)
    requires s < e <= size && step > 0
    ensures Range(s, step, CeilDiv(e - s, step)).Fits(size)
  {
    var r := Range(s, step, CeilDiv(e - s, step));
    forall j: nat | j < r.count
      ensures 0 <= r.Pos(j) < size
    {
      CeilDivCounts(e - s, step, j);
    }
  }

  /** Walking backward from `s` while above `e` stays inside a dimension of size `size`. */
  lemma BackwardFits(s: nat, e: int, step: nat, size: nat)
    requires -1 <= e < s < size && step > 0
    ensures Range(s, -(step as int), CeilDiv(s - e, step)).Fits(size)
  {
    var r := Range(s, -(step as int), CeilDiv(s - e, step));
    forall j: nat | j < r.count
      ensures 0 <= r.Pos(j) < size
    {
      CeilDivCounts(s - e, step, j);
      assert r.Pos(j) == s - j * step;
    }
  }

  /**
   * `resolve_clamped`: the positions of a dimension of size `size` that the
   * range selects. With a positive step, start and end are clamped to
   * `[0, size]`; with a negative step, the start to `[0, size - 1]` and the
   * end to `[-1, size - 1]`, so that the walk can reach position 0.
   */
  function ResolveClamped(r: SliceRange, size: nat): (res: Range)
    requires r.step != 0
    ensures res.Fits(size) && res.step == r.step
    ensures 0 <= res.start <= size
    ensures r.step == 1 ==> res.start + res.count <= size
  {
    if size == 0 then Range(0, r.step, 0)
    else if r.step > 0 then
      var s := Clamp(FromEnd(r.start, size), 0, size);
      var e := Clamp(FromEnd(r.end, size), 0, size);
      if e > s then
        ForwardFits(s, e, r.step, size);
        assert r.step == 1 ==> CeilDiv(e - s, r.step) == e - s;
        Range(s, r.step, CeilDiv(e - s, r.step))
      else Range(s, r.step, 0)
    else
      var s := Clamp(FromEnd(r.start, size), 0, size - 1);
      var e := Clamp(FromEnd(r.end, size), -1, size - 1);
      if s > e then
        BackwardFits(s, e, -r.step, size);
        Range(s, r.step, CeilDiv(s - e, -r.step))
      else Range(s, r.step, 0)
  }

  /**
   * With a positive step, position `j` of the resolved range is selected
   * exactly when it lies before the clamped end: the range takes every
   * position it can.
   */
  lemma ResolveClampedForward(r: SliceRange, size: nat, j: nat)
    requires r.step > 0 && size > 0
    requires Clamp(FromEnd(r.start, size), 0, size) < Clamp(FromEnd(r.end, size), 0, size)
    ensures j < ResolveClamped(r, size).count <==>
            ResolveClamped(r, size).Pos(j) < Clamp(FromEnd(r.end, size), 0, size)
  {
    var s := Clamp(FromEnd(r.start, size), 0, size);
    var e := Clamp(FromEnd(r.end, size), 0, size);
    CeilDivCounts(e - s, r.step, j);
  }

  /** With a negative step, position `j` is selected exactly when it lies after the clamped end. */
  lemma ResolveClampedBackward(r: SliceRange, size: nat, j: nat)
    requires r.step < 0 && size > 0
    requires Clamp(FromEnd(r.start, size), 0, size - 1) > Clamp(FromEnd(r.end, size), -1, size - 1)
    ensures j < ResolveClamped(r, size).count <==>
            ResolveClamped(r, size).Pos(j) > Clamp(FromEnd(r.end, size), -1, size - 1)
  {
    var s := Clamp(FromEnd(r.start, size), 0, size - 1);
    var e := Clamp(FromEnd(r.end, size), -1, size - 1);
    var res := ResolveClamped(r, size);
    assert res == Range(s, r.step, CeilDiv(s - e, -r.step));
    BackwardCounts(s, e, r.step, j, res.count, res.Pos(j));
  }

  /** Counting down from `s` by `-step`, step `j` is among the first `count` exactly when it stays above `e`. */
  lemma BackwardCounts(s: int, e: int, step: int, j: nat, count: nat, pos: int)
    requires step < 0 && s > e && count == CeilDiv(s - e, -step) && pos == s + j * step
    ensures j < count <==> pos > e
  {
    CeilDivCounts(s - e, -step, j);
    assert j * step == -(j * -step);
  }

  /** A range already inside the dimension, with step 1, is taken as it is. */
  lemma ResolveInBounds(start: nat, end: nat, size: nat)
    requires start <= end <= size
    ensures ResolveClamped(SliceRange(start, end, 1), size) == Span(start, end)
  {
    if size > 0 && end > start {
      assert CeilDiv(end - start, 1) == end - start;
    }
  }

  /** Any start at or below `-size` and any end at or above `size` select the whole dimension. */
  lemma ResolveUnbounded(start: int, end: int, size: nat)
    requires start <= -(size as int) && end >= size
    ensures ResolveClamped(SliceRange(start, end, 1), size) == Full(size)
  {
    if size > 0 {
      assert CeilDiv(size, 1) == size;
    }
  }

  // Cases from the operator's tests, on a dimension of size 10 or 5.

  lemma ResolveNegativeBounds()
    ensures ResolveClamped(SliceRange(-9, -6, 1), 10) == Range(1, 1, 3)
  {
    assert CeilDiv(3, 1) == 3;
  }

  lemma ResolveClampsEnd()
    ensures ResolveClamped(SliceRange(5, 20, 1), 10) == Range(5, 1, 5)
  {
    assert CeilDiv(5, 1) == 5;
  }

  lemma ResolveClampsStart()
    ensures ResolveClamped(SliceRange(-20, 5, 1), 10) == Range(0, 1, 5)
  {
    assert CeilDiv(5, 1) == 5;
  }

  lemma ResolveStepTwo()
    ensures ResolveClamped(SliceRange(0, 5, 2), 5) == Range(0, 2, 3)
  {
    assert CeilDiv(5, 2) == 3;
  }

  /** Start 5 or 100 and end -6 or -100 by step -1 all walk the whole dimension backwards. */
  lemma ResolveReverse(start: int, end: int)
    requires start == 5 || start == 100
    requires end == -6 || end == -100
    ensures ResolveClamped(SliceRange(start, end, -1), 5) == Range(4, -1, 5)
  {
    assert CeilDiv(5, 1) == 5;
  }

  /** Element `j` of a 1-dimensional slice is element `Pos(j)` of the input. */
  lemma SliceVector<T>(t: Tensor<T>, r: Range, j: nat)
    requires t.WellFormed() && |t.shape| == 1 && r.Fits(t.shape[0]) && j < r.count
    ensures RangesFit(t.shape, [r]) && |t.data| == t.shape[0]
    ensures |SliceView(t, [r]).data| == r.count
    ensures SliceView(t, [r]).data[j] == t.data[r.Pos(j)]
  {
    assert RangesFit(t.shape, [r]);
    assert t.shape == [t.shape[0]];
    assert Product([t.shape[0]]) == t.shape[0] by {
      assert t.shape[0] * Product([]) == t.shape[0] * 1;
    }
    var out := SliceView(t, [r]);
    assert Counts([r]) == [r.count];
    assert Product([r.count]) == r.count by {
      assert r.count * Product([]) == r.count * 1;
    }
    UnravelOffset([r.count], [j]);
    assert Offset([r.count], [j]) == j;
    assert out.data[j] == At(t, Source(t.shape, [r], [j]));
    assert Source(t.shape, [r], [j]) == [r.Pos(j) as nat];
    UnravelOffset(t.shape, [r.Pos(j) as nat]);
    assert Offset(t.shape, [r.Pos(j) as nat]) == r.Pos(j);
  }

  /** Slicing `[1, 2, 3, 4, 5]` from 5 to -6 by -1 reverses it. */
  lemma SliceReverses(t: Tensor<int>)
    requires t == Tensor([5], [1, 2, 3, 4, 5])
    ensures Product([5]) == 5 && t.WellFormed()
    ensures RangesFit(t.shape, [ResolveClamped(SliceRange(5, -6, -1), 5)])
    ensures SliceView(t, [ResolveClamped(SliceRange(5, -6, -1), 5)]).data == [5, 4, 3, 2, 1]
  {
    assert Product([5]) == 5 by {
      assert 5 * Product([]) == 5 * 1;
    }
    ResolveReverse(5, -6);
    var r := Range(4, -1, 5);
    var out := SliceView(t, [r]);
    SliceVector(t, r, 0);
    forall j | 0 <= j < 5
      ensures j < |out.data| && out.data[j] == 5 - j
    {
      SliceVector(t, r, j);
    }
  }

  // ---------------------------------------------------------------------------
  // slice_ranges
  // ---------------------------------------------------------------------------

  /** Number of (start, end) pairs: the shorter of `starts` and `ends`. */
  function PairCount(starts: seq<I32>, ends: seq<I32>): nat
  {
    if |starts| <= |ends| then |starts| else |ends|
  }

  /** No step is zero. */
  predicate StepsNonZero(steps: Option<seq<I32>>)
  {
    steps.None? || forall i :: 0 <= i < |steps.value| ==> steps.value[i] != 0
  }

  /** The dimension pair `i` applies to: `axes[i]` resolved against the rank, or `i`. */
  function PairAxis(ndim: nat, axes: Option<seq<I32>>, i: nat): (r: Result<nat, OpError>)
    ensures r.Ok? ==> axes.Some? || r.value == i
    ensures axes.None? ==> r == Ok(i)
    ensures axes.Some? && i >= |axes.value| ==> r == Err(Panic("index out of bounds"))
    ensures axes.Some? && i < |axes.value| ==> r == ResolveAxis(ndim, axes.value[i])
  {
    match axes
    case None => Ok(i)
    case Some(a) => if i < |a| then ResolveAxis(ndim, a[i]) else Err(Panic("index out of bounds"))
  }

  /** The step of pair `i`: `steps[i]`, or 1 when there are no steps. */
  function PairStep(steps: Option<seq<I32>>, i: nat): (r: Result<int, OpError>)
    ensures steps.None? ==> r == Ok(1)
    ensures steps.Some? ==> (r.Ok? <==> i < |steps.value|)
    ensures steps.Some? && r.Ok? ==> r.value == steps.value[i]
  {
    match steps
    case None => Ok(1)
    case Some(s) => if i < |s| then Ok(s[i]) else Err(Panic("index out of bounds"))
  }

  /** Every dimension's whole range with step 1. */
  function WholeRanges(shape: seq<nat>): (r: seq<SliceRange>)
    ensures |r| == |shape| && forall d :: 0 <= d < |shape| ==> r[d] == SliceRange(0, shape[d], 1)
  {
    seq(|shape|, d requires 0 <= d < |shape| => SliceRange(0, shape[d], 1))
  }

  /** The ranges after the first `n` pairs are applied in order, each overwriting its dimension's range. */
  function RangesAfter(shape: seq<nat>, starts: seq<I32>, ends: seq<I32>, axes: Option<seq<I32>>, steps: Option<seq<I32>>, n: nat): (r: Result<seq<SliceRange>, OpError>)
    requires n <= |starts| && n <= |ends|
    ensures r.Ok? ==> |r.value| == |shape|
  {
    if n == 0 then Ok(WholeRanges(shape))
    else
      var prev :- RangesAfter(shape, starts, ends, axes, steps, n - 1);
      var axis :- PairAxis(|shape|, axes, n - 1);
      if axis >= |prev| then Err(Panic("index out of bounds"))
      else
        var step :- PairStep(steps, n - 1);
        Ok(prev[axis := SliceRange(starts[n - 1], ends[n - 1], step)])
  }

  /** `slice_ranges`: the zero-step check, then the pairs in order. */
  function SliceRangesSpec(shape: seq<nat>, starts: seq<I32>, ends: seq<I32>, axes: Option<seq<I32>>, steps: Option<seq<I32>>): (r: Result<seq<SliceRange>, OpError>)
    ensures !StepsNonZero(steps) ==> r == Err(InvalidValue("steps must be non-zero"))
    ensures r.Ok? ==> |r.value| == |shape| && forall d :: 0 <= d < |shape| ==> r.value[d].step != 0
  {
    if !StepsNonZero(steps) then Err(InvalidValue("steps must be non-zero"))
    else
      var ranges :- RangesAfter(shape, starts, ends, axes, steps, PairCount(starts, ends));
      StepsKept(shape, starts, ends, axes, steps, PairCount(starts, ends));
      Ok(ranges)
  }

  /** Every range `RangesAfter` builds has a step that is 1 or one of `steps`. */
  lemma {:induction false} StepsKept(shape: seq<nat>, starts: seq<I32>, ends: seq<I32>, axes: Option<seq<I32>>, steps: Option<seq<I32>>, n: nat)
    requires n <= |starts| && n <= |ends| && StepsNonZero(steps)
    requires RangesAfter(shape, starts, ends, axes, steps, n).Ok?
    ensures forall d :: 0 <= d < |shape| ==> RangesAfter(shape, starts, ends, axes, steps, n).value[d].step != 0
  {
    if n > 0 {
      StepsKept(shape, starts, ends, axes, steps, n - 1);
    }
  }

  /** The last of the first `n` pairs that targets dimension `d`, if any. */
  function LastTarget(ndim: nat, axes: Option<seq<I32>>, n: nat, d: nat): (r: Option<nat>)
    ensures r.Some? ==> r.value < n && PairAxis(ndim, axes, r.value) == Ok(d)
  {
    if n == 0 then None
    else if PairAxis(ndim, axes, n - 1) == Ok(d) then Some(n - 1)
    else LastTarget(ndim, axes, n - 1, d)
  }

  /**
   * Dimensions no pair targets keep their whole range with step 1; any
   * other takes the start, end and step of the last pair that targets it.
   */
  lemma {:induction false} RangesAfterLastWins(shape: seq<nat>, starts: seq<I32>, ends: seq<I32>, axes: Option<seq<I32>>, steps: Option<seq<I32>>, n: nat, d: nat)
    requires n <= |starts| && n <= |ends| && d < |shape|
    requires RangesAfter(shape, starts, ends, axes, steps, n).Ok?
    ensures match LastTarget(|shape|, axes, n, d)
      case None => RangesAfter(shape, starts, ends, axes, steps, n).value[d] == SliceRange(0, shape[d], 1)
      case Some(i) =>
        PairStep(steps, i).Ok? &&
        RangesAfter(shape, starts, ends, axes, steps, n).value[d] == SliceRange(starts[i], ends[i], PairStep(steps, i).value)
  {
    if n > 0 {
      RangesAfterLastWins(shape, starts, ends, axes, steps, n - 1, d);
    }
  }

  /** Once a pair fails, applying more pairs fails with the same error. */
  lemma {:induction false} RangesFailLater(shape: seq<nat>, starts: seq<I32>, ends: seq<I32>, axes: Option<seq<I32>>, steps: Option<seq<I32>>, m: nat, n: nat)
    requires m <= n <= |starts| && n <= |ends|
    requires RangesAfter(shape, starts, ends, axes, steps, m).Err?
    ensures RangesAfter(shape, starts, ends, axes, steps, n) == RangesAfter(shape, starts, ends, axes, steps, m)
    decreases n - m
  {
    if m < n {
      RangesFailLater(shape, starts, ends, axes, steps, m + 1, n);
    }
  }

  /** A negative axis counts from the last dimension: -1 of a 3x3 tensor is dimension 1. */
  lemma NegativeAxisTargetsLast()
    ensures RangesAfter([3, 3], [0], [2], Some([-1]), None, 1) ==
            Ok([SliceRange(0, 3, 1), SliceRange(0, 2, 1)])
  {
    assert PairAxis(2, Some([-1]), 0) == Ok(1);
    var whole := WholeRanges([3, 3]);
    assert whole == [SliceRange(0, 3, 1), SliceRange(0, 3, 1)];
    assert RangesAfter([3, 3], [0], [2], Some([-1]), None, 0) == Ok(whole);
    assert whole[1 := SliceRange(0, 2, 1)] == [SliceRange(0, 3, 1), SliceRange(0, 2, 1)];
  }

  /** `slice_ranges` as the source writes it: a check loop, then an update loop. */
  method SliceRanges(shape: seq<nat>, starts: seq<I32>, ends: seq<I32>, axes: Option<seq<I32>>, steps: Option<seq<I32>>) returns (r: Result<seq<SliceRange>, OpError>)
    ensures r == SliceRangesSpec(shape, starts, ends, axes, steps)
  {
    if steps.Some? {
      var k := 0;
      while k < |steps.value|
        invariant 0 <= k <= |steps.value|
        invariant forall i :: 0 <= i < k ==> steps.value[i] != 0
      {
        if steps.value[k] == 0 {
          return Err(InvalidValue("steps must be non-zero"));
        }
        k := k + 1;
      }
    }
    var ranges := WholeRanges(shape);
    var n := PairCount(starts, ends);
    var i := 0;
    while i < n
      invariant 0 <= i <= n
      invariant RangesAfter(shape, starts, ends, axes, steps, i) == Ok(ranges)
    {
      var axis := PairAxis(|shape|, axes, i);
      if axis.Err? {
        RangesFailLater(shape, starts, ends, axes, steps, i + 1, n);
        return Err(axis.error);
      }
      if axis.value >= |ranges| {
        RangesFailLater(shape, starts, ends, axes, steps, i + 1, n);
        return Err(Panic("index out of bounds"));
      }
      var step := PairStep(steps, i);
      if step.Err? {
        RangesFailLater(shape, starts, ends, axes, steps, i + 1, n);
        return Err(step.error);
      }
      ranges := ranges[axis.value := SliceRange(starts[i], ends[i], step.value)];
      i := i + 1;
    }
    return Ok(ranges);
  }

  // ---------------------------------------------------------------------------
  // slice and slice_in_place
  // ---------------------------------------------------------------------------

  /** Every range resolved and clamped against its dimension. */
  function Resolved(shape: seq<nat>, ranges: seq<SliceRange>): (r: seq<Range>)
    requires |ranges| == |shape| && forall d :: 0 <= d < |shape| ==> ranges[d].step != 0
    ensures RangesFit(shape, r)
    ensures forall d :: 0 <= d < |shape| ==> r[d] == ResolveClamped(ranges[d], shape[d])
  {
    seq(|shape|, d requires 0 <= d < |shape| => ResolveClamped(ranges[d], shape[d]))
  }

  /** `slice`: the resolved ranges, then a copy of the elements they select. */
  function Slice<T>(input: Tensor<T>, starts: seq<I32>, ends: seq<I32>, axes: Option<seq<I32>>, steps: Option<seq<I32>>): (r: Result<Tensor<T>, OpError>)
    requires input.WellFormed()
    ensures SliceRangesSpec(input.shape, starts, ends, axes, steps).Err? ==>
      r == Err(SliceRangesSpec(input.shape, starts, ends, axes, steps).error)
    ensures r.Ok? ==> r.value.WellFormed() && |r.value.shape| == |input.shape|
    ensures r.Ok? ==> forall d :: 0 <= d < |input.shape| ==> r.value.shape[d] <= input.shape[d]
  {
    var ranges :- SliceRangesSpec(input.shape, starts, ends, axes, steps);
    var out := SliceView(input, Resolved(input.shape, ranges));
    assert forall d :: 0 <= d < |input.shape| ==> out.shape[d] <= input.shape[d] by {
      forall d | 0 <= d < |input.shape|
        ensures out.shape[d] <= input.shape[d]
      {
        var rd := Resolved(input.shape, ranges)[d];
        if rd.count > input.shape[d] {
          CountBound(rd, input.shape[d]);
        }
      }
    }
    Ok(out)
  }

  /** A range that fits a dimension has at most as many positions as the dimension. */
  lemma CountBound(r: Range, size: nat)
    requires r.Fits(size) && r.step != 0
    ensures r.count <= size
  {
    if r.count > size {
      assert 0 <= r.Pos(0) < size && 0 <= r.Pos(size) < size;
      assert r.Pos(size) - r.Pos(0) == size * r.step;
      if r.step > 0 {
        MulMono(1, r.step, size);
      } else {
        MulMono(1, -r.step, size);
      }
    }
  }

  /** A slice that selects every position of every dimension is the input itself. */
  lemma SliceWhole<T>(input: Tensor<T>)
    requires input.WellFormed()
    ensures Slice(input, [], [], None, None) == Ok(input)
  {
    var ranges := SliceRangesSpec(input.shape, [], [], None, None).value;
    assert ranges == WholeRanges(input.shape);
    forall d | 0 <= d < |input.shape|
      ensures Resolved(input.shape, ranges)[d] == FullRanges(input.shape)[d]
    {
      ResolveInBounds(0, input.shape[d], input.shape[d]);
    }
    assert Resolved(input.shape, ranges) == FullRanges(input.shape);
    SliceFull(input);
  }

  /** Starts of at most `-size` and ends of at least `size` on every dimension give the input back. */
  lemma SliceUnbounded<T>(input: Tensor<T>, starts: seq<I32>, ends: seq<I32>)
    requires input.WellFormed() && |starts| == |ends| == |input.shape|
    requires forall d :: 0 <= d < |input.shape| ==> starts[d] <= -(input.shape[d] as int) && ends[d] >= input.shape[d]
    ensures Slice(input, starts, ends, None, None) == Ok(input)
  {
    var n := |input.shape|;
    RangesAfterOkNoAxes(input.shape, starts, ends, n);
    var ranges := SliceRangesSpec(input.shape, starts, ends, None, None).value;
    forall d | 0 <= d < n
      ensures Resolved(input.shape, ranges)[d] == FullRanges(input.shape)[d]
    {
      RangesAfterLastWins(input.shape, starts, ends, None, None, n, d);
      assert LastTarget(n, None, n, d) == Some(d) by {
        LastTargetNoAxes(n, n, d);
      }
      ResolveUnbounded(starts[d], ends[d], input.shape[d]);
    }
    assert Resolved(input.shape, ranges) == FullRanges(input.shape);
    SliceFull(input);
  }

  /** Without axes, pair `i` targets dimension `i`, and resolving succeeds when there are enough dimensions. */
  lemma {:induction false} RangesAfterOkNoAxes(shape: seq<nat>, starts: seq<I32>, ends: seq<I32>, n: nat)
    requires n <= |starts| && n <= |ends| && n <= |shape|
    ensures RangesAfter(shape, starts, ends, None, None, n).Ok?
  {
    if n > 0 {
      RangesAfterOkNoAxes(shape, starts, ends, n - 1);
    }
  }

  lemma {:induction false} LastTargetNoAxes(ndim: nat, n: nat, d: nat)
    requires d < n
    ensures LastTarget(ndim, None, n, d) == Some(d)
  {
    if n - 1 != d {
      LastTargetNoAxes(ndim, n - 1, d);
    }
  }

  /**
   * `slice_in_place`: resolve the ranges with steps left at 1, then clip
   * each dimension in turn. The result is the slice `Slice` copies out.
   */
  method SliceInPlace<T>(t: MutableTensor<T>, starts: seq<I32>, ends: seq<I32>, axes: Option<seq<I32>>) returns (r: Result<(), OpError>)
    requires t.Value().WellFormed()
    modifies t
    ensures r.Err? ==> SliceRangesSpec(old(t.shape), starts, ends, axes, None) == Err(r.error) && unchanged(t)
    ensures r.Ok? ==> Slice(old(t.Value()), starts, ends, axes, None) == Ok(t.Value())
  {
    var ranges :- SliceRanges(t.shape, starts, ends, axes, None);
    ContiguousAfter(t.shape, starts, ends, axes, PairCount(starts, ends));
    var resolved := ResolveAll(t.shape, ranges);
    ClipAll(t, resolved);
    return Ok(());
  }

  /** The ranges resolved one dimension at a time, as `slice_in_place` does before each clip. */
  method ResolveAll(shape: seq<nat>, ranges: seq<SliceRange>) returns (resolved: seq<Range>)
    requires |ranges| == |shape| && forall d :: 0 <= d < |shape| ==> ranges[d].step == 1
    ensures resolved == Resolved(shape, ranges)
    ensures Contiguous(resolved) && Bounded(shape, resolved)
  {
    resolved := [];
    var dim := 0;
    while dim < |shape|
      invariant 0 <= dim <= |shape|
      invariant resolved == Resolved(shape, ranges)[..dim]
    {
      resolved := resolved + [ResolveClamped(ranges[dim], shape[dim])];
      dim := dim + 1;
    }
  }

  /** Without steps every range has step 1. */
  lemma {:induction false} ContiguousAfter(shape: seq<nat>, starts: seq<I32>, ends: seq<I32>, axes: Option<seq<I32>>, n: nat)
    requires n <= |starts| && n <= |ends|
    requires RangesAfter(shape, starts, ends, axes, None, n).Ok?
    ensures forall d :: 0 <= d < |shape| ==> RangesAfter(shape, starts, ends, axes, None, n).value[d].step == 1
  {
    if n > 0 {
      ContiguousAfter(shape, starts, ends, axes, n - 1);
    }
  }

  // ---------------------------------------------------------------------------
  // Slice::run and Slice::run_in_place
  // ---------------------------------------------------------------------------

  /** `static_dims!(t, 1)`: the elements of a 1-dimensional tensor. */
  function Vector(t: Tensor<I32>): (r: Result<seq<I32>, OpError>)
    ensures r.Ok? <==> |t.shape| == 1
    ensures r.Ok? ==> r.value == t.data
  {
    if |t.shape| == 1 then Ok(t.data) else Err(IncompatibleInputShapes("expected a 1-dimensional tensor"))
  }

  /** An optional int input, which must be a vector when present. */
  function OptionalVector(inputs: seq<Input>, index: nat): (r: Result<Option<seq<I32>>, OpError>)
    ensures index >= |inputs| ==> r == Ok(None)
    ensures index < |inputs| && !inputs[index].IntTensor? ==> r.Err?
    ensures index < |inputs| && inputs[index].IntTensor? ==> (r.Ok? <==> |inputs[index].i.shape| == 1)
    ensures r.Ok? && index < |inputs| ==> r.value == Some(inputs[index].i.data)
  {
    var t :- GetOptionalInputAsInt(inputs, index);
    match t
    case None => Ok(None)
    case Some(v) =>
      var data :- Vector(v);
      Ok(Some(data))
  }

  /** The operator's arguments after `first` leading inputs: starts, ends, axes and steps. */
  datatype Args = Args(starts: seq<I32>, ends: seq<I32>, axes: Option<seq<I32>>, steps: Option<seq<I32>>)

  /** Read starts, ends, axes and steps from `inputs[first..]`, in that order. */
  function ReadArgs(inputs: seq<Input>, first: nat): (r: Result<Args, OpError>)
    ensures first >= |inputs| ==> r == Err(MissingInputs)
    ensures first + 1 >= |inputs| ==> r.Err?
    ensures r.Ok? ==> first + 1 < |inputs| && inputs[first].IntTensor? && inputs[first + 1].IntTensor?
    ensures r.Ok? ==> r.value.starts == inputs[first].i.data && r.value.ends == inputs[first + 1].i.data
    ensures r.Ok? ==> OptionalVector(inputs, first + 2).Ok? && OptionalVector(inputs, first + 3).Ok?
    ensures r.Ok? ==> r.value.axes == OptionalVector(inputs, first + 2).value
    ensures r.Ok? ==> r.value.steps == OptionalVector(inputs, first + 3).value
  {
    var startsT :- GetInputAsInt(inputs, first);
    var starts :- Vector(startsT);
    var endsT :- GetInputAsInt(inputs, first + 1);
    var ends :- Vector(endsT);
    var axes :- OptionalVector(inputs, first + 2);
    var steps :- OptionalVector(inputs, first + 3);
    Ok(Args(starts, ends, axes, steps))
  }

  /** Slice::run: the input, then the arguments, then the copy, keeping the element kind. */
  function SliceRun(inputs: seq<Input>): (r: Result<Output, OpError>)
    requires WellFormedInputs(inputs)
    ensures |inputs| == 0 ==> r == Err(MissingInputs)
    ensures |inputs| > 0 && ReadArgs(inputs, 1).Err? ==> r == Err(ReadArgs(inputs, 1).error)
    ensures r.Ok? ==> ReadArgs(inputs, 1).Ok? && (r.value.FloatTensor? <==> inputs[0].FloatTensor?)
    ensures r.Ok? && inputs[0].FloatTensor? ==>
      var a := ReadArgs(inputs, 1).value;
      Ok(r.value.f) == Slice(inputs[0].f, a.starts, a.ends, a.axes, a.steps)
    ensures r.Ok? && inputs[0].IntTensor? ==>
      var a := ReadArgs(inputs, 1).value;
      Ok(r.value.i) == Slice(inputs[0].i, a.starts, a.ends, a.axes, a.steps)
  {
    if |inputs| == 0 then Err(MissingInputs)
    else
      var a :- ReadArgs(inputs, 1);
      assert InputWellFormed(inputs[0]);
      match inputs[0]
      case FloatTensor(t) =>
        var out :- Slice(t, a.starts, a.ends, a.axes, a.steps);
        Ok(Output.FloatTensor(out))
      case IntTensor(t) =>
        var out :- Slice(t, a.starts, a.ends, a.axes, a.steps);
        Ok(Output.IntTensor(out))
  }

  /** Some step is not 1: the in-place path cannot be used. */
  predicate NonUnitSteps(steps: Option<seq<I32>>)
  {
    steps.Some? && exists i :: 0 <= i < |steps.value| && steps.value[i] != 1
  }

  /**
   * Slice::run_in_place: read the arguments from the other inputs; with any
   * step other than 1 fall back to `run` on the input followed by the other
   * inputs; otherwise clip the owned tensor in place, keeping its kind.
   */
  method SliceRunInPlace(input: Output, other: seq<Input>) returns (r: Result<Output, OpError>)
    requires InputWellFormed(input.AsInput()) && WellFormedInputs(other)
    ensures ReadArgs(other, 0).Err? ==> r == Err(ReadArgs(other, 0).error)
    ensures ReadArgs(other, 0).Ok? && NonUnitSteps(ReadArgs(other, 0).value.steps) ==>
      r == SliceRun([input.AsInput()] + other)
    ensures ReadArgs(other, 0).Ok? && !NonUnitSteps(ReadArgs(other, 0).value.steps) ==>
      var a := ReadArgs(other, 0).value;
      (input.FloatTensor? ==> r == (match Slice(input.f, a.starts, a.ends, a.axes, None)
         case Ok(t) => Ok(Output.FloatTensor(t))
         case Err(e) => Err(e))) &&
      (input.IntTensor? ==> r == (match Slice(input.i, a.starts, a.ends, a.axes, None)
         case Ok(t) => Ok(Output.IntTensor(t))
         case Err(e) => Err(e)))
  {
    var a :- ReadArgs(other, 0);
    if a.steps.Some? {
      var i := 0;
      while i < |a.steps.value|
        invariant 0 <= i <= |a.steps.value|
        invariant forall j :: 0 <= j < i ==> a.steps.value[j] == 1
      {
        if a.steps.value[i] != 1 {
          ShiftedArgs(input.AsInput(), other);
          return SliceRun([input.AsInput()] + other);
        }
        i := i + 1;
      }
    }
    match input
    case IntTensor(t) =>
      var m := new MutableTensor(t);
      var done := SliceInPlace(m, a.starts, a.ends, a.axes);
      if done.Err? {
        return Err(done.error);
      }
      return Ok(Output.IntTensor(m.Value()));
    case FloatTensor(t) =>
      var m := new MutableTensor(t);
      var done := SliceInPlace(m, a.starts, a.ends, a.axes);
      if done.Err? {
        return Err(done.error);
      }
      return Ok(Output.FloatTensor(m.Value()));
  }

  /** Prepending the input shifts every argument by one place. */
  lemma ShiftedArgs(x: Input, other: seq<Input>)
    ensures ReadArgs([x] + other, 1) == ReadArgs(other, 0)
  {
    var all := [x] + other;
    assert forall k :: 0 <= k < |other| ==> all[k + 1] == other[k];
    assert OptionalVector(all, 3) == OptionalVector(other, 2);
    assert OptionalVector(all, 4) == OptionalVector(other, 3);
  }

  /**
   * Where every pair has a step, a run in place with unit steps gives what
   * the copying run gives.
   */
  lemma UnitStepsAgree<T>(input: Tensor<T>, a: Args)
    requires input.WellFormed() && a.steps.Some? && !NonUnitSteps(a.steps)
    requires PairCount(a.starts, a.ends) <= |a.steps.value|
    ensures Slice(input, a.starts, a.ends, a.axes, None) == Slice(input, a.starts, a.ends, a.axes, a.steps)
  {
    UnitStepsRanges(input.shape, a.starts, a.ends, a.axes, a.steps, PairCount(a.starts, a.ends));
  }

  lemma {:induction false} UnitStepsRanges(shape: seq<nat>, starts: seq<I32>, ends: seq<I32>, axes: Option<seq<I32>>, steps: Option<seq<I32>>, n: nat)
    requires n <= |starts| && n <= |ends| && steps.Some? && !NonUnitSteps(steps) && n <= |steps.value|
    ensures RangesAfter(shape, starts, ends, axes, None, n) == RangesAfter(shape, starts, ends, axes, steps, n)
  {
    if n > 0 {
      UnitStepsRanges(shape, starts, ends, axes, steps, n - 1);
      assert steps.value[n - 1] == 1;
    }
  }
}
