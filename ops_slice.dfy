/**
 * The Slice operator as `src/ops/mod.rs` has it: step 1 only, indices taken
 * as unsigned without resolving negative values, and an in-place variant
 * that clips the dimensions of an owned float tensor.
 *
 * The tensor library's element slicing and `clip_dim` are not part of this
 * model; both are taken to panic unless `start <= end <= size` in every
 * dimension, and to keep exactly the elements in those ranges otherwise.
 */
module OpsSlice {
  import opened Wrappers
  import opened Tensors
  import opened Ops
  import opened Slicing

  /** The dimension entry `i` of `starts`/`ends` applies to: `axes[i]` as unsigned, or `i`. */
  function TargetAxis(axes: Option<Tensor<I32>>, i: nat): (r: Result<nat, OpError>)
    ensures axes.None? ==> r == Ok(i)
    ensures axes.Some? ==> (r.Ok? <==> i < |axes.value.data|)
    ensures axes.Some? && r.Ok? ==> r.value == AsUsize(axes.value.data[i])
  {
    match axes
    case None => Ok(i)
    case Some(a) => if i < |a.data| then Ok(AsUsize(a.data[i])) else Err(Panic("index out of bounds"))
  }

  /** Number of (start, end) pairs: the shorter of `starts` and `ends`. */
  function PairCount(starts: Tensor<I32>, ends: Tensor<I32>): nat
  {
    if |starts.data| <= |ends.data| then |starts.data| else |ends.data|
  }

  /** Every dimension's whole range, as (start, end) pairs. */
  function WholeRanges(shape: seq<nat>): (r: seq<(nat, nat)>)
    ensures |r| == |shape| && forall d :: 0 <= d < |shape| ==> r[d] == (0, shape[d])
  {
    seq(|shape|, d requires 0 <= d < |shape| => (0, shape[d]))
  }

  /**
   * The ranges after the first `n` pairs are applied in order: each pair
   * overwrites the range of its target dimension. A target past the last
   * dimension panics.
   */
  function RangesAfter(shape: seq<nat>, starts: Tensor<I32>, ends: Tensor<I32>, axes: Option<Tensor<I32>>, n: nat): (r: Result<seq<(nat, nat)>, OpError>)
    requires n <= |starts.data| && n <= |ends.data|
    ensures r.Ok? ==> |r.value| == |shape|
  {
    if n == 0 then Ok(WholeRanges(shape))
    else
      var prev :- RangesAfter(shape, starts, ends, axes, n - 1);
      var axis :- TargetAxis(axes, n - 1);
      if axis < |prev| then Ok(prev[axis := (AsUsize(starts.data[n - 1]), AsUsize(ends.data[n - 1]))])
      else Err(Panic("index out of bounds"))
  }

  /** The last of the first `n` pairs that targets dimension `d`, if any. */
  function LastTarget(axes: Option<Tensor<I32>>, n: nat, d: nat): (r: Option<nat>)
    ensures r.Some? ==> r.value < n
  {
    if n == 0 then None
    else if TargetAxis(axes, n - 1) == Ok(d) then Some(n - 1)
    else LastTarget(axes, n - 1, d)
  }

  /** Resolving succeeds exactly when every pair's target exists. */
  lemma {:induction false} RangesAfterOk(shape: seq<nat>, starts: Tensor<I32>, ends: Tensor<I32>, axes: Option<Tensor<I32>>, n: nat)
    requires n <= |starts.data| && n <= |ends.data|
    ensures RangesAfter(shape, starts, ends, axes, n).Ok? <==>
      forall i :: 0 <= i < n ==> TargetAxis(axes, i).Ok? && TargetAxis(axes, i).value < |shape|
  {
    if n > 0 {
      RangesAfterOk(shape, starts, ends, axes, n - 1);
    }
  }

  /**
   * Each dimension's range comes from the last pair that targets it, and
   * dimensions no pair targets keep their whole range.
   */
  lemma {:induction false} RangesAfterLastWins(shape: seq<nat>, starts: Tensor<I32>, ends: Tensor<I32>, axes: Option<Tensor<I32>>, n: nat, d: nat)
    requires n <= |starts.data| && n <= |ends.data| && d < |shape|
    requires RangesAfter(shape, starts, ends, axes, n).Ok?
    ensures RangesAfter(shape, starts, ends, axes, n).value[d] ==
      match LastTarget(axes, n, d)
      case None => (0, shape[d])
      case Some(i) => (AsUsize(starts.data[i]), AsUsize(ends.data[i]))
  {
    if n > 0 {
      RangesAfterLastWins(shape, starts, ends, axes, n - 1, d);
    }
  }

  /** `slice_ranges`: start from the whole ranges, then apply the pairs in order. */
  method SliceRanges(shape: seq<nat>, starts: Tensor<I32>, ends: Tensor<I32>, axes: Option<Tensor<I32>>) returns (r: Result<seq<(nat, nat)>, OpError>)
    ensures r == RangesAfter(shape, starts, ends, axes, PairCount(starts, ends))
  {
    var ranges := WholeRanges(shape);
    var i := 0;
    var n := PairCount(starts, ends);
    while i < n
      invariant 0 <= i <= n
      invariant RangesAfter(shape, starts, ends, axes, i) == Ok(ranges)
    {
      var axis: nat;
      if axes.Some? {
        if i >= |axes.value.data| {
          RangesFailLater(shape, starts, ends, axes, i + 1, n);
          return Err(Panic("index out of bounds"));
        }
        axis := AsUsize(axes.value.data[i]);
      } else {
        axis := i;
      }
      if axis >= |ranges| {
        RangesFailLater(shape, starts, ends, axes, i + 1, n);
        return Err(Panic("index out of bounds"));
      }
      ranges := ranges[axis := (AsUsize(starts.data[i]), AsUsize(ends.data[i]))];
      i := i + 1;
    }
    return Ok(ranges);
  }

  /** Once a pair panics, applying more pairs still panics with the same error. */
  lemma {:induction false} RangesFailLater(shape: seq<nat>, starts: Tensor<I32>, ends: Tensor<I32>, axes: Option<Tensor<I32>>, m: nat, n: nat)
    requires m <= n <= |starts.data| && n <= |ends.data|
    requires RangesAfter(shape, starts, ends, axes, m) == Err(Panic("index out of bounds"))
    ensures RangesAfter(shape, starts, ends, axes, n) == Err(Panic("index out of bounds"))
    decreases n - m
  {
    if m < n {
      RangesFailLater(shape, starts, ends, axes, m + 1, n);
    }
  }

  // ---------------------------------------------------------------------------
  // Copying and clipping
  // ---------------------------------------------------------------------------

  /** Every range lies inside its dimension with its start before its end. */
  predicate SpansFit(shape: seq<nat>, ranges: seq<(nat, nat)>)
  {
    |ranges| == |shape| && forall d :: 0 <= d < |shape| ==> ranges[d].0 <= ranges[d].1 <= shape[d]
  }

  /** The pairs as contiguous slice ranges. */
  function Spans(shape: seq<nat>, ranges: seq<(nat, nat)>): (r: seq<Range>)
    requires SpansFit(shape, ranges)
    ensures RangesFit(shape, r) && Contiguous(r) && Bounded(shape, r)
    ensures forall d :: 0 <= d < |shape| ==> r[d] == Span(ranges[d].0, ranges[d].1)
  {
    seq(|shape|, d requires 0 <= d < |shape| => Span(ranges[d].0, ranges[d].1))
  }

  /** Index `o` moved forward by each range's start. */
  function StartAt(o: seq<nat>, ranges: seq<(nat, nat)>): (r: seq<nat>)
    requires |o| == |ranges|
    ensures |r| == |o| && forall d :: 0 <= d < |o| ==> r[d] == o[d] + ranges[d].0
  {
    seq(|o|, d requires 0 <= d < |o| => o[d] + ranges[d].0)
  }

  /** Element `o` of the slice is the input element at `o` plus the starts. */
  lemma SliceElement<T>(input: Tensor<T>, ranges: seq<(nat, nat)>, o: seq<nat>)
    requires input.WellFormed() && SpansFit(input.shape, ranges)
    requires InBounds(SliceView(input, Spans(input.shape, ranges)).shape, o)
    ensures InBounds(input.shape, StartAt(o, ranges))
    ensures At(SliceView(input, Spans(input.shape, ranges)), o) == At(input, StartAt(o, ranges))
  {
    var spans := Spans(input.shape, ranges);
    SliceAt(input, spans, o);
    SourceIsStartAt(input.shape, ranges, spans, o);
  }

  /** Along contiguous ranges, the source index is the output index plus the starts. */
  lemma SourceIsStartAt(shape: seq<nat>, ranges: seq<(nat, nat)>, spans: seq<Range>, o: seq<nat>)
    requires SpansFit(shape, ranges) && spans == Spans(shape, ranges)
    requires InBounds(Counts(spans), o)
    ensures Source(shape, spans, o) == StartAt(o, ranges)
  {
    var src := Source(shape, spans, o);
    var at := StartAt(o, ranges);
    forall d | 0 <= d < |shape|
      ensures src[d] == at[d]
    {
      assert spans[d] == Range(ranges[d].0, 1, ranges[d].1 - ranges[d].0);
    }
  }

  /** `slice`: the ranges, then a copy of the elements inside them. */
  method Slice<T>(input: Tensor<T>, starts: Tensor<I32>, ends: Tensor<I32>, axes: Option<Tensor<I32>>) returns (r: Result<Tensor<T>, OpError>)
    requires input.WellFormed()
    ensures RangesAfter(input.shape, starts, ends, axes, PairCount(starts, ends)).Err? ==>
      r == Err(RangesAfter(input.shape, starts, ends, axes, PairCount(starts, ends)).error)
    ensures r.Ok? <==> RangesAfter(input.shape, starts, ends, axes, PairCount(starts, ends)).Ok? &&
                       SpansFit(input.shape, RangesAfter(input.shape, starts, ends, axes, PairCount(starts, ends)).value)
    ensures r.Ok? ==> r.value == SliceView(input, Spans(input.shape, RangesAfter(input.shape, starts, ends, axes, PairCount(starts, ends)).value))
  {
    var ranges :- SliceRanges(input.shape, starts, ends, axes);
    var ok := CheckSpans(input.shape, ranges);
    if !ok {
      return Err(Panic("slice range out of bounds"));
    }
    return Ok(SliceView(input, Spans(input.shape, ranges)));
  }

  /** Whether every range is inside its dimension. */
  method CheckSpans(shape: seq<nat>, ranges: seq<(nat, nat)>) returns (ok: bool)
    requires |ranges| == |shape|
    ensures ok <==> SpansFit(shape, ranges)
  {
    var d := 0;
    while d < |shape|
      invariant 0 <= d <= |shape|
      invariant forall e :: 0 <= e < d ==> ranges[e].0 <= ranges[e].1 <= shape[e]
    {
      if ranges[d].0 > ranges[d].1 || ranges[d].1 > shape[d] {
        return false;
      }
      d := d + 1;
    }
    return true;
  }

  /**
   * `slice_in_place`: clip each dimension in turn to its range. The result is
   * the slice `Slice` copies out.
   */
  method SliceInPlace<T>(t: MutableTensor<T>, starts: Tensor<I32>, ends: Tensor<I32>, axes: Option<Tensor<I32>>) returns (r: Result<(), OpError>)
    requires t.Value().WellFormed()
    modifies t
    ensures r.Ok? <==> RangesAfter(old(t.shape), starts, ends, axes, PairCount(starts, ends)).Ok? &&
                       SpansFit(old(t.shape), RangesAfter(old(t.shape), starts, ends, axes, PairCount(starts, ends)).value)
    ensures r.Ok? ==> t.Value() == SliceView(old(t.Value()), Spans(old(t.shape), RangesAfter(old(t.shape), starts, ends, axes, PairCount(starts, ends)).value))
    ensures r.Err? ==> unchanged(t)
  {
    var ranges :- SliceRanges(t.shape, starts, ends, axes);
    var ok := CheckSpans(t.shape, ranges);
    if !ok {
      return Err(Panic("slice range out of bounds"));
    }
    ClipAll(t, Spans(t.shape, ranges));
    return Ok(());
  }

  // ---------------------------------------------------------------------------
  // Slice::run and Slice::run_in_place
  // ---------------------------------------------------------------------------

  /** The ranges `Slice::run` slices by, given its int inputs. */
  function RunRanges(shape: seq<nat>, starts: Tensor<I32>, ends: Tensor<I32>, axes: Option<Tensor<I32>>): Result<seq<(nat, nat)>, OpError>
  {
    RangesAfter(shape, starts, ends, axes, PairCount(starts, ends))
  }

  /** Slice::run: the input, int starts and ends, optional int axes, then the copy. */
  method SliceRun(inputs: seq<Input>) returns (r: Result<Output, OpError>)
    requires WellFormedInputs(inputs)
    ensures |inputs| == 0 ==> r == Err(MissingInputs)
    ensures |inputs| > 0 && GetInputAsInt(inputs, 1).Err? ==> r == Err(GetInputAsInt(inputs, 1).error)
    ensures |inputs| > 0 && GetInputAsInt(inputs, 1).Ok? && GetInputAsInt(inputs, 2).Err? ==> r == Err(GetInputAsInt(inputs, 2).error)
    ensures r.Ok? ==> |inputs| >= 3 && inputs[1].IntTensor? && inputs[2].IntTensor? && GetOptionalInputAsInt(inputs, 3).Ok?
    ensures r.Ok? ==> r.value.FloatTensor? == inputs[0].FloatTensor?
    ensures r.Ok? ==>
      var ranges := RunRanges(inputs[0].Shape(), inputs[1].i, inputs[2].i, GetOptionalInputAsInt(inputs, 3).value);
      ranges.Ok? && SpansFit(inputs[0].Shape(), ranges.value) &&
      (inputs[0].FloatTensor? ==> r.value.f == SliceView(inputs[0].f, Spans(inputs[0].Shape(), ranges.value))) &&
      (inputs[0].IntTensor? ==> r.value.i == SliceView(inputs[0].i, Spans(inputs[0].Shape(), ranges.value)))
  {
    if |inputs| == 0 {
      return Err(MissingInputs);
    }
    var starts :- GetInputAsInt(inputs, 1);
    var ends :- GetInputAsInt(inputs, 2);
    var axes :- GetOptionalInputAsInt(inputs, 3);
    assert InputWellFormed(inputs[0]);
    match inputs[0]
    case FloatTensor(t) =>
      var out :- Slice(t, starts, ends, axes);
      return Ok(Output.FloatTensor(out));
    case IntTensor(t) =>
      var out :- Slice(t, starts, ends, axes);
      return Ok(Output.IntTensor(out));
  }

  /**
   * Slice::run_in_place: unwraps the owned input as a float tensor and the
   * other inputs as int tensors, each unwrap panicking on a mismatch, then
   * clips in place.
   */
  method SliceRunInPlace(input: Output, other: seq<Input>) returns (r: Result<Output, OpError>)
    requires InputWellFormed(input.AsInput())
    ensures input.IntTensor? ==> r.Err?
    ensures |other| < 2 || !other[0].IntTensor? || !other[1].IntTensor? ==> r.Err?
    ensures |other| > 2 && !other[2].IntTensor? ==> r.Err?
    ensures r.Ok? ==> input.FloatTensor? && r.value.FloatTensor?
    ensures r.Ok? ==>
      var axes := if |other| > 2 then Some(other[2].i) else None;
      var ranges := RunRanges(input.f.shape, other[0].i, other[1].i, axes);
      ranges.Ok? && SpansFit(input.f.shape, ranges.value) &&
      r.value.f == SliceView(input.f, Spans(input.f.shape, ranges.value))
  {
    if !input.FloatTensor? {
      return Err(Panic("called `Option::unwrap()` on a `None` value"));
    }
    if |other| < 1 {
      return Err(Panic("index out of bounds"));
    }
    if !other[0].IntTensor? {
      return Err(Panic("called `Option::unwrap()` on a `None` value"));
    }
    if |other| < 2 {
      return Err(Panic("index out of bounds"));
    }
    if !other[1].IntTensor? {
      return Err(Panic("called `Option::unwrap()` on a `None` value"));
    }
    var axes: Option<Tensor<I32>> := None;
    if |other| > 2 {
      if !other[2].IntTensor? {
        return Err(Panic("called `Option::unwrap()` on a `None` value"));
      }
      axes := Some(other[2].i);
    }
    var t := new MutableTensor(input.f);
    var done := SliceInPlace(t, other[0].i, other[1].i, axes);
    if done.Err? {
      return Err(done.error);
    }
    return Ok(Output.FloatTensor(t.Value()));
  }

  /** A slice whose every range is the whole dimension copies the input unchanged. */
  lemma SliceWhole<T>(input: Tensor<T>)
    requires input.WellFormed()
    ensures SpansFit(input.shape, WholeRanges(input.shape))
    ensures SliceView(input, Spans(input.shape, WholeRanges(input.shape))) == input
  {
    assert Spans(input.shape, WholeRanges(input.shape)) == FullRanges(input.shape);
    SliceFull(input);
  }
}
