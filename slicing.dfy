/**
 * Views of a tensor restricted to a range of positions along every
 * dimension, as the tensor library's slicing and `clip_dim` produce them.
 * The library itself is not part of this model: a slice is specified by the
 * elements it holds, and `clip_dim` by the slice it leaves behind.
 */
module Slicing {
  import opened Tensors

  /** `count` positions along one dimension, from `start`, `step` apart. */
  datatype Range = Range(start: int, step: int, count: nat)
  {
    function Pos(j: nat): int
    {
      start + j * step
    }

    /** Every position of the range lies in a dimension of size `size`. */
    predicate Fits(size: nat)
    {
      forall j: nat :: j < count ==> 0 <= Pos(j) < size
    }
  }

  /** The whole of a dimension of size `size`. */
  function Full(size: nat): (r: Range)
    ensures r.Fits(size) && r.count == size
  {
    Range(0, 1, size)
  }

  /** Positions `start .. end` with step 1. */
  function Span(start: nat, end: nat): (r: Range)
    requires start <= end
    ensures r.count == end - start && forall size: nat :: end <= size ==> r.Fits(size)
  {
    Range(start, 1, end - start)
  }

  /** One range per dimension of `shape`, each inside its dimension. */
  predicate RangesFit(shape: seq<nat>, ranges: seq<Range>)
  {
    |ranges| == |shape| && forall d :: 0 <= d < |shape| ==> ranges[d].Fits(shape[d])
  }

  /** The shape of the slice: one dimension per range, as long as the range. */
  function Counts(ranges: seq<Range>): (r: seq<nat>)
    ensures |r| == |ranges| && forall d :: 0 <= d < |ranges| ==> r[d] == ranges[d].count
  {
    seq(|ranges|, d requires 0 <= d < |ranges| => ranges[d].count)
  }

  /** The full range of every dimension of `shape`. */
  function FullRanges(shape: seq<nat>): (r: seq<Range>)
    ensures RangesFit(shape, r) && Counts(r) == shape
    ensures forall d :: 0 <= d < |shape| ==> r[d] == Full(shape[d])
  {
    seq(|shape|, d requires 0 <= d < |shape| => Full(shape[d]))
  }

  /** The index of `t` under index `o` of the slice. */
  function Source(shape: seq<nat>, ranges: seq<Range>, o: seq<nat>): (r: seq<nat>)
    requires RangesFit(shape, ranges) && InBounds(Counts(ranges), o)
    ensures InBounds(shape, r)
    ensures forall d :: 0 <= d < |shape| ==> r[d] == ranges[d].Pos(o[d])
  {
    seq(|shape|, d requires 0 <= d < |shape| =>
      assert ranges[d].Fits(shape[d]) && o[d] < ranges[d].count;
      ranges[d].Pos(o[d]) as nat)
  }

  /** The slice of `t` by `ranges`, as a new row-major tensor. */
  function SliceView<T>(t: Tensor<T>, ranges: seq<Range>): (r: Tensor<T>)
    requires t.WellFormed() && RangesFit(t.shape, ranges)
    ensures r.WellFormed() && r.shape == Counts(ranges)
  {
    var shape := Counts(ranges);
    Tensor(shape, seq(Product(shape), k requires 0 <= k < Product(shape) =>
      At(t, Source(t.shape, ranges, Unravel(shape, k)))))
  }

  /** Element `o` of the slice is element `Source(o)` of the tensor. */
  lemma SliceAt<T>(t: Tensor<T>, ranges: seq<Range>, o: seq<nat>)
    requires t.WellFormed() && RangesFit(t.shape, ranges) && InBounds(Counts(ranges), o)
    ensures At(SliceView(t, ranges), o) == At(t, Source(t.shape, ranges, o))
  {
    UnravelOffset(Counts(ranges), o);
  }

  /** Slicing every dimension to its full range gives the tensor back. */
  lemma SliceFull<T>(t: Tensor<T>)
    requires t.WellFormed()
    ensures SliceView(t, FullRanges(t.shape)) == t
  {
    var s := SliceView(t, FullRanges(t.shape));
    forall k | 0 <= k < |t.data|
      ensures s.data[k] == t.data[k]
    {
      var o := Unravel(t.shape, k);
      assert Source(t.shape, FullRanges(t.shape), o) == o;
    }
  }

  /** All ranges have step 1. */
  predicate Contiguous(ranges: seq<Range>)
  {
    forall d :: 0 <= d < |ranges| ==> ranges[d].step == 1
  }

  /** The ranges of a slice of a slice, both contiguous, in the first tensor's positions. */
  function Shifted(outer: seq<Range>, inner: seq<Range>): (r: seq<Range>)
    requires |inner| == |outer|
    ensures |r| == |outer|
    ensures forall d :: 0 <= d < |outer| ==> r[d] == Range(outer[d].start + inner[d].start, 1, inner[d].count)
  {
    seq(|outer|, d requires 0 <= d < |outer| => Range(outer[d].start + inner[d].start, 1, inner[d].count))
  }

  lemma ShiftedFits(shape: seq<nat>, outer: seq<Range>, inner: seq<Range>)
    requires RangesFit(shape, outer) && Contiguous(outer)
    requires RangesFit(Counts(outer), inner) && Contiguous(inner)
    ensures RangesFit(shape, Shifted(outer, inner)) && Counts(Shifted(outer, inner)) == Counts(inner)
  {
    var both := Shifted(outer, inner);
    forall d | 0 <= d < |shape|
      ensures both[d].Fits(shape[d])
    {
      forall j: nat | j < both[d].count
        ensures 0 <= both[d].Pos(j) < shape[d]
      {
        assert 0 <= inner[d].Pos(j) < outer[d].count;
        assert outer[d].Pos(inner[d].Pos(j) as nat) == both[d].Pos(j);
      }
    }
  }

  lemma SliceTwiceAt<T>(t: Tensor<T>, outer: seq<Range>, inner: seq<Range>, k: nat)
    requires t.WellFormed() && RangesFit(t.shape, outer) && Contiguous(outer)
    requires RangesFit(Counts(outer), inner) && Contiguous(inner)
    requires k < Product(Counts(inner))
    ensures RangesFit(t.shape, Shifted(outer, inner)) && Counts(Shifted(outer, inner)) == Counts(inner)
    ensures SliceView(SliceView(t, outer), inner).data[k] == SliceView(t, Shifted(outer, inner)).data[k]
  {
    ShiftedFits(t.shape, outer, inner);
    var o := Unravel(Counts(inner), k);
    var mid := Source(Counts(outer), inner, o);
    SliceAt(t, outer, mid);
    assert Source(t.shape, outer, mid) == Source(t.shape, Shifted(outer, inner), o);
  }

  /** A contiguous slice of a contiguous slice is one contiguous slice. */
  lemma SliceTwice<T>(t: Tensor<T>, outer: seq<Range>, inner: seq<Range>)
    requires t.WellFormed() && RangesFit(t.shape, outer) && Contiguous(outer)
    requires RangesFit(Counts(outer), inner) && Contiguous(inner)
    ensures RangesFit(t.shape, Shifted(outer, inner))
    ensures SliceView(SliceView(t, outer), inner) == SliceView(t, Shifted(outer, inner))
  {
    ShiftedFits(t.shape, outer, inner);
    var twice := SliceView(SliceView(t, outer), inner);
    var direct := SliceView(t, Shifted(outer, inner));
    forall k | 0 <= k < |twice.data|
      ensures twice.data[k] == direct.data[k]
    {
      SliceTwiceAt(t, outer, inner, k);
    }
  }

  /** Dimension `d` restricted to `start .. end`, the others whole: what `clip_dim` keeps. */
  function ClipRanges(shape: seq<nat>, d: nat, start: nat, end: nat): (r: seq<Range>)
    requires d < |shape| && start <= end <= shape[d]
    ensures RangesFit(shape, r) && Contiguous(r)
    ensures Counts(r) == SetDim(shape, d, end - start)
  {
    FullRanges(shape)[d := Span(start, end)]
  }

  /** `t` with dimension `d` clipped to `start .. end`. */
  function ClipDim<T>(t: Tensor<T>, d: nat, start: nat, end: nat): (r: Tensor<T>)
    requires t.WellFormed() && d < |t.shape| && start <= end <= t.shape[d]
    ensures r.WellFormed() && r.shape == SetDim(t.shape, d, end - start)
  {
    SliceView(t, ClipRanges(t.shape, d, start, end))
  }

  /** `clip_dim`: the tensor is replaced, in place, by its clipped self. */
  method ClipDimInPlace<T>(t: MutableTensor<T>, d: nat, start: nat, end: nat)
    requires t.Value().WellFormed() && d < |t.shape| && start <= end <= t.shape[d]
    modifies t
    ensures t.Value() == ClipDim(old(t.Value()), d, start, end)
  {
    var clipped := ClipDim(t.Value(), d, start, end);
    t.shape := clipped.shape;
    t.data := clipped.data;
  }

  /** The ranges after the first `k` dimensions are clipped to `ranges` and the rest are whole. */
  function ClippedUpTo(shape: seq<nat>, ranges: seq<Range>, k: nat): (r: seq<Range>)
    requires RangesFit(shape, ranges) && Contiguous(ranges)
    ensures RangesFit(shape, r) && Contiguous(r)
    ensures forall d :: 0 <= d < |shape| ==> r[d] == if d < k then ranges[d] else Full(shape[d])
  {
    seq(|shape|, d requires 0 <= d < |shape| => if d < k then ranges[d] else Full(shape[d]))
  }

  /**
   * Clipping dimension `k` of a tensor whose first `k` dimensions are already
   * clipped extends the clipped prefix by one.
   */
  lemma ClipNext<T>(t: Tensor<T>, ranges: seq<Range>, k: nat)
    requires t.WellFormed() && RangesFit(t.shape, ranges) && Contiguous(ranges) && k < |t.shape|
    requires ranges[k].start >= 0 && ranges[k].start + ranges[k].count <= t.shape[k]
    ensures SliceView(t, ClippedUpTo(t.shape, ranges, k)).shape[k] == t.shape[k]
    ensures ClipDim(SliceView(t, ClippedUpTo(t.shape, ranges, k)), k, ranges[k].start as nat, ranges[k].start as nat + ranges[k].count)
            == SliceView(t, ClippedUpTo(t.shape, ranges, k + 1))
  {
    var before := ClippedUpTo(t.shape, ranges, k);
    var s := SliceView(t, before);
    var start := ranges[k].start as nat;
    var clip := ClipRanges(s.shape, k, start, start + ranges[k].count);
    SliceTwice(t, before, clip);
    var after := ClippedUpTo(t.shape, ranges, k + 1);
    forall d | 0 <= d < |t.shape|
      ensures Shifted(before, clip)[d] == after[d]
    {
    }
    assert Shifted(before, clip) == after;
  }

  /** Every range starts inside its dimension and ends by its end. */
  predicate Bounded(shape: seq<nat>, ranges: seq<Range>)
    requires |ranges| == |shape|
  {
    forall d :: 0 <= d < |shape| ==> 0 <= ranges[d].start && ranges[d].start + ranges[d].count <= shape[d]
  }

  /**
   * Clip every dimension in turn to its range, as the in-place slices do;
   * the tensor ends up as the slice by all the ranges.
   */
  method ClipAll<T>(t: MutableTensor<T>, ranges: seq<Range>)
    requires t.Value().WellFormed() && RangesFit(t.shape, ranges) && Contiguous(ranges) && Bounded(t.shape, ranges)
    modifies t
    ensures t.Value() == SliceView(old(t.Value()), ranges)
  {
    ghost var orig := t.Value();
    SliceFull(orig);
    assert ClippedUpTo(orig.shape, ranges, 0) == FullRanges(orig.shape);
    var dim := 0;
    while dim < |ranges|
      invariant 0 <= dim <= |ranges| == |orig.shape|
      invariant t.Value() == SliceView(orig, ClippedUpTo(orig.shape, ranges, dim))
    {
      var start := ranges[dim].start as nat;
      var end := start + ranges[dim].count;
      assert t.shape[dim] == orig.shape[dim] && end <= orig.shape[dim];
      assert ClipDim(t.Value(), dim, start, end) == SliceView(orig, ClippedUpTo(orig.shape, ranges, dim + 1)) by {
        ClipNext(orig, ranges, dim);
      }
      ClipDimInPlace(t, dim, start, end);
      dim := dim + 1;
    }
    assert ClippedUpTo(orig.shape, ranges, |ranges|) == ranges;
  }

  /** A contiguous range that fits, given by its endpoints. */
  lemma ContiguousBounds(r: Range, size: nat)
    requires r.step == 1 && r.Fits(size) && r.count > 0
    ensures 0 <= r.start && r.start + r.count <= size
  {
    assert 0 <= r.Pos(0) && r.Pos(r.count - 1) < size;
  }
}
