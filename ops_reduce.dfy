/**
 * The reductions of `src/ops/reduce.rs` (ReduceMean, ReduceL2, ReduceMin,
 * ReduceMax, ReduceProd, ReduceSum): the generic `reduce` that applies a
 * reducer to every group of elements sharing their coordinates outside the
 * reduced axes, its three evaluation paths, and the reducers themselves.
 */
module OpsReduce {
  import opened Wrappers
  import opened Tensors
  import opened Ops
  import opened Lanes
  import opened ReduceOrder
  import OpsReshape
  import OpsCumSum
  import OpsArgMax

  // ---------------------------------------------------------------------
  // Axes

  /** `resolve_axes`: every axis resolved as `resolve_axis` does; any invalid axis is an error. */
  function ResolveAxes(ndim: nat, axes: seq<int>): (r: Result<seq<nat>, OpError>)
    ensures r.Ok? <==> forall i :: 0 <= i < |axes| ==> ResolveAxis(ndim, axes[i]).Ok?
    ensures r.Err? ==> r.error == InvalidValue("Axis is invalid")
    ensures r.Ok? ==> (|r.value| == |axes| &&
      forall i :: 0 <= i < |axes| ==> r.value[i] == ResolveAxis(ndim, axes[i]).value)
  {
    if |axes| == 0 then Ok([])
    else
      var first :- ResolveAxis(ndim, axes[0]);
      var rest :- ResolveAxes(ndim, axes[1..]);
      assert forall i :: 1 <= i < |axes| ==> axes[1..][i - 1] == axes[i];
      Ok([first] + rest)
  }

  /** `0, 1, ..., n - 1`. */
  function Range(n: nat): (r: seq<nat>)
    ensures |r| == n && forall i :: 0 <= i < n ==> r[i] == i
  {
    seq(n, i requires 0 <= i < n => i)
  }

  /**
   * The axes `reduce` works on, in ascending order: the given ones, or every
   * axis when none or an empty list is given.
   */
  /** Sorting resolved axes keeps their number and keeps each below `ndim`. */
  lemma SortedAxesBounded(resolved: seq<nat>, sorted: seq<nat>, ndim: nat)
    requires multiset(sorted) == multiset(resolved)
    requires forall i :: 0 <= i < |resolved| ==> resolved[i] < ndim
    ensures |sorted| == |resolved|
    ensures forall i :: 0 <= i < |sorted| ==> sorted[i] < ndim
  {
    assert |sorted| == |multiset(sorted)| == |multiset(resolved)|;
    forall i | 0 <= i < |sorted|
      ensures sorted[i] < ndim
    {
      assert sorted[i] in multiset(resolved);
    }
  }

  function ReduceAxes(ndim: nat, axes: Option<seq<int>>): (r: Result<seq<nat>, OpError>)
    ensures r.Err? <==> axes.Some? && exists i :: 0 <= i < |axes.value| && ResolveAxis(ndim, axes.value[i]).Err?
    ensures r.Err? ==> r.error == InvalidValue("Axis is invalid")
    ensures r.Ok? ==> OpsReshape.Sorted(r.value) && forall i :: 0 <= i < |r.value| ==> r.value[i] < ndim
    ensures r.Ok? && ndim > 0 ==> |r.value| > 0
  {
    match axes
    case Some(a) =>
      if |a| > 0 then
        var resolved :- ResolveAxes(ndim, a);
        var sorted := OpsReshape.SortAxes(resolved);
        SortedAxesBounded(resolved, sorted, ndim);
        Ok(sorted)
      else Ok(Range(ndim))
    case None => Ok(Range(ndim))
  }

  // ---------------------------------------------------------------------
  // Groups

  /** The output shape before squeezing: every reduced axis has size 1. */
  function ReducedShape(shape: seq<nat>, axes: set<nat>): (r: seq<nat>)
    ensures |r| == |shape|
    ensures forall d :: 0 <= d < |shape| ==> r[d] == if d in axes then 1 else shape[d]
  {
    seq(|shape|, d requires 0 <= d < |shape| => if d in axes then 1 else shape[d])
  }

  /** The shape of one group: the reduced axes keep their size, the others have size 1. */
  function GroupShape(shape: seq<nat>, axes: set<nat>): (r: seq<nat>)
    ensures |r| == |shape|
    ensures forall d :: 0 <= d < |shape| ==> r[d] == if d in axes then shape[d] else 1
  {
    seq(|shape|, d requires 0 <= d < |shape| => if d in axes then shape[d] else 1)
  }

  /** The index taking the reduced coordinates from `inner` and the others from `outer`. */
  function Merge(outer: seq<nat>, inner: seq<nat>, axes: set<nat>): (r: seq<nat>)
    requires |outer| == |inner|
    ensures |r| == |outer|
    ensures forall d :: 0 <= d < |r| ==> r[d] == if d in axes then inner[d] else outer[d]
  {
    seq(|outer|, d requires 0 <= d < |outer| => if d in axes then inner[d] else outer[d])
  }

  /** The index of element `k` of group `l`. */
  function GroupIndex(shape: seq<nat>, axes: set<nat>, l: nat, k: nat): (idx: seq<nat>)
    requires l < Product(ReducedShape(shape, axes)) && k < Product(GroupShape(shape, axes))
    ensures InBounds(shape, idx)
  {
    Merge(Unravel(ReducedShape(shape, axes), l), Unravel(GroupShape(shape, axes), k), axes)
  }

  /**
   * Group `l`: the elements whose coordinates off the reduced axes are those
   * of output position `l`, in row-major order of the reduced coordinates
   * (the order `slice_iter` visits them).
   */
  function Group<T>(t: Tensor<T>, axes: set<nat>, l: nat): (r: seq<T>)
    requires t.WellFormed() && l < Product(ReducedShape(t.shape, axes))
    ensures |r| == Product(GroupShape(t.shape, axes))
    ensures forall k :: 0 <= k < |r| ==> r[k] == At(t, GroupIndex(t.shape, axes, l, k))
  {
    seq(Product(GroupShape(t.shape, axes)),
      k requires 0 <= k < Product(GroupShape(t.shape, axes)) => At(t, GroupIndex(t.shape, axes, l, k)))
  }

  /** One reduced value per group. */
  function ReducedData<T>(t: Tensor<T>, axes: set<nat>, reducer: seq<T> -> T): (r: seq<T>)
    requires t.WellFormed()
    ensures |r| == Product(ReducedShape(t.shape, axes))
    ensures forall l :: 0 <= l < |r| ==> r[l] == reducer(Group(t, axes, l))
  {
    seq(Product(ReducedShape(t.shape, axes)),
      l requires 0 <= l < Product(ReducedShape(t.shape, axes)) => reducer(Group(t, axes, l)))
  }

  /**
   * `reduce` as a value. A scalar reduces to a scalar whatever the axes; an
   * empty tensor is an error; otherwise one value per group, the reduced
   * axes kept as size 1 or dropped.
   */
  function ReduceSpec<T>(input: Tensor<T>, axes: Option<seq<int>>, keepDims: bool, reducer: seq<T> -> T)
    : (r: Result<Tensor<T>, OpError>)
    requires input.WellFormed()
    ensures r.Err? <==> (ReduceAxes(|input.shape|, axes).Err? || (|input.shape| > 0 && |input.data| == 0) ||
      (|input.shape| == 1 && |input.data| > 0 && axes.Some? && |axes.value| >= 2))
    ensures r.Err? && ReduceAxes(|input.shape|, axes).Ok? && |input.data| == 0 ==> r.error == InvalidValue("Cannot reduce empty tensor")
    ensures r.Err? && ReduceAxes(|input.shape|, axes).Ok? && |input.data| > 0 ==> r.error == Panic("attempt to subtract with overflow")
    ensures r.Ok? ==> r.value.WellFormed() && |r.value.shape| <= |input.shape|
    ensures r.Ok? && keepDims ==> |r.value.shape| == |input.shape|
  {
    var sorted :- ReduceAxes(|input.shape|, axes);
    if |input.shape| == 0 then Ok(Scalar(reducer(input.data)))
    else if |input.data| == 0 then Err(InvalidValue("Cannot reduce empty tensor"))
    else if InnerDims(sorted, |input.shape|).Err? then
      InnerDimsPanics(sorted, |input.shape|);
      ReduceAxesLength(|input.shape|, axes);
      Err(Panic("attempt to subtract with overflow"))
    else
      InnerDimsPanics(sorted, |input.shape|);
      ReduceAxesLength(|input.shape|, axes);
      var reduced := OpsReshape.AxisSet(sorted);
      var shape := ReducedShape(input.shape, reduced);
      OpsReshape.KeepOnesProduct(shape, reduced);
      Ok(Tensor(if keepDims then shape else OpsReshape.Keep(shape, reduced), ReducedData(input, reduced, reducer)))
  }

  // ---------------------------------------------------------------------
  // The evaluation paths

  /**
   * The `all` test of `reduced_inner_dims` from position `i` on: it stops at
   * the first axis other than `ndim - 1 - i`, and the `usize` subtraction
   * `ndim - 1 - i` panics once `i` reaches `ndim` with axes left to test.
   */
  function InnerFrom(sorted: seq<nat>, ndim: nat, i: nat): (r: Result<bool, OpError>)
    requires i <= |sorted| && i <= ndim
    decreases |sorted| - i
    ensures r.Err? <==> ndim < |sorted| && forall j :: i <= j < ndim ==> sorted[j] == ndim - 1 - j
    ensures r.Err? ==> r.error == Panic("attempt to subtract with overflow")
    ensures r == Ok(true) <==> |sorted| <= ndim && forall j :: i <= j < |sorted| ==> sorted[j] == ndim - 1 - j
  {
    if i == |sorted| then Ok(true)
    else if i == ndim then Err(Panic("attempt to subtract with overflow"))
    else if sorted[i] != ndim - 1 - i then Ok(false)
    else InnerFrom(sorted, ndim, i + 1)
  }

  /**
   * `reduced_inner_dims`: the number of reduced axes when the `i`-th sorted
   * axis is `ndim - 1 - i` for every `i`, nothing when some axis is not, and
   * the subtraction panic when the axes outnumber the dimensions and the
   * first `ndim` of them pass.
   */
  function InnerDims(sorted: seq<nat>, ndim: nat): (r: Result<Option<nat>, OpError>)
    ensures r.Err? <==> ndim < |sorted| && forall i :: 0 <= i < ndim ==> sorted[i] == ndim - 1 - i
    ensures r.Err? ==> r.error == Panic("attempt to subtract with overflow")
    ensures r == Ok(Some(|sorted|)) <==> |sorted| <= ndim && forall i :: 0 <= i < |sorted| ==> sorted[i] == ndim - 1 - i
    ensures r.Ok? && r.value.Some? ==> r.value.value == |sorted|
  {
    var all :- InnerFrom(sorted, ndim, 0);
    Ok(if all then Some(|sorted|) else None)
  }

  /**
   * Sorted axes below `ndim` make the test panic exactly when there is one
   * dimension and two or more axes (necessarily repeats of axis 0).
   */
  lemma InnerDimsPanics(sorted: seq<nat>, ndim: nat)
    requires OpsReshape.Sorted(sorted) && 0 < ndim
    requires forall i :: 0 <= i < |sorted| ==> sorted[i] < ndim
    ensures InnerDims(sorted, ndim).Err? <==> ndim == 1 && |sorted| >= 2
  {
    if ndim >= 2 && ndim < |sorted| {
      assert sorted[0] <= sorted[1];
    }
  }

  /** The number of axes `reduce` sorts: the given ones, or every dimension. */
  lemma ReduceAxesLength(ndim: nat, axes: Option<seq<int>>)
    requires ReduceAxes(ndim, axes).Ok?
    ensures |ReduceAxes(ndim, axes).value| == if axes.Some? && |axes.value| > 0 then |axes.value| else ndim
  {
    match axes
    case Some(a) =>
      if |a| > 0 {
        var resolved := ResolveAxes(ndim, a).value;
        SortedAxesBounded(resolved, OpsReshape.SortAxes(resolved), ndim);
      }
    case None =>
  }

  /**
   * `reduce`: resolve and sort the axes, handle the scalar and empty cases,
   * then take the contiguous-chunk path, the single-axis path or the general
   * path, and squeeze the reduced axes unless `keepDims`.
   */
  method Reduce<T>(input: Tensor<T>, axes: Option<seq<int>>, keepDims: bool, reducer: seq<T> -> T)
    returns (r: Result<Tensor<T>, OpError>)
    requires input.WellFormed()
    ensures r == ReduceSpec(input, axes, keepDims, reducer)
  {
    var resolved := ReduceAxes(|input.shape|, axes);
    if resolved.Err? {
      return Err(resolved.error);
    }
    var sorted := resolved.value;
    if |input.shape| == 0 {
      return Ok(Scalar(reducer(input.data)));
    }
    if |input.data| == 0 {
      return Err(InvalidValue("Cannot reduce empty tensor"));
    }
    var inner := InnerDims(sorted, |input.shape|);
    if inner.Err? {
      return Err(inner.error);
    }
    var reducedAxes := OpsReshape.AxisSet(sorted);
    var data := ReducedValues(input, sorted, reducer);
    var reduced := new MutableTensor(Tensor(ReducedShape(input.shape, reducedAxes), data));
    if !keepDims {
      ReducedAxesSqueeze(input.shape, sorted);
      var squeezed := OpsReshape.SqueezeInPlace(reduced, Some(sorted));
      assert squeezed.Ok?;
    }
    return Ok(reduced.Value());
  }

  /** Squeezing the reduced axes, now of size 1, succeeds and drops exactly them. */
  lemma ReducedAxesSqueeze(shape: seq<nat>, sorted: seq<nat>)
    ensures var reduced := ReducedShape(shape, OpsReshape.AxisSet(sorted));
      OpsReshape.SqueezedShape(reduced, Some(sorted)) == Ok(OpsReshape.Keep(reduced, OpsReshape.AxisSet(sorted)))
  {
    var reduced := ReducedShape(shape, OpsReshape.AxisSet(sorted));
    assert OpsReshape.SqueezeOnesShape(reduced, Some(sorted)).Ok?;
    OpsReshape.SqueezeAgrees(reduced, Some(sorted));
    OpsReshape.KeepOnesProduct(reduced, OpsReshape.AxisSet(sorted));
  }

  /** The three paths that compute the reduced values, each giving one value per group. */
  method ReducedValues<T>(input: Tensor<T>, sorted: seq<nat>, reducer: seq<T> -> T) returns (data: seq<T>)
    requires input.WellFormed() && 0 < |input.shape| && 0 < |input.data|
    requires OpsReshape.Sorted(sorted) && |sorted| > 0 && forall i :: 0 <= i < |sorted| ==> sorted[i] < |input.shape|
    requires InnerDims(sorted, |input.shape|).Ok?
    ensures data == ReducedData(input, OpsReshape.AxisSet(sorted), reducer)
  {
    var inner := InnerDims(sorted, |input.shape|).value;
    if inner.Some? {
      data := ChunkPath(input, sorted, inner.value, reducer);
    } else if |sorted| == 1 {
      data := LanePath(input, sorted[0], reducer);
      GroupIsLane(input, sorted[0]);
      assert OpsReshape.AxisSet(sorted) == {sorted[0]};
    } else {
      data := GroupPath(input, OpsReshape.AxisSet(sorted), reducer);
    }
  }

  /** The general path: one group per output position, in row-major order. */
  method GroupPath<T>(input: Tensor<T>, axes: set<nat>, reducer: seq<T> -> T) returns (data: seq<T>)
    requires input.WellFormed()
    ensures data == ReducedData(input, axes, reducer)
  {
    var count := Product(ReducedShape(input.shape, axes));
    data := [];
    var l := 0;
    while l < count
      invariant 0 <= l <= count && |data| == l
      invariant forall i :: 0 <= i < l ==> data[i] == reducer(Group(input, axes, i))
    {
      data := data + [reducer(Group(input, axes, l))];
      l := l + 1;
    }
  }

  /** The single-axis path: one lane along `d` after the other (`DimSlices`). */
  method LanePath<T>(input: Tensor<T>, d: nat, reducer: seq<T> -> T) returns (data: seq<T>)
    requires input.WellFormed() && d < |input.shape|
    ensures |data| == LaneCount(input.shape, d)
    ensures forall l :: 0 <= l < |data| ==> data[l] == reducer(Lane(input, d, l))
  {
    var count := LaneCount(input.shape, d);
    data := [];
    var l := 0;
    while l < count
      invariant 0 <= l <= count && |data| == l
      invariant forall i :: 0 <= i < l ==> data[i] == reducer(Lane(input, d, i))
    {
      data := data + [reducer(Lane(input, d, l))];
      l := l + 1;
    }
  }

  /** The contiguous-chunk path: the data cut into consecutive chunks of `sliceLen` elements. */
  method ChunkPath<T>(input: Tensor<T>, sorted: seq<nat>, ndims: nat, reducer: seq<T> -> T) returns (data: seq<T>)
    requires input.WellFormed() && 0 < |input.shape| && 0 < |input.data|
    requires OpsReshape.Sorted(sorted) && |sorted| > 0 && InnerDims(sorted, |input.shape|) == Ok(Some(ndims))
    ensures data == ReducedData(input, OpsReshape.AxisSet(sorted), reducer)
  {
    var ndim := |input.shape|;
    var n := ndim - 1;
    InnerDimsOnlyLast(sorted, ndim);
    var sliceLen := if ndims == ndim then |input.data| else Product(input.shape[ndim - ndims..]);
    assert OpsReshape.AxisSet(sorted) == {n};
    assert ndims == 1;
    assert sliceLen == input.shape[n] by {
      assert [input.shape[n]][1..] == [];
      assert input.shape[n] * Product([]) == input.shape[n] * 1;
      if ndims == ndim {
        assert input.shape == [input.shape[n]];
      } else {
        assert input.shape[ndim - ndims..] == [input.shape[n]];
      }
    }
    var count := LaneCount(input.shape, n);
    LaneCountProduct(input.shape, n);
    data := Chunks(input.data, sliceLen, count, reducer);
    GroupIsLane(input, n);
    forall l | 0 <= l < count
      ensures data[l] == reducer(Group(input, {n}, l))
    {
      RowIsLane(input, l);
    }
  }

  /** Chunk `c` of `count` chunks of `w` elements. */
  function Chunk<T>(s: seq<T>, w: nat, count: nat, c: nat): (r: seq<T>)
    requires |s| == count * w && c < count
    ensures |r| == w
  {
    MulMono(c + 1, count, w);
    assert (c + 1) * w == c * w + w;
    s[c * w..c * w + w]
  }

  /** `chunks(w)` followed by the reducer, for data made of `count` whole chunks. */
  method Chunks<T>(s: seq<T>, w: nat, count: nat, reducer: seq<T> -> T) returns (data: seq<T>)
    requires |s| == count * w
    ensures |data| == count
    ensures forall c :: 0 <= c < count ==> data[c] == reducer(Chunk(s, w, count, c))
  {
    data := [];
    var c := 0;
    var start := 0;
    while c < count
      invariant 0 <= c <= count && |data| == c && start == c * w
      invariant forall i :: 0 <= i < c ==> data[i] == reducer(Chunk(s, w, count, i))
    {
      MulMono(c + 1, count, w);
      assert (c + 1) * w == start + w;
      data := data + [reducer(s[start..start + w])];
      c := c + 1;
      start := start + w;
    }
  }

  /** Row `l` of the data is lane `l` along the last axis. */
  lemma RowIsLane<T>(t: Tensor<T>, l: nat)
    requires t.WellFormed() && |t.shape| > 0 && l < LaneCount(t.shape, |t.shape| - 1)
    ensures |t.data| == LaneCount(t.shape, |t.shape| - 1) * t.shape[|t.shape| - 1]
    ensures Chunk(t.data, t.shape[|t.shape| - 1], LaneCount(t.shape, |t.shape| - 1), l) == Lane(t, |t.shape| - 1, l)
  {
    var n := |t.shape| - 1;
    var w := t.shape[n];
    var count := LaneCount(t.shape, n);
    LaneCountProduct(t.shape, n);
    var chunk := Chunk(t.data, w, count, l);
    MulMono(l + 1, count, w);
    assert (l + 1) * w == l * w + w;
    assert chunk == t.data[l * w..l * w + w];
    var lane := Lane(t, n, l);
    forall j | 0 <= j < w
      ensures chunk[j] == lane[j]
    {
      LastLaneIsRow(t, l, j);
      assert chunk[j] == t.data[l * w + j];
    }
    assert |chunk| == |lane|;
  }

  /** Only a lone last axis passes the `reduced_inner_dims` test once the axes are sorted. */
  lemma InnerDimsOnlyLast(sorted: seq<nat>, ndim: nat)
    requires OpsReshape.Sorted(sorted) && |sorted| > 0
    ensures InnerDims(sorted, ndim) == Ok(Some(|sorted|)) <==> sorted == [ndim - 1]
  {
    if |sorted| > 1 {
      assert sorted[0] <= sorted[1];
      assert sorted[0] != ndim - 1 - 0 || sorted[1] != ndim - 1 - 1;
    }
  }

  // ---------------------------------------------------------------------
  // Groups along one axis are lanes

  /** The only index of a shape of ones with size `s` at `d` has its one free coordinate at `d`. */
  lemma {:induction false} SingleAxisIndex(n: nat, d: nat, s: nat, k: nat)
    requires d < n && k < s
    ensures Product(Ones(n)[d := s]) == s
    ensures InBounds(Ones(n)[d := s], Zeros(n)[d := k]) && Offset(Ones(n)[d := s], Zeros(n)[d := k]) == k
  {
    var shape := Ones(n)[d := s];
    var idx := Zeros(n)[d := k];
    if d == 0 {
      assert shape[1..] == Ones(n - 1) && idx[1..] == Zeros(n - 1);
      ProductOnes(n - 1);
      OnesIndex(n - 1, Zeros(n - 1));
    } else {
      assert shape[1..] == Ones(n - 1)[d - 1 := s] && idx[1..] == Zeros(n - 1)[d - 1 := k];
      SingleAxisIndex(n - 1, d - 1, s, k);
      assert InBounds(shape[1..], idx[1..]);
    }
  }

  /** Group `l` of the reduction of axis `d` is lane `l` along `d`. */
  lemma GroupLaneAt<T>(t: Tensor<T>, d: nat, l: nat)
    requires t.WellFormed() && d < |t.shape| && l < LaneCount(t.shape, d)
    requires ReducedShape(t.shape, {d}) == OuterShape(t.shape, d)
    ensures Group(t, {d}, l) == Lane(t, d, l)
  {
    var n := |t.shape|;
    var inner := GroupShape(t.shape, {d});
    assert inner == Ones(n)[d := t.shape[d]];
    assert Product(inner) == t.shape[d] by {
      if t.shape[d] > 0 {
        SingleAxisIndex(n, d, t.shape[d], 0);
      } else {
        ProductSplit(inner, d);
      }
    }
    forall k | 0 <= k < t.shape[d]
      ensures Group(t, {d}, l)[k] == Lane(t, d, l)[k]
    {
      GroupIndexIsLaneIndex(t.shape, d, l, k, inner);
    }
  }

  /** Position `k` of group `l` along the single axis `d` is position `k` of lane `l`. */
  lemma GroupIndexIsLaneIndex(shape: seq<nat>, d: nat, l: nat, k: nat, inner: seq<nat>)
    requires d < |shape| && l < LaneCount(shape, d) && k < shape[d]
    requires ReducedShape(shape, {d}) == OuterShape(shape, d)
    requires inner == GroupShape(shape, {d}) && inner == Ones(|shape|)[d := shape[d]]
    ensures k < Product(inner) && GroupIndex(shape, {d}, l, k) == LaneIndex(shape, d, l, k)
  {
    SingleAxisIndex(|shape|, d, shape[d], k);
    UnravelOffset(inner, Zeros(|shape|)[d := k]);
  }

  /** Reducing one axis `d` groups exactly the lanes along `d`, in lane order. */
  lemma GroupIsLane<T>(t: Tensor<T>, d: nat)
    requires t.WellFormed() && d < |t.shape|
    ensures ReducedShape(t.shape, {d}) == OuterShape(t.shape, d)
    ensures Product(ReducedShape(t.shape, {d})) == LaneCount(t.shape, d)
    ensures forall l :: 0 <= l < LaneCount(t.shape, d) ==> Group(t, {d}, l) == Lane(t, d, l)
  {
    assert ReducedShape(t.shape, {d}) == OuterShape(t.shape, d);
    forall l | 0 <= l < LaneCount(t.shape, d)
      ensures Group(t, {d}, l) == Lane(t, d, l)
    {
      GroupLaneAt(t, d, l);
    }
  }

  // ---------------------------------------------------------------------
  // What `reduce` computes

  /** The reduced shape and one group together hold as many elements as the input. */
  lemma {:induction false} ProductPairwise(a: seq<nat>, b: seq<nat>, shape: seq<nat>)
    requires |a| == |b| == |shape|
    requires forall d :: 0 <= d < |shape| ==> a[d] * b[d] == shape[d]
    ensures Product(a) * Product(b) == Product(shape)
  {
    if |shape| > 0 {
      ProductPairwise(a[1..], b[1..], shape[1..]);
      var p := Product(a[1..]);
      var q := Product(b[1..]);
      calc {
        Product(a) * Product(b);
        (a[0] * p) * (b[0] * q);
        { MulAssoc(a[0] * p, b[0], q); MulAssoc(a[0], p, b[0]); MulAssoc(a[0], b[0], p); }
        (a[0] * b[0]) * p * q;
        { MulAssoc(a[0] * b[0], p, q); }
        shape[0] * Product(shape[1..]);
      }
    }
  }

  /**
   * The groups partition the input: there are as many group elements as
   * input elements, every input index is element `k` of group `l` for the
   * `l` of its coordinates off the reduced axes and the `k` of its
   * coordinates on them, and no two group elements share an index.
   */
  lemma GroupsPartition(shape: seq<nat>, axes: set<nat>, idx: seq<nat>)
    requires InBounds(shape, idx)
    ensures Product(ReducedShape(shape, axes)) * Product(GroupShape(shape, axes)) == Product(shape)
    ensures var outer := Merge(idx, Zeros(|shape|), axes);
      var inner := Merge(Zeros(|shape|), idx, axes);
      InBounds(ReducedShape(shape, axes), outer) && InBounds(GroupShape(shape, axes), inner) &&
      GroupIndex(shape, axes, Offset(ReducedShape(shape, axes), outer), Offset(GroupShape(shape, axes), inner)) == idx
  {
    ProductPairwise(ReducedShape(shape, axes), GroupShape(shape, axes), shape);
    var outer := Merge(idx, Zeros(|shape|), axes);
    var inner := Merge(Zeros(|shape|), idx, axes);
    UnravelOffset(ReducedShape(shape, axes), outer);
    UnravelOffset(GroupShape(shape, axes), inner);
  }

  /** Distinct (group, position) pairs name distinct input indices. */
  lemma GroupIndexInjective(shape: seq<nat>, axes: set<nat>, l: nat, k: nat, l': nat, k': nat)
    requires l < Product(ReducedShape(shape, axes)) && k < Product(GroupShape(shape, axes))
    requires l' < Product(ReducedShape(shape, axes)) && k' < Product(GroupShape(shape, axes))
    requires GroupIndex(shape, axes, l, k) == GroupIndex(shape, axes, l', k')
    ensures l == l' && k == k'
  {
    var reduced := ReducedShape(shape, axes);
    var group := GroupShape(shape, axes);
    var o, o' := Unravel(reduced, l), Unravel(reduced, l');
    var i, i' := Unravel(group, k), Unravel(group, k');
    forall d | 0 <= d < |shape|
      ensures o[d] == o'[d] && i[d] == i'[d]
    {
      assert GroupIndex(shape, axes, l, k)[d] == GroupIndex(shape, axes, l', k')[d];
    }
    assert o == o' && i == i';
  }

  /** With every axis reduced, the only group is the whole data. */
  lemma {:induction false} KeepEverything(shape: seq<nat>, removed: set<nat>)
    requires forall d :: 0 <= d < |shape| ==> d in removed
    ensures OpsReshape.Keep(shape, removed) == []
  {
    if |shape| > 0 {
      KeepEverything(shape[..|shape| - 1], removed);
    }
  }

  /**
   * Reducing every axis (no axes, or an empty list) applies the reducer to
   * the whole data: a scalar, or a tensor of ones with `keepDims`.
   */
  lemma ReduceAllAxes<T>(input: Tensor<T>, axes: Option<seq<int>>, keepDims: bool, reducer: seq<T> -> T)
    requires input.WellFormed() && |input.data| > 0
    requires axes.None? || axes == Some([])
    ensures ReduceSpec(input, axes, keepDims, reducer) ==
      Ok(Tensor(if keepDims then Ones(|input.shape|) else [], [reducer(input.data)]))
  {
    var n := |input.shape|;
    if n > 0 {
      var all := OpsReshape.AxisSet(Range(n));
      forall d | 0 <= d < n
        ensures d in all
      {
        assert Range(n)[d] == d;
      }
      var reduced := ReducedShape(input.shape, all);
      assert reduced == Ones(n);
      assert GroupShape(input.shape, all) == input.shape;
      ProductOnes(n);
      KeepEverything(reduced, all);
      assert Group(input, all, 0) == input.data by {
        WholeGroup(input, all);
      }
      assert ReducedData(input, all, reducer) == [reducer(input.data)];
    }
  }

  /** When every axis is reduced, the only group is the whole data in order. */
  lemma WholeGroup<T>(input: Tensor<T>, all: set<nat>)
    requires input.WellFormed()
    requires ReducedShape(input.shape, all) == Ones(|input.shape|) && GroupShape(input.shape, all) == input.shape
    ensures Product(ReducedShape(input.shape, all)) == 1 && Group(input, all, 0) == input.data
  {
    var n := |input.shape|;
    var reduced := ReducedShape(input.shape, all);
    ProductOnes(n);
    OnesIndex(n, Unravel(reduced, 0));
    var group := Group(input, all, 0);
    forall k | 0 <= k < |input.data|
      ensures group[k] == input.data[k]
    {
      assert GroupIndex(input.shape, all, 0, k) == Unravel(input.shape, k);
    }
  }

  /**
   * Reducing one axis applies the reducer to every lane along it, in lane
   * order; the axis becomes 1 or is dropped.
   */
  lemma ReduceOneAxis<T>(input: Tensor<T>, axis: int, keepDims: bool, reducer: seq<T> -> T)
    requires input.WellFormed() && |input.data| > 0 && ResolveAxis(|input.shape|, axis).Ok?
    ensures var d := ResolveAxis(|input.shape|, axis).value;
      var r := ReduceSpec(input, Some([axis]), keepDims, reducer);
      r.Ok? &&
      r.value.shape == (if keepDims then input.shape[d := 1] else input.shape[..d] + input.shape[d + 1..]) &&
      |r.value.data| == LaneCount(input.shape, d) &&
      forall l :: 0 <= l < LaneCount(input.shape, d) ==> r.value.data[l] == reducer(Lane(input, d, l))
  {
    var d := ResolveAxis(|input.shape|, axis).value;
    var sorted := ReduceAxes(|input.shape|, Some([axis])).value;
    assert sorted == [d] by {
      var resolved := ResolveAxes(|input.shape|, [axis]);
      assert [axis][0] == axis;
      assert resolved.Ok? && resolved.value == [d];
      assert OpsReshape.SortAxes([d]) == [d];
    }
    assert OpsReshape.AxisSet(sorted) == {d};
    GroupIsLane(input, d);
    OpsArgMax.KeepOne(OuterShape(input.shape, d), d);
  }

  // ---------------------------------------------------------------------
  // Reducers

  /** The value of a float, counting NaN as 0 (only used where no NaN occurs). */
  function ValueOf(x: F32): real
  {
    if x.Num? then x.value else 0.0
  }

  /** The exact sum of the values, added front to back: the reference for `Iterator::sum`. */
  function Total(s: seq<F32>): real
  {
    if |s| == 0 then 0.0 else ValueOf(s[0]) + Total(s[1..])
  }

  lemma {:induction false} TotalSnoc(s: seq<F32>)
    requires |s| > 0
    ensures Total(s) == Total(s[..|s| - 1]) + ValueOf(s[|s| - 1])
  {
    if |s| > 1 {
      assert s[1..][..|s| - 2] == s[..|s| - 1][1..];
      TotalSnoc(s[1..]);
    }
  }

  lemma HasNaNSnoc(s: seq<F32>)
    requires |s| > 0
    ensures HasNaN(s) <==> HasNaN(s[..|s| - 1]) || s[|s| - 1].NaN?
  {
    var p := s[..|s| - 1];
    if HasNaN(p) {
      var j :| 0 <= j < |p| && p[j].NaN?;
      assert s[j].NaN?;
    }
    if HasNaN(s) {
      var j :| 0 <= j < |s| && s[j].NaN?;
      if j < |p| {
        assert p[j].NaN?;
      }
    }
  }

  lemma {:induction false} SumFloat(s: seq<F32>)
    ensures var r := OpsCumSum.Sum(s, Num(0.0), OpsCumSum.AddF32);
      (r.NaN? <==> HasNaN(s)) && (!HasNaN(s) ==> r == Num(Total(s)))
  {
    if |s| > 0 {
      SumFloat(s[..|s| - 1]);
      HasNaNSnoc(s);
      TotalSnoc(s);
    }
  }

  /**
   * The reducer of ReduceSum on floats (`Iterator::sum`): NaN when an
   * element is NaN, otherwise the total of the values.
   */
  function SumF32(s: seq<F32>): (r: F32)
    ensures r.NaN? <==> HasNaN(s)
    ensures !HasNaN(s) ==> r == Num(Total(s))
  {
    SumFloat(s);
    OpsCumSum.Sum(s, Num(0.0), OpsCumSum.AddF32)
  }

  /** The mathematical sum of integers, added front to back. */
  function IntTotal(s: seq<I32>): int
  {
    if |s| == 0 then 0 else s[0] + IntTotal(s[1..])
  }

  lemma {:induction false} IntTotalSnoc(s: seq<I32>)
    requires |s| > 0
    ensures IntTotal(s) == IntTotal(s[..|s| - 1]) + s[|s| - 1]
  {
    if |s| > 1 {
      assert s[1..][..|s| - 2] == s[..|s| - 1][1..];
      IntTotalSnoc(s[1..]);
    }
  }

  /** `Iterator::sum` from 0 on the exact values: the total. */
  lemma {:induction false} SumIsTotal(s: seq<I32>)
    ensures OpsCumSum.Sum<int>(s, 0, OpsCumSum.AddInt) == IntTotal(s)
  {
    if |s| > 0 {
      SumIsTotal(s[..|s| - 1]);
      IntTotalSnoc(s);
    }
  }

  /**
   * Some partial sum of `s`, added front to back from 0, leaves the `i32`
   * range: the point where a build with overflow checks panics.
   */
  predicate SumOverflows(s: seq<I32>)
  {
    exists k :: 0 < k <= |s| && !OpsCumSum.InI32(OpsCumSum.Sum<int>(s[..k], 0, OpsCumSum.AddInt))
  }

  /** Without an overflowing partial sum, the total itself is in range. */
  lemma SumInRange(s: seq<I32>)
    ensures !SumOverflows(s) ==> OpsCumSum.InI32(IntTotal(s))
  {
    SumIsTotal(s);
    if |s| > 0 {
      assert s[..|s|] == s;
    }
  }

  /**
   * The reducer of ReduceSum on `i32` (`Iterator::sum`): the total. When a
   * partial sum overflows the operator panics instead (ReduceRunSpec), and
   * 0 stands for the value never produced.
   */
  function SumI32(s: seq<I32>): (r: I32)
    ensures !SumOverflows(s) ==> r == IntTotal(s)
    ensures MinI32 <= IntTotal(s) <= MaxI32 ==> r == IntTotal(s)
  {
    SumInRange(s);
    if OpsCumSum.InI32(IntTotal(s)) then IntTotal(s) else 0
  }

  /** `f32 * f32`: NaN absorbs, finite values multiply exactly (rounding is not modelled). */
  function MulF32(a: F32, b: F32): (r: F32)
    ensures r.NaN? <==> a.NaN? || b.NaN?
    ensures a.Num? && b.Num? ==> r == Num(a.value * b.value)
  {
    if a.NaN? || b.NaN? then NaN else Num(a.value * b.value)
  }

  /** `i32 * i32` on the exact values. */
  function MulInt(a: int, b: int): int
  {
    a * b
  }

  /** The exact product of the values, multiplied front to back. */
  function RealProduct(s: seq<F32>): real
  {
    if |s| == 0 then 1.0 else ValueOf(s[0]) * RealProduct(s[1..])
  }

  lemma {:induction false} RealProductSnoc(s: seq<F32>)
    requires |s| > 0
    ensures RealProduct(s) == RealProduct(s[..|s| - 1]) * ValueOf(s[|s| - 1])
  {
    if |s| > 1 {
      assert s[1..][..|s| - 2] == s[..|s| - 1][1..];
      RealProductSnoc(s[1..]);
      var a := ValueOf(s[0]);
      var m := RealProduct(s[1..][..|s| - 2]);
      var z := ValueOf(s[|s| - 1]);
      assert a * (m * z) == (a * m) * z;
    }
  }

  lemma {:induction false} ProdFloat(s: seq<F32>)
    ensures var r := OpsCumSum.Sum(s, Num(1.0), MulF32);
      (r.NaN? <==> HasNaN(s)) && (!HasNaN(s) ==> r == Num(RealProduct(s)))
  {
    if |s| > 0 {
      ProdFloat(s[..|s| - 1]);
      HasNaNSnoc(s);
      RealProductSnoc(s);
    }
  }

  /**
   * The reducer of ReduceProd on floats (`Iterator::product`): NaN when an
   * element is NaN, otherwise the product of the values.
   */
  function ProdF32(s: seq<F32>): (r: F32)
    ensures r.NaN? <==> HasNaN(s)
    ensures !HasNaN(s) ==> r == Num(RealProduct(s))
  {
    ProdFloat(s);
    OpsCumSum.Sum(s, Num(1.0), MulF32)
  }

  /** The mathematical product of integers, multiplied front to back. */
  function IntProduct(s: seq<I32>): int
  {
    if |s| == 0 then 1 else s[0] * IntProduct(s[1..])
  }

  lemma {:induction false} IntProductSnoc(s: seq<I32>)
    requires |s| > 0
    ensures IntProduct(s) == IntProduct(s[..|s| - 1]) * s[|s| - 1]
  {
    if |s| > 1 {
      assert s[1..][..|s| - 2] == s[..|s| - 1][1..];
      IntProductSnoc(s[1..]);
      var a := s[0];
      var m := IntProduct(s[1..][..|s| - 2]);
      var z := s[|s| - 1];
      assert a * (m * z) == (a * m) * z;
    }
  }

  /** `Iterator::product` from 1 on the exact values: the product. */
  lemma {:induction false} ProdIsProduct(s: seq<I32>)
    ensures OpsCumSum.Sum<int>(s, 1, MulInt) == IntProduct(s)
  {
    if |s| > 0 {
      ProdIsProduct(s[..|s| - 1]);
      IntProductSnoc(s);
    }
  }

  /** Some partial product of `s`, multiplied front to back from 1, leaves the `i32` range. */
  predicate ProdOverflows(s: seq<I32>)
  {
    exists k :: 0 < k <= |s| && !OpsCumSum.InI32(OpsCumSum.Sum<int>(s[..k], 1, MulInt))
  }

  /** Without an overflowing partial product, the product itself is in range. */
  lemma ProdInRange(s: seq<I32>)
    ensures !ProdOverflows(s) ==> OpsCumSum.InI32(IntProduct(s))
  {
    ProdIsProduct(s);
    if |s| > 0 {
      assert s[..|s|] == s;
    }
  }

  /**
   * The reducer of ReduceProd on `i32` (`Iterator::product`): the product.
   * When a partial product overflows the operator panics instead, and 0
   * stands for the value never produced.
   */
  function ProdI32(s: seq<I32>): (r: I32)
    ensures !ProdOverflows(s) ==> r == IntProduct(s)
    ensures MinI32 <= IntProduct(s) <= MaxI32 ==> r == IntProduct(s)
  {
    ProdInRange(s);
    if OpsCumSum.InI32(IntProduct(s)) then IntProduct(s) else 0
  }

  /**
   * The reducer of ReduceMax on floats, `max_by(cmp_nan_greater)`: NaN when
   * an element is NaN, otherwise an element no smaller than any other. The
   * source panics on an empty group, which `reduce` never forms
   * (GroupsNonEmpty); NaN stands in for it.
   */
  function MaxOfF32(s: seq<F32>): (r: F32)
    ensures |s| > 0 ==> (r.NaN? <==> HasNaN(s))
    ensures |s| > 0 && !HasNaN(s) ==>
      (forall j :: 0 <= j < |s| ==> s[j].value <= r.value) && exists j :: 0 <= j < |s| && s[j] == r
  {
    if |s| == 0 then NaN
    else
      ReduceMaxValue(s);
      s[MaxByIndex(s, CmpNanGreater)]
  }

  /**
   * The reducer of ReduceMin on floats, `min_by(cmp_nan_less)`: NaN when an
   * element is NaN, otherwise an element no larger than any other.
   */
  function MinOfF32(s: seq<F32>): (r: F32)
    ensures |s| > 0 ==> (r.NaN? <==> HasNaN(s))
    ensures |s| > 0 && !HasNaN(s) ==>
      (forall j :: 0 <= j < |s| ==> r.value <= s[j].value) && exists j :: 0 <= j < |s| && s[j] == r
  {
    if |s| == 0 then NaN
    else
      MinByChoice(s);
      var i := MinByIndex(s, CmpNanLess);
      s[i]
  }

  /** Integers as the (never NaN) floats the comparators see. */
  function Keys(s: seq<I32>): (r: seq<F32>)
    ensures |r| == |s| && !HasNaN(r)
    ensures forall j :: 0 <= j < |s| ==> r[j] == IntKey(s[j])
  {
    seq(|s|, j requires 0 <= j < |s| => IntKey(s[j]))
  }

  /** The reducer of ReduceMax on `i32`: the largest element. */
  function MaxOfI32(s: seq<I32>): (r: I32)
    ensures |s| > 0 ==> (forall j :: 0 <= j < |s| ==> s[j] <= r) && exists j :: 0 <= j < |s| && s[j] == r
  {
    if |s| == 0 then 0
    else
      var keys := Keys(s);
      ReduceMaxValue(keys);
      var i := MaxByIndex(keys, CmpNanGreater);
      assert forall j :: 0 <= j < |s| ==> keys[j].value <= keys[i].value;
      s[i]
  }

  /** The reducer of ReduceMin on `i32`: the smallest element. */
  function MinOfI32(s: seq<I32>): (r: I32)
    ensures |s| > 0 ==> (forall j :: 0 <= j < |s| ==> r <= s[j]) && exists j :: 0 <= j < |s| && s[j] == r
  {
    if |s| == 0 then 0
    else
      var keys := Keys(s);
      MinByChoice(keys);
      var i := MinByIndex(keys, CmpNanLess);
      assert forall j :: 0 <= j < |s| ==> keys[i].value <= keys[j].value;
      s[i]
  }

  /**
   * The reducer of ReduceMean: the sum divided by the element count; NaN
   * when an element is NaN, and for an empty group (0 / 0).
   */
  function MeanF32(s: seq<F32>): (r: F32)
    ensures r.NaN? <==> |s| == 0 || HasNaN(s)
    ensures |s| > 0 && !HasNaN(s) ==> r == Num(Total(s) / |s| as real)
  {
    var sum := SumF32(s);
    if sum.NaN? || |s| == 0 then NaN else Num(sum.value / |s| as real)
  }

  /** Each element times itself. */
  function Squares(s: seq<F32>): (r: seq<F32>)
    ensures |r| == |s| && forall j :: 0 <= j < |s| ==> r[j] == MulF32(s[j], s[j])
  {
    seq(|s|, j requires 0 <= j < |s| => MulF32(s[j], s[j]))
  }

  lemma SquaresNaN(s: seq<F32>)
    ensures HasNaN(Squares(s)) <==> HasNaN(s)
  {
    if HasNaN(s) {
      var j :| 0 <= j < |s| && s[j].NaN?;
      assert Squares(s)[j].NaN?;
    }
  }

  lemma {:induction false} TotalNonNegative(s: seq<F32>)
    requires forall j :: 0 <= j < |s| ==> ValueOf(s[j]) >= 0.0
    ensures Total(s) >= 0.0
  {
    if |s| > 0 {
      assert forall j :: 0 <= j < |s| - 1 ==> s[1..][j] == s[j + 1];
      TotalNonNegative(s[1..]);
    }
  }

  lemma SquaresNonNegative(s: seq<F32>)
    ensures Total(Squares(s)) >= 0.0
  {
    forall j | 0 <= j < |s|
      ensures ValueOf(Squares(s)[j]) >= 0.0
    {
      if s[j].Num? {
        var v := s[j].value;
        assert v * v >= 0.0;
      }
    }
    TotalNonNegative(Squares(s));
  }

  /**
   * The reducer of ReduceL2: the square root of the sum of squares; NaN
   * when an element is NaN. The sum it takes the root of is never negative.
   * `sqrt` stands for `f32::sqrt`.
   */
  function L2F32(s: seq<F32>, sqrt: real -> real): (r: F32)
    ensures r.NaN? <==> HasNaN(s)
    ensures !HasNaN(s) ==> Total(Squares(s)) >= 0.0 && r == Num(sqrt(Total(Squares(s))))
  {
    SquaresNaN(s);
    SquaresNonNegative(s);
    match SumF32(Squares(s))
    case NaN => NaN
    case Num(v) => Num(sqrt(v))
  }

  // ---------------------------------------------------------------------
  // Properties of the reductions

  /** An input with elements forms no empty group, so no reducer meets an empty group. */
  lemma GroupsNonEmpty<T>(t: Tensor<T>, axes: set<nat>, l: nat)
    requires t.WellFormed() && |t.data| > 0 && l < Product(ReducedShape(t.shape, axes))
    ensures |Group(t, axes, l)| > 0
  {
    ProductZero(t.shape);
    ProductZero(GroupShape(t.shape, axes));
  }

  /** The sum of values between `lo` and `hi` lies between `|s| * lo` and `|s| * hi`. */
  lemma {:induction false} TotalBounds(s: seq<F32>, lo: real, hi: real)
    requires forall j :: 0 <= j < |s| ==> lo <= ValueOf(s[j]) <= hi
    ensures |s| as real * lo <= Total(s) <= |s| as real * hi
  {
    if |s| > 0 {
      assert forall j :: 0 <= j < |s| - 1 ==> s[1..][j] == s[j + 1];
      TotalBounds(s[1..], lo, hi);
      var n := (|s| - 1) as real;
      assert |s| as real * lo == n * lo + lo;
      assert |s| as real * hi == n * hi + hi;
    }
  }

  /** Dividing a total between `n * lo` and `n * hi` by `n` gives a value between `lo` and `hi`. */
  lemma DivBetween(t: real, n: real, lo: real, hi: real)
    requires n > 0.0 && n * lo <= t <= n * hi
    ensures lo <= t / n <= hi
  {
    assert (t / n) * n == t;
  }

  /** Bounds on every element of a NaN-free group bound its mean. */
  lemma MeanWithin(s: seq<F32>, lo: real, hi: real)
    requires |s| > 0 && !HasNaN(s)
    requires forall j :: 0 <= j < |s| ==> lo <= ValueOf(s[j]) <= hi
    ensures lo <= MeanF32(s).value <= hi
  {
    TotalBounds(s, lo, hi);
    var n, t := |s| as real, Total(s);
    assert n * lo <= t <= n * hi;
    DivBetween(t, n, lo, hi);
  }

  /** The mean of a NaN-free group lies between its minimum and its maximum. */
  lemma MeanBetween(s: seq<F32>)
    requires |s| > 0 && !HasNaN(s)
    ensures MinOfF32(s).value <= MeanF32(s).value <= MaxOfF32(s).value
  {
    var lo, hi := MinOfF32(s).value, MaxOfF32(s).value;
    assert forall j :: 0 <= j < |s| ==> lo <= ValueOf(s[j]) <= hi;
    MeanWithin(s, lo, hi);
  }

  /** Every element of a group is at the position GroupsPartition assigns it. */
  lemma GroupElement<T>(t: Tensor<T>, axes: set<nat>, idx: seq<nat>) returns (l: nat, k: nat)
    requires t.WellFormed() && InBounds(t.shape, idx)
    ensures l < Product(ReducedShape(t.shape, axes)) && k < |Group(t, axes, l)|
    ensures l == Offset(ReducedShape(t.shape, axes), Merge(idx, Zeros(|t.shape|), axes))
    ensures Group(t, axes, l)[k] == At(t, idx)
  {
    GroupsPartition(t.shape, axes, idx);
    l := Offset(ReducedShape(t.shape, axes), Merge(idx, Zeros(|t.shape|), axes));
    k := Offset(GroupShape(t.shape, axes), Merge(Zeros(|t.shape|), idx, axes));
  }

  /** Both numbers, the first no larger than the second. */
  predicate NumLe(a: F32, b: F32)
  {
    a.Num? && b.Num? && a.value <= b.value
  }

  /**
   * ReduceMax and ReduceMin bound every element of a NaN-free input by the
   * output it is reduced into, and a NaN element makes that output NaN.
   */
  lemma ReduceMinMaxBounds(t: Tensor<F32>, axes: set<nat>, idx: seq<nat>)
    requires t.WellFormed() && InBounds(t.shape, idx)
    ensures var l := Offset(ReducedShape(t.shape, axes), Merge(idx, Zeros(|t.shape|), axes));
      var hi := ReducedData(t, axes, MaxOfF32);
      var lo := ReducedData(t, axes, MinOfF32);
      l < |hi| && l < |lo| &&
      (At(t, idx).NaN? ==> hi[l].NaN? && lo[l].NaN?) &&
      (!HasNaN(t.data) ==> NumLe(lo[l], At(t, idx)) && NumLe(At(t, idx), hi[l]))
  {
    var l, k := GroupElement(t, axes, idx);
    var g := Group(t, axes, l);
    var hi := ReducedData(t, axes, MaxOfF32);
    var lo := ReducedData(t, axes, MinOfF32);
    assert hi[l] == MaxOfF32(g) && lo[l] == MinOfF32(g);
    var x := At(t, idx);
    assert g[k] == x;
    if !HasNaN(t.data) {
      GroupNaNFree(t, axes, l);
      assert lo[l].value <= x.value <= hi[l].value;
    }
  }

  /** The groups of a NaN-free input are NaN-free. */
  lemma GroupNaNFree(t: Tensor<F32>, axes: set<nat>, l: nat)
    requires t.WellFormed() && l < Product(ReducedShape(t.shape, axes))
    ensures !HasNaN(t.data) ==> !HasNaN(Group(t, axes, l))
  {
    var g := Group(t, axes, l);
    if HasNaN(g) {
      var j :| 0 <= j < |g| && g[j].NaN?;
      assert g[j] == t.data[Offset(t.shape, GroupIndex(t.shape, axes, l, j))];
    }
  }

  /** Reducing a vector along its only axis gives the scalar of the whole vector. */
  lemma ReduceVector<T>(v: Tensor<T>, axis: int, reducer: seq<T> -> T)
    requires v.WellFormed() && |v.shape| == 1 && |v.data| > 0 && (axis == 0 || axis == -1)
    ensures ReduceSpec(v, Some([axis]), false, reducer) == Ok(Scalar(reducer(v.data)))
  {
    ReduceOneAxis(v, axis, false, reducer);
    VectorLane(v);
    var r := ReduceSpec(v, Some([axis]), false, reducer);
    assert r.value.data == [reducer(v.data)];
  }

  // ---------------------------------------------------------------------
  // The operators

  /** The six reduction operators. */
  datatype ReduceOp = ReduceMean | ReduceL2 | ReduceMin | ReduceMax | ReduceProd | ReduceSum

  /** The reducer an operator applies to float groups; `sqrt` stands for `f32::sqrt`. */
  function FloatReducer(op: ReduceOp, sqrt: real -> real): seq<F32> -> F32
  {
    match op
    case ReduceMean => MeanF32
    case ReduceL2 => s => L2F32(s, sqrt)
    case ReduceMin => MinOfF32
    case ReduceMax => MaxOfF32
    case ReduceProd => ProdF32
    case ReduceSum => SumF32
  }

  /** The reducer an operator applies to `i32` groups (ReduceMean and ReduceL2 take floats only). */
  function IntReducer(op: ReduceOp): seq<I32> -> I32
    requires !op.ReduceMean? && !op.ReduceL2?
  {
    match op
    case ReduceMin => MinOfI32
    case ReduceMax => MaxOfI32
    case ReduceProd => ProdI32
    case ReduceSum => SumI32
  }

  /** The partial results of an operator's `i32` reducer overflow: only sums and products can. */
  predicate Overflows(op: ReduceOp, s: seq<I32>)
  {
    match op
    case ReduceSum => SumOverflows(s)
    case ReduceProd => ProdOverflows(s)
    case _ => false
  }

  /** The message of the panic an overflowing sum or product raises. */
  function OverflowMessage(op: ReduceOp): string
  {
    if op.ReduceProd? then "attempt to multiply with overflow" else "attempt to add with overflow"
  }

  /** Reducing `t` overflows in some group (when the axes are valid and `t` is not a scalar). */
  predicate ReduceOverflows(t: Tensor<I32>, axes: Option<seq<int>>, op: ReduceOp)
  {
    match ReduceAxes(|t.shape|, axes)
    case Err(_) => false
    case Ok(sorted) =>
      var reduced := OpsReshape.AxisSet(sorted);
      t.WellFormed() && |t.shape| > 0 &&
      exists l :: 0 <= l < Product(ReducedShape(t.shape, reduced)) && Overflows(op, Group(t, reduced, l))
  }

  /**
   * `run` of the six operators: input 0 is required; ReduceMean and
   * ReduceL2 require a float tensor, the others reduce either kind and
   * return the same kind. On `i32`, a sum or product that overflows in
   * some group is a panic, as in a build with overflow checks.
   */
  function ReduceRunSpec(op: ReduceOp, axes: Option<seq<int>>, keepDims: bool, sqrt: real -> real, inputs: seq<Input>)
    : (r: Result<Output, OpError>)
    requires WellFormedInputs(inputs)
    ensures |inputs| == 0 ==> r == Err(MissingInputs)
    ensures |inputs| > 0 && inputs[0].IntTensor? && (op.ReduceMean? || op.ReduceL2?) ==> r == Err(UnsupportedInputType)
    ensures r.Ok? ==> |inputs| > 0 && (r.value.FloatTensor? <==> inputs[0].FloatTensor?)
    ensures r.Ok? && r.value.FloatTensor? ==> ReduceSpec(inputs[0].f, axes, keepDims, FloatReducer(op, sqrt)) == Ok(r.value.f)
    ensures r.Ok? && r.value.IntTensor? ==> (!op.ReduceMean? && !op.ReduceL2? &&
      ReduceSpec(inputs[0].i, axes, keepDims, IntReducer(op)) == Ok(r.value.i) && !ReduceOverflows(inputs[0].i, axes, op))
    ensures (|inputs| > 0 && inputs[0].IntTensor? && !op.ReduceMean? && !op.ReduceL2? &&
      ReduceSpec(inputs[0].i, axes, keepDims, IntReducer(op)).Ok? && ReduceOverflows(inputs[0].i, axes, op)) ==>
      r == Err(Panic(OverflowMessage(op)))
  {
    if |inputs| == 0 then Err(MissingInputs)
    else
      assert InputWellFormed(inputs[0]);
      match inputs[0]
      case FloatTensor(t) =>
        var out :- ReduceSpec(t, axes, keepDims, FloatReducer(op, sqrt));
        Ok(Output.FloatTensor(out))
      case IntTensor(t) =>
        if op.ReduceMean? || op.ReduceL2? then Err(UnsupportedInputType)
        else
          var out :- ReduceSpec(t, axes, keepDims, IntReducer(op));
          if ReduceOverflows(t, axes, op) then Err(Panic(OverflowMessage(op))) else Ok(Output.IntTensor(out))
  }

  /** The operators' `run`, through the imperative `reduce`. */
  method ReduceRun(op: ReduceOp, axes: Option<seq<int>>, keepDims: bool, sqrt: real -> real, inputs: seq<Input>)
    returns (r: Result<Output, OpError>)
    requires WellFormedInputs(inputs)
    ensures r == ReduceRunSpec(op, axes, keepDims, sqrt, inputs)
  {
    if |inputs| == 0 {
      return Err(MissingInputs);
    }
    assert InputWellFormed(inputs[0]);
    match inputs[0]
    case FloatTensor(t) =>
      var out :- Reduce(t, axes, keepDims, FloatReducer(op, sqrt));
      r := Ok(Output.FloatTensor(out));
    case IntTensor(t) =>
      if op.ReduceMean? || op.ReduceL2? {
        return Err(UnsupportedInputType);
      }
      var out :- Reduce(t, axes, keepDims, IntReducer(op));
      if ReduceOverflows(t, axes, op) {
        return Err(Panic(OverflowMessage(op)));
      }
      r := Ok(Output.IntTensor(out));
  }

  /**
   * Every element of a successful `i32` ReduceSum is the exact total of
   * its group, and of ReduceProd the exact product.
   */
  lemma IntReduceExact(op: ReduceOp, axes: Option<seq<int>>, keepDims: bool, sqrt: real -> real, t: Tensor<I32>)
    requires t.WellFormed() && |t.shape| > 0 && (op.ReduceSum? || op.ReduceProd?)
    requires ReduceRunSpec(op, axes, keepDims, sqrt, [Input.IntTensor(t)]).Ok?
    ensures var reduced := OpsReshape.AxisSet(ReduceAxes(|t.shape|, axes).value);
      var out := ReduceRunSpec(op, axes, keepDims, sqrt, [Input.IntTensor(t)]).value.i;
      |out.data| == Product(ReducedShape(t.shape, reduced)) &&
      forall l :: 0 <= l < |out.data| ==>
        out.data[l] == if op.ReduceSum? then IntTotal(Group(t, reduced, l)) else IntProduct(Group(t, reduced, l))
  {
    var inputs := [Input.IntTensor(t)];
    assert WellFormedInputs(inputs) by {
      assert InputWellFormed(inputs[0]);
    }
    var reduced := OpsReshape.AxisSet(ReduceAxes(|t.shape|, axes).value);
    var out := ReduceRunSpec(op, axes, keepDims, sqrt, inputs).value.i;
    assert out.data == ReducedData(t, reduced, IntReducer(op));
    assert !ReduceOverflows(t, axes, op);
    forall l | 0 <= l < |out.data|
      ensures out.data[l] == if op.ReduceSum? then IntTotal(Group(t, reduced, l)) else IntProduct(Group(t, reduced, l))
    {
      assert !Overflows(op, Group(t, reduced, l));
    }
  }

  // ---------------------------------------------------------------------
  // Examples

  function Halves(): seq<F32>
  {
    [Num(1.5), Num(2.5), Num(3.5), Num(4.5), Num(5.5)]
  }

  /**
   * Along its only axis, a vector of five increasing numbers reduces to its
   * first under ReduceMin and to its last under ReduceMax.
   */
  lemma IncreasingMinMax(h: seq<F32>)
    requires |h| == 5 && forall j :: 0 <= j < 5 ==> h[j].Num?
    requires forall j :: 0 <= j < 4 ==> h[j].value < h[j + 1].value
    ensures ReduceSpec(Tensor([5], h), Some([0]), false, MinOfF32) == Ok(Scalar(h[0]))
    ensures ReduceSpec(Tensor([5], h), Some([0]), false, MaxOfF32) == Ok(Scalar(h[4]))
  {
    assert !HasNaN(h);
    assert h[0].value < h[1].value < h[2].value < h[3].value < h[4].value;
    var lo := MinOfF32(h);
    var hi := MaxOfF32(h);
    var i :| 0 <= i < 5 && h[i] == lo;
    var j :| 0 <= j < 5 && h[j] == hi;
    assert lo.value <= h[0].value && h[4].value <= hi.value;
    assert i == 0 && j == 4;
    var v := Tensor([5], h);
    assert v.WellFormed() by {
      assert Product([5]) == 5 * Product([]);
    }
    ReduceVector(v, 0, MinOfF32);
    ReduceVector(v, 0, MaxOfF32);
  }

  /** ReduceMin and ReduceMax of `[1.5, 2.5, 3.5, 4.5, 5.5]` along axis 0 are 1.5 and 5.5. */
  lemma MinMaxVector()
    ensures ReduceSpec(Tensor([5], Halves()), Some([0]), false, MinOfF32) == Ok(Scalar(Num(1.5)))
    ensures ReduceSpec(Tensor([5], Halves()), Some([0]), false, MaxOfF32) == Ok(Scalar(Num(5.5)))
  {
    IncreasingMinMax(Halves());
  }

  /** A NaN among the elements makes both ReduceMin and ReduceMax NaN. */
  lemma MinMaxPropagateNaN()
    ensures MinOfF32([Num(1.5), Num(2.5), Num(3.5), NaN, Num(5.5)]).NaN?
    ensures MaxOfF32([Num(1.5), Num(2.5), Num(3.5), NaN, Num(5.5)]).NaN?
  {
    assert [Num(1.5), Num(2.5), Num(3.5), NaN, Num(5.5)][3].NaN?;
  }

  /** ReduceMean of the vector `[0, 10]` is 5. */
  lemma MeanVector()
    ensures MeanF32([Num(0.0), Num(10.0)]) == Num(5.0)
  {
    var s := [Num(0.0), Num(10.0)];
    assert !HasNaN(s);
    assert s[1..] == [Num(10.0)] && s[1..][1..] == [];
    assert Total(s[1..]) == 10.0;
    assert Total(s) == 10.0;
    assert Total(s) / |s| as real == 5.0;
  }

  /** Summing `[MaxI32, 1]` overflows in its second step. */
  lemma SumOverflowsAtMax()
    ensures SumOverflows([MaxI32, 1])
  {
    var s: seq<I32> := [MaxI32, 1];
    assert s[..2] == s && s[..1] == [MaxI32] && [MaxI32][..0] == [];
    assert OpsCumSum.Sum<int>(s[..1], 0, OpsCumSum.AddInt) == MaxI32;
    assert OpsCumSum.Sum<int>(s[..2], 0, OpsCumSum.AddInt) == MaxI32 + 1;
  }

  /** ReduceSum and ReduceProd of the `i32` vector `[1, 2, 3, 4, 5]` are 15 and 120. */
  lemma SumProdInts()
    ensures SumI32([1, 2, 3, 4, 5]) == 15 && ProdI32([1, 2, 3, 4, 5]) == 120
  {
    var s: seq<I32> := [1, 2, 3, 4, 5];
    assert s[1..] == [2, 3, 4, 5] && s[1..][1..] == [3, 4, 5];
    assert s[1..][1..][1..] == [4, 5] && s[1..][1..][1..][1..] == [5];
    assert IntTotal(s) == 15 && IntProduct(s) == 120;
  }

  /**
   * A vector of three elements reduced over axes `[0, -1]`: both resolve to
   * axis 0, and the inner-dims test panics on `1 - 1 - 1` in a debug build.
   */
  lemma RepeatedAxisPanics<T>(x: seq<T>, keepDims: bool, reducer: seq<T> -> T)
    requires |x| == 3
    ensures ReduceSpec(Tensor([3], x), Some([0, -1]), keepDims, reducer) == Err(Panic("attempt to subtract with overflow"))
  {
    assert Product([3]) == 3 * Product([]);
  }
}
