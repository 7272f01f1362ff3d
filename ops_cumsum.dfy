/**
 * CumSum of `src/ops/reduce.rs`: running sums along one axis. The source
 * walks the lanes along the axis and appends each lane's running sums to
 * the output in lane order, which puts every sum at the position of the
 * element it ends at only when the axis is the last one. The operator
 * runs that loop as written (`CumSumAsWritten`); `CumSum` is the operator
 * as ONNX defines it, and the two are proved to agree on the last axis and
 * to differ on the first. On `i32` the sums are exact and a sum outside the
 * `i32` range is the panic of a build with overflow checks.
 */
module OpsCumSum {
  import opened Wrappers
  import opened Tensors
  import opened Ops
  import opened Lanes

  /** `zero + s[0] + s[1] + ...`, added from the left. */
  function Sum<T>(s: seq<T>, zero: T, add: (T, T) -> T): T
  {
    if |s| == 0 then zero else add(Sum(s[..|s| - 1], zero, add), s[|s| - 1])
  }

  /** The running sums of `s`: element `j` is the sum of `s[..j + 1]`. */
  function RunningSums<T>(s: seq<T>, zero: T, add: (T, T) -> T): (r: seq<T>)
    ensures |r| == |s|
    ensures forall j :: 0 <= j < |s| ==> r[j] == Sum(s[..j + 1], zero, add)
  {
    if |s| == 0 then []
    else
      var n := |s| - 1;
      assert forall j :: 0 <= j < n ==> RunningSums(s[..n], zero, add)[j] == Sum(s[..j + 1], zero, add) by {
        forall j | 0 <= j < n ensures RunningSums(s[..n], zero, add)[j] == Sum(s[..j + 1], zero, add) {
          PrefixOfPrefix(s, n, j + 1);
        }
      }
      assert s[..n + 1] == s;
      RunningSums(s[..n], zero, add) + [Sum(s, zero, add)]
  }

  lemma PrefixOfPrefix<T>(s: seq<T>, n: nat, m: nat)
    requires m <= n <= |s|
    ensures s[..n][..m] == s[..m]
  {
  }

  /** The running sums of the first `n` lanes along `d`, one lane after the other. */
  function LaneSums<T>(t: Tensor<T>, d: nat, n: nat, zero: T, add: (T, T) -> T): (r: seq<T>)
    requires t.WellFormed() && d < |t.shape| && n <= LaneCount(t.shape, d)
    ensures |r| == n * t.shape[d]
  {
    if n == 0 then []
    else
      assert (n - 1) * t.shape[d] + t.shape[d] == n * t.shape[d];
      LaneSums(t, d, n - 1, zero, add) + RunningSums(Lane(t, d, n - 1), zero, add)
  }

  /** The data the source's loop builds: every lane's running sums, in lane order. */
  function CumSumAsWrittenSpec<T>(input: Tensor<T>, axis: int, zero: T, add: (T, T) -> T): (r: Result<Tensor<T>, OpError>)
    requires input.WellFormed()
    ensures r.Err? <==> ResolveAxis(|input.shape|, axis).Err?
    ensures r.Err? ==> r.error == InvalidValue("Axis is invalid")
    ensures r.Ok? ==> r.value.shape == input.shape && r.value.WellFormed()
  {
    var d :- ResolveAxis(|input.shape|, axis);
    LaneCountProduct(input.shape, d);
    Ok(Tensor(input.shape, LaneSums(input, d, LaneCount(input.shape, d), zero, add)))
  }

  /** `cum_sum` as written: for each lane, a running sum appended element by element. */
  method CumSumAsWritten<T>(input: Tensor<T>, axis: int, zero: T, add: (T, T) -> T) returns (r: Result<Tensor<T>, OpError>)
    requires input.WellFormed()
    ensures r == CumSumAsWrittenSpec(input, axis, zero, add)
  {
    var resolved := ResolveAxis(|input.shape|, axis);
    if resolved.Err? {
      return Err(resolved.error);
    }
    var d := resolved.value;
    var count := LaneCount(input.shape, d);
    LaneCountProduct(input.shape, d);
    var data: seq<T> := [];
    if |input.data| > 0 {
      var l := 0;
      while l < count
        invariant 0 <= l <= count && data == LaneSums(input, d, l, zero, add)
      {
        var sums := LaneRunningSums(Lane(input, d, l), zero, add);
        assert LaneSums(input, d, l + 1, zero, add) == LaneSums(input, d, l, zero, add) + sums;
        data := data + sums;
        l := l + 1;
      }
    } else {
      assert |LaneSums(input, d, count, zero, add)| == 0;
    }
    return Ok(Tensor(input.shape, data));
  }

  /** One lane of the loop: the running sum, updated and appended for each element. */
  method LaneRunningSums<T>(lane: seq<T>, zero: T, add: (T, T) -> T) returns (sums: seq<T>)
    ensures sums == RunningSums(lane, zero, add)
  {
    var sum := zero;
    sums := [];
    var j := 0;
    while j < |lane|
      invariant 0 <= j <= |lane|
      invariant sum == Sum(lane[..j], zero, add)
      invariant sums == RunningSums(lane[..j], zero, add)
    {
      assert lane[..j + 1][..j] == lane[..j];
      sum := add(sum, lane[j]);
      sums := sums + [sum];
      j := j + 1;
    }
    assert lane[..j] == lane;
  }

  // ---------------------------------------------------------------------
  // CumSum as ONNX defines it

  /** The elements along `d` up to and including the one at `idx`. */
  function UpTo<T>(t: Tensor<T>, d: nat, idx: seq<nat>): (r: seq<T>)
    requires t.WellFormed() && d < |t.shape| && InBounds(t.shape, idx)
    ensures |r| == idx[d] + 1
  {
    seq(idx[d] + 1, k requires 0 <= k <= idx[d] => At(t, idx[d := k]))
  }

  /** CumSum: the element at every index is the sum of the elements along `d` up to it. */
  function CumSum<T>(input: Tensor<T>, axis: int, zero: T, add: (T, T) -> T): (r: Result<Tensor<T>, OpError>)
    requires input.WellFormed()
    ensures r.Err? <==> ResolveAxis(|input.shape|, axis).Err?
    ensures r.Err? ==> r.error == InvalidValue("Axis is invalid")
    ensures r.Ok? ==> r.value.shape == input.shape && r.value.WellFormed()
  {
    var d :- ResolveAxis(|input.shape|, axis);
    Ok(Tensor(input.shape, Tabulate(input.shape,
      idx => if InBounds(input.shape, idx) then Sum(UpTo(input, d, idx), zero, add) else zero)))
  }

  /** The element of CumSum's output at `idx`. */
  lemma CumSumAt<T>(input: Tensor<T>, axis: int, zero: T, add: (T, T) -> T, idx: seq<nat>)
    requires input.WellFormed() && CumSum(input, axis, zero, add).Ok? && InBounds(input.shape, idx)
    ensures var d := ResolveAxis(|input.shape|, axis).value;
      At(CumSum(input, axis, zero, add).value, idx) == Sum(UpTo(input, d, idx), zero, add)
  {
    var d := ResolveAxis(|input.shape|, axis).value;
    TabulateAt(input.shape, idx => if InBounds(input.shape, idx) then Sum(UpTo(input, d, idx), zero, add) else zero, idx);
  }

  /** Along a lane, the elements up to position `j` are the lane's first `j + 1` elements. */
  lemma UpToLane<T>(t: Tensor<T>, d: nat, l: nat, j: nat)
    requires t.WellFormed() && d < |t.shape| && l < LaneCount(t.shape, d) && j < t.shape[d]
    ensures UpTo(t, d, LaneIndex(t.shape, d, l, j)) == Lane(t, d, l)[..j + 1]
  {
    var idx := LaneIndex(t.shape, d, l, j);
    forall k | 0 <= k <= j
      ensures UpTo(t, d, idx)[k] == Lane(t, d, l)[k]
    {
      assert idx[d := k] == LaneIndex(t.shape, d, l, k);
    }
  }

  /** Every lane of CumSum's output holds the running sums of the same lane of the input. */
  lemma CumSumLanes<T>(input: Tensor<T>, axis: int, zero: T, add: (T, T) -> T, l: nat)
    requires input.WellFormed() && CumSum(input, axis, zero, add).Ok?
    requires l < LaneCount(input.shape, ResolveAxis(|input.shape|, axis).value)
    ensures var d := ResolveAxis(|input.shape|, axis).value;
      Lane(CumSum(input, axis, zero, add).value, d, l) == RunningSums(Lane(input, d, l), zero, add)
  {
    var d := ResolveAxis(|input.shape|, axis).value;
    var out := CumSum(input, axis, zero, add).value;
    forall j | 0 <= j < input.shape[d]
      ensures Lane(out, d, l)[j] == RunningSums(Lane(input, d, l), zero, add)[j]
    {
      CumSumAt(input, axis, zero, add, LaneIndex(input.shape, d, l, j));
      UpToLane(input, d, l, j);
    }
  }

  // ---------------------------------------------------------------------
  // As written against as defined

  /** The first `n` lanes of `u` along `d`, one after the other. */
  function ReadLanes<T>(u: Tensor<T>, d: nat, n: nat): (r: seq<T>)
    requires u.WellFormed() && d < |u.shape| && n <= LaneCount(u.shape, d)
    ensures |r| == n * u.shape[d]
  {
    if n == 0 then []
    else
      assert (n - 1) * u.shape[d] + u.shape[d] == n * u.shape[d];
      ReadLanes(u, d, n - 1) + Lane(u, d, n - 1)
  }

  /** The loop's data is CumSum's output read lane by lane. */
  lemma {:induction false} LaneSumsAreLanes<T>(input: Tensor<T>, d: nat, out: Tensor<T>, zero: T, add: (T, T) -> T, n: nat)
    requires input.WellFormed() && out.WellFormed() && out.shape == input.shape && d < |input.shape|
    requires n <= LaneCount(input.shape, d)
    requires forall l :: 0 <= l < n ==> Lane(out, d, l) == RunningSums(Lane(input, d, l), zero, add)
    ensures LaneSums(input, d, n, zero, add) == ReadLanes(out, d, n)
  {
    if n > 0 {
      LaneSumsAreLanes(input, d, out, zero, add, n - 1);
      assert Lane(out, d, n - 1) == RunningSums(Lane(input, d, n - 1), zero, add);
    }
  }

  /** Along the last axis, reading a tensor lane by lane reads its data in order. */
  lemma {:induction false} RowsAreData<T>(u: Tensor<T>, n: nat)
    requires u.WellFormed() && |u.shape| > 0 && n <= LaneCount(u.shape, |u.shape| - 1)
    ensures var w := u.shape[|u.shape| - 1];
      n * w <= |u.data| && ReadLanes(u, |u.shape| - 1, n) == u.data[..n * w]
  {
    var last := |u.shape| - 1;
    var w := u.shape[last];
    LaneCountProduct(u.shape, last);
    MulMono(n, LaneCount(u.shape, last), w);
    if n > 0 {
      RowsAreData(u, n - 1);
      assert n * w == (n - 1) * w + w;
      RowSlice(u, n - 1);
      assert u.data[..n * w] == u.data[..(n - 1) * w] + u.data[(n - 1) * w..n * w];
    }
  }

  /** Along the last axis, lane `l` is the `l`-th block of the data. */
  lemma RowSlice<T>(u: Tensor<T>, l: nat)
    requires u.WellFormed() && |u.shape| > 0 && l < LaneCount(u.shape, |u.shape| - 1)
    ensures var w := u.shape[|u.shape| - 1];
      (l + 1) * w <= |u.data| && Lane(u, |u.shape| - 1, l) == u.data[l * w..(l + 1) * w]
  {
    var last := |u.shape| - 1;
    var w := u.shape[last];
    LaneCountProduct(u.shape, last);
    MulMono(l + 1, LaneCount(u.shape, last), w);
    assert (l + 1) * w == l * w + w;
    forall j | 0 <= j < w
      ensures Lane(u, last, l)[j] == u.data[l * w..(l + 1) * w][j]
    {
      LastLaneIsRow(u, l, j);
    }
  }

  /** On the last axis the loop as written computes CumSum. */
  lemma CumSumAsWrittenLastAxis<T>(input: Tensor<T>, zero: T, add: (T, T) -> T)
    requires input.WellFormed() && |input.shape| > 0
    ensures CumSumAsWrittenSpec(input, -1, zero, add) == CumSum(input, -1, zero, add)
    ensures CumSumAsWrittenSpec(input, |input.shape| - 1, zero, add) == CumSum(input, |input.shape| - 1, zero, add)
  {
    var last := |input.shape| - 1;
    var out := CumSum(input, last, zero, add).value;
    LaneCountProduct(input.shape, last);
    forall l | 0 <= l < LaneCount(input.shape, last)
      ensures Lane(out, last, l) == RunningSums(Lane(input, last, l), zero, add)
    {
      CumSumLanes(input, last, zero, add, l);
    }
    LaneSumsAreLanes(input, last, out, zero, add, LaneCount(input.shape, last));
    RowsAreData(out, LaneCount(input.shape, last));
    assert out.data[..|out.data|] == out.data;
    assert CumSum(input, -1, zero, add) == CumSum(input, last, zero, add);
    assert CumSumAsWrittenSpec(input, -1, zero, add) == CumSumAsWrittenSpec(input, last, zero, add);
  }

  // ---------------------------------------------------------------------
  // Elements

  /** `i32 + i32` on the exact values; `CheckedI32` turns a sum out of range into a panic. */
  function AddInt(a: int, b: int): int
  {
    a + b
  }

  predicate InI32(x: int)
  {
    MinI32 <= x <= MaxI32
  }

  /**
   * The running sums as `i32` values, or the panic of a build with overflow
   * checks: every running sum is the result of one `+=`, so the loop
   * panics exactly when one of them leaves the `i32` range.
   */
  function CheckedI32(s: seq<int>): (r: Result<seq<I32>, OpError>)
    ensures r.Ok? <==> forall k :: 0 <= k < |s| ==> InI32(s[k])
    ensures r.Ok? ==> r.value == s
    ensures r.Err? ==> r.error == Panic("attempt to add with overflow")
  {
    if forall k :: 0 <= k < |s| ==> InI32(s[k]) then Ok(seq(|s|, k requires 0 <= k < |s| => s[k] as I32))
    else Err(Panic("attempt to add with overflow"))
  }

  /** An `i32` tensor with its elements read as integers. */
  function Widen(t: Tensor<I32>): (r: Tensor<int>)
    ensures r.shape == t.shape && r.data == t.data
  {
    Tensor(t.shape, t.data)
  }

  /** `cum_sum` on `i32`: the loop's exact running sums, or the overflow panic. */
  function IntCumSum(t: Tensor<I32>, axis: int): (r: Result<Tensor<I32>, OpError>)
    requires t.WellFormed()
    ensures ResolveAxis(|t.shape|, axis).Err? ==> r == Err(InvalidValue("Axis is invalid"))
    ensures var exact := CumSumAsWrittenSpec(Widen(t), axis, 0, AddInt);
      exact.Ok? ==>
        (r.Ok? <==> forall k :: 0 <= k < |exact.value.data| ==> InI32(exact.value.data[k])) &&
        (r.Ok? ==> r.value.shape == t.shape && r.value.data == exact.value.data && r.value.WellFormed()) &&
        (r.Err? ==> r.error == Panic("attempt to add with overflow"))
  {
    var exact :- CumSumAsWrittenSpec(Widen(t), axis, 0, AddInt);
    var data :- CheckedI32(exact.data);
    Ok(Tensor(t.shape, data))
  }

  /** `f32 += f32`: NaN absorbs, finite values add exactly (rounding is not modelled). */
  function AddF32(a: F32, b: F32): (r: F32)
    ensures r.NaN? <==> a.NaN? || b.NaN?
    ensures a.Num? && b.Num? ==> r == Num(a.value + b.value)
  {
    if a.NaN? || b.NaN? then NaN else Num(a.value + b.value)
  }

  /** `[[0, 1, 2, 3], [0, 1, 2, 3]]`. */
  function Rows(): (t: Tensor<I32>)
    ensures t.WellFormed() && t.shape == [2, 4]
  {
    assert Product([4]) == 4 by {
      assert 4 * Product([]) == 4 * 1;
    }
    assert [2, 4][1..] == [4];
    Tensor([2, 4], [0, 1, 2, 3, 0, 1, 2, 3])
  }

  /** Along axis 0, lane `l` of `Rows()` is column `l`, `[l, l]`. */
  lemma RowsLane(u: Tensor<I32>, l: nat)
    requires u == Rows() && l < 4
    ensures LaneCount(u.shape, 0) == 4 && Lane(Widen(u), 0, l) == [l, l]
  {
    var t := Widen(u);
    assert OuterShape(t.shape, 0) == [1, 4];
    assert t.WellFormed();
    assert t.shape[1..] == [4] && Product(t.shape[1..]) == 4;
    FirstLaneIsColumn(t, l, 0);
    FirstLaneIsColumn(t, l, 1);
    assert t.data[l] == l && t.data[4 + l] == l;
  }

  /** The running sums of a lane `[x, x]`. */
  lemma PairSums(x: int)
    ensures RunningSums([x, x], 0, AddInt) == [x, 2 * x]
  {
    var r := RunningSums([x, x], 0, AddInt);
    assert [x, x][..1] == [x] && [x, x][..2] == [x, x];
    assert Sum([x], 0, AddInt) == x by {
      assert [x][..0] == [];
    }
    assert Sum([x, x], 0, AddInt) == 2 * x;
    assert r[0] == x && r[1] == 2 * x;
  }

  /** Lane `n - 1` of `Rows()` along axis 0 adds its running sums `[n - 1, 2 * (n - 1)]`. */
  lemma RowsStep(u: Tensor<I32>, n: nat)
    requires u == Rows() && 1 <= n <= 4
    ensures LaneCount(u.shape, 0) == 4
    ensures LaneSums(Widen(u), 0, n, 0, AddInt) == LaneSums(Widen(u), 0, n - 1, 0, AddInt) + [n - 1, 2 * (n - 1)]
  {
    assert LaneCount(u.shape, 0) == 4 && Lane(Widen(u), 0, n - 1) == [n - 1, n - 1] by {
      RowsLane(u, n - 1);
    }
    assert RunningSums(Lane(Widen(u), 0, n - 1), 0, AddInt) == [n - 1, 2 * (n - 1)] by {
      PairSums(n - 1);
    }
  }

  /**
   * Along axis 0 the loop writes column after column:
   * `[0, 0, 1, 2, 2, 4, 3, 6]`, where CumSum would give `[0, 1, 2, 3, 0, 2, 4, 6]`.
   */
  lemma RowsAsWritten(u: Tensor<I32>)
    requires u == Rows()
    ensures CumSumAsWrittenSpec(Widen(u), 0, 0, AddInt).value.data == [0, 0, 1, 2, 2, 4, 3, 6]
  {
    var t := Widen(u);
    RowsStep(u, 1);
    assert LaneSums(t, 0, 1, 0, AddInt) == [0, 0];
    RowsStep(u, 2);
    assert LaneSums(t, 0, 2, 0, AddInt) == [0, 0, 1, 2];
    RowsStep(u, 3);
    assert LaneSums(t, 0, 3, 0, AddInt) == [0, 0, 1, 2, 2, 4];
    RowsStep(u, 4);
    assert LaneSums(t, 0, 4, 0, AddInt) == [0, 0, 1, 2, 2, 4, 3, 6];
  }

  /** Small sums pass the overflow check unchanged. */
  lemma SmallSumsChecked()
    ensures CheckedI32([0, 0, 1, 2, 2, 4, 3, 6]) == Ok([0, 0, 1, 2, 2, 4, 3, 6])
  {
    var sums: seq<int> := [0, 0, 1, 2, 2, 4, 3, 6];
    assert forall k :: 0 <= k < |sums| ==> InI32(sums[k]);
  }

  /** The operator on `i32` gives the same sums: none of them overflows. */
  lemma RowsIntCumSum(u: Tensor<I32>)
    requires u == Rows()
    ensures IntCumSum(u, 0) == Ok(Tensor([2, 4], [0, 0, 1, 2, 2, 4, 3, 6]))
  {
    RowsAsWritten(u);
    SmallSumsChecked();
  }

  /**
   * CumSum's element at `[0, 1]` (position 1) is the element itself, 1,
   * where the loop as written stores 0 (RowsAsWritten).
   */
  lemma RowsCumSumSecond(u: Tensor<I32>)
    requires u == Rows()
    ensures CumSum(Widen(u), 0, 0, AddInt).value.data[1] == 1
  {
    var t := Widen(u);
    assert t.WellFormed();
    var idx := [0, 1];
    assert InBounds(t.shape, idx);
    assert Offset(t.shape, idx) == 1 by {
      assert [1][1..] == [] && t.shape[1..][1..] == [];
    }
    CumSumAt(t, 0, 0, AddInt, idx);
    assert idx[0 := 0] == idx;
    assert At(t, idx) == 1;
    assert UpTo(t, 0, idx) == [1];
    assert [1][..0] == [];
  }

  /** Summing `[MaxI32, 1]` overflows in its second step. */
  lemma CumSumOverflows()
    ensures IntCumSum(Tensor([2], [MaxI32, 1]), 0) == Err(Panic("attempt to add with overflow"))
  {
    var t: Tensor<I32> := Tensor([2], [MaxI32, 1]);
    assert t.WellFormed() by {
      assert Product([2]) == 2 * Product([]);
    }
    var exact := CumSumAsWrittenSpec(Widen(t), 0, 0, AddInt).value;
    assert exact.data == LaneSums(Widen(t), 0, 1, 0, AddInt) by {
      assert OuterShape(t.shape, 0) == [1];
      VectorLane(Widen(t));
    }
    VectorLane(Widen(t));
    assert [MaxI32, 1][..2] == [MaxI32, 1] && [MaxI32, 1][..1] == [MaxI32] && [MaxI32][..0] == [];
    assert Sum([MaxI32], 0, AddInt) == MaxI32;
    assert Sum([MaxI32, 1], 0, AddInt) == MaxI32 + 1;
    assert exact.data[1] == MaxI32 + 1;
  }

  // ---------------------------------------------------------------------
  // The operator

  /** CumSum::run: input 0 of either kind, and the axis as an `i32` scalar in input 1. */
  function CumSumRunSpec(inputs: seq<Input>): (r: Result<Output, OpError>)
    requires WellFormedInputs(inputs)
    ensures |inputs| == 0 ==> r == Err(MissingInputs)
    ensures r.Ok? ==> |inputs| > 1 && ExtractScalarInt(inputs[1]).Ok?
    ensures r.Ok? ==> (r.value.FloatTensor? <==> inputs[0].FloatTensor?)
    ensures r.Ok? && inputs[0].IntTensor? ==> IntCumSum(inputs[0].i, ExtractScalarInt(inputs[1]).value) == Ok(r.value.i)
    ensures r.Ok? && inputs[0].FloatTensor? ==>
      CumSumAsWrittenSpec(inputs[0].f, ExtractScalarInt(inputs[1]).value, Num(0.0), AddF32) == Ok(r.value.f)
  {
    if |inputs| == 0 then Err(MissingInputs)
    else
      var axisTensor :- GetInputAsInt(inputs, 1);
      var axis :- ExtractScalar(axisTensor);
      assert InputWellFormed(inputs[0]);
      match inputs[0]
      case IntTensor(t) =>
        var out :- IntCumSum(t, axis);
        Ok(Output.IntTensor(out))
      case FloatTensor(t) =>
        var out :- CumSumAsWrittenSpec(t, axis, Num(0.0), AddF32);
        Ok(Output.FloatTensor(out))
  }

  /** CumSum::run through the loop of `cum_sum`. */
  method CumSumRun(inputs: seq<Input>) returns (r: Result<Output, OpError>)
    requires WellFormedInputs(inputs)
    ensures r == CumSumRunSpec(inputs)
  {
    if |inputs| == 0 {
      return Err(MissingInputs);
    }
    var axisTensor :- GetInputAsInt(inputs, 1);
    var axis :- ExtractScalar(axisTensor);
    assert InputWellFormed(inputs[0]);
    match inputs[0]
    case IntTensor(t) =>
      var exact :- CumSumAsWritten(Widen(t), axis, 0, AddInt);
      var data :- CheckedI32(exact.data);
      r := Ok(Output.IntTensor(Tensor(t.shape, data)));
    case FloatTensor(t) =>
      var out :- CumSumAsWritten(t, axis, Num(0.0), AddF32);
      r := Ok(Output.FloatTensor(out));
  }

  /** The running sums of `[0, 1, 2, 3, 4, 5]`. */
  lemma CumSumVector()
    ensures RunningSums([0, 1, 2, 3, 4, 5], 0, AddInt) == [0, 1, 3, 6, 10, 15]
  {
    var s := [0, 1, 2, 3, 4, 5];
    assert s[..1] == [0] && s[..2] == [0, 1] && s[..3] == [0, 1, 2];
    assert s[..4] == [0, 1, 2, 3] && s[..5] == [0, 1, 2, 3, 4] && s[..6] == s;
    assert [0][..0] == [] && [0, 1][..1] == [0] && [0, 1, 2][..2] == [0, 1];
    assert [0, 1, 2, 3][..3] == [0, 1, 2] && [0, 1, 2, 3, 4][..4] == [0, 1, 2, 3];
    assert s[..5] == s[..5];
  }
}
