/**
 * NonZero of `src/ops/reduce.rs`: the indices of the elements that differ
 * from the element type's default value, as a `[rank, count]` tensor whose
 * column `c` is the index of the `c`-th such element in row-major order.
 */
module OpsNonZero {
  import opened Wrappers
  import opened Tensors
  import opened Ops

  /** The positions of the elements of `data` other than `zero`, in increasing order. */
  function NonZeroPositions<T(==)>(data: seq<T>, zero: T): (r: seq<nat>)
    ensures |r| <= |data|
  {
    if |data| == 0 then []
    else
      var n := |data| - 1;
      NonZeroPositions(data[..n], zero) + (if data[n] != zero then [n] else [])
  }

  /** Every position found holds an element other than `zero`. */
  lemma {:induction false} PositionsSound<T>(data: seq<T>, zero: T)
    ensures forall c :: 0 <= c < |NonZeroPositions(data, zero)| ==>
      NonZeroPositions(data, zero)[c] < |data| && data[NonZeroPositions(data, zero)[c]] != zero
  {
    if |data| > 0 {
      var n := |data| - 1;
      PositionsSound(data[..n], zero);
      assert forall k :: 0 <= k < n ==> data[..n][k] == data[k];
    }
  }

  /** Every element other than `zero` has its position among those found. */
  lemma {:induction false} PositionsComplete<T>(data: seq<T>, zero: T)
    ensures forall k :: 0 <= k < |data| && data[k] != zero ==> k in NonZeroPositions(data, zero)
  {
    if |data| > 0 {
      var n := |data| - 1;
      PositionsComplete(data[..n], zero);
      assert forall k :: 0 <= k < n ==> data[..n][k] == data[k];
    }
  }

  /** The positions are strictly increasing. */
  lemma {:induction false} PositionsIncreasing<T>(data: seq<T>, zero: T)
    ensures forall c, e :: 0 <= c < e < |NonZeroPositions(data, zero)| ==>
      NonZeroPositions(data, zero)[c] < NonZeroPositions(data, zero)[e]
  {
    if |data| > 0 {
      var n := |data| - 1;
      PositionsIncreasing(data[..n], zero);
      PositionsSound(data[..n], zero);
    }
  }

  /** Every coordinate of `idx` fits in an `i32`. */
  predicate FitsI32(idx: seq<nat>)
  {
    forall d :: 0 <= d < |idx| ==> idx[d] <= MaxI32
  }

  /** The index of the `c`-th element of `t` other than `zero`. */
  function Column<T(==)>(t: Tensor<T>, zero: T, c: nat): (idx: seq<nat>)
    requires t.WellFormed() && c < |NonZeroPositions(t.data, zero)|
    ensures InBounds(t.shape, idx) && Offset(t.shape, idx) == NonZeroPositions(t.data, zero)[c]
  {
    PositionsSound(t.data, zero);
    Unravel(t.shape, NonZeroPositions(t.data, zero)[c])
  }

  /**
   * `nonzero`. A scalar gives an empty `[0, 1]` or `[0, 0]` tensor;
   * otherwise the indices, one column each, and a panic when a coordinate
   * of a non-zero element does not fit in an `i32`.
   */
  function NonZero<T(==)>(input: Tensor<T>, zero: T): (r: Result<Tensor<I32>, OpError>)
    requires input.WellFormed()
    ensures r.Err? ==> r.error == Panic("assertion failed: dim_idx <= i32::MAX as usize")
    ensures r.Ok? ==> r.value.WellFormed() && |r.value.shape| == 2 && r.value.shape[0] == |input.shape|
    ensures r.Ok? ==> r.value.shape[1] == |NonZeroPositions(input.data, zero)|
  {
    if |input.shape| == 0 then
      Ok(Tensor([0, if input.data[0] != zero then 1 else 0], []))
    else
      var n := |input.shape|;
      var count := |NonZeroPositions(input.data, zero)|;
      if !AllFit(input, zero) then
        Err(Panic("assertion failed: dim_idx <= i32::MAX as usize"))
      else
        Ok(Tensor([n, count], Table(input, zero)))
  }

  /** Every coordinate of every non-zero element's index fits in an `i32`. */
  predicate AllFit<T(==)>(input: Tensor<T>, zero: T)
    requires input.WellFormed()
  {
    forall c :: 0 <= c < |NonZeroPositions(input.data, zero)| ==> FitsI32(Column(input, zero, c))
  }

  /** NonZero's output data: the `[rank, count]` table of index coordinates. */
  function Table<T(==)>(input: Tensor<T>, zero: T): (data: seq<I32>)
    requires input.WellFormed()
    ensures |data| == Product([|input.shape|, |NonZeroPositions(input.data, zero)|])
  {
    Tabulate([|input.shape|, |NonZeroPositions(input.data, zero)|], ix => Entry(input, zero, ix))
  }

  /** Entry `[d, c]` of NonZero's output: coordinate `d` of the `c`-th index, as an `i32`. */
  function Entry<T(==)>(input: Tensor<T>, zero: T, ix: seq<nat>): I32
    requires input.WellFormed()
  {
    if |ix| == 2 && ix[0] < |input.shape| && ix[1] < |NonZeroPositions(input.data, zero)|
    then WrapI32(Column(input, zero, ix[1])[ix[0]])
    else 0
  }

  /** Row `d` of the table holds coordinate `d` of every non-zero element's index, in order. */
  lemma TableEntry<T>(input: Tensor<T>, zero: T, count: nat, d: nat, c: nat)
    requires input.WellFormed() && AllFit(input, zero)
    requires count == |NonZeroPositions(input.data, zero)|
    requires d < |input.shape| && c < count
    ensures d * count + c < |Table(input, zero)| && Table(input, zero)[d * count + c] == Column(input, zero, c)[d]
  {
    TableAt(|input.shape|, count, d, c);
    TabulateAt([|input.shape|, count], ix => Entry(input, zero, ix), [d, c]);
    assert FitsI32(Column(input, zero, c));
  }

  /** Row `d` of NonZero's output holds coordinate `d` of every non-zero element's index, in order. */
  lemma NonZeroTable<T>(input: Tensor<T>, zero: T, out: Tensor<I32>, count: nat, d: nat, c: nat)
    requires input.WellFormed() && |input.shape| > 0 && NonZero(input, zero) == Ok(out)
    requires count == |NonZeroPositions(input.data, zero)|
    requires d < |input.shape| && c < count
    ensures d * count + c < |out.data| && out.data[d * count + c] == Column(input, zero, c)[d]
  {
    TableEntry(input, zero, count, d, c);
  }

  /** Every column of NonZero's output is the index of an element other than `zero`. */
  lemma NonZeroSound<T>(input: Tensor<T>, zero: T, c: nat)
    requires input.WellFormed() && c < |NonZeroPositions(input.data, zero)|
    ensures At(input, Column(input, zero, c)) != zero
  {
    PositionsSound(input.data, zero);
  }

  /** Every element other than `zero` has its index among the columns. */
  lemma NonZeroComplete<T>(input: Tensor<T>, zero: T, idx: seq<nat>)
    requires input.WellFormed() && InBounds(input.shape, idx) && At(input, idx) != zero
    ensures exists c :: 0 <= c < |NonZeroPositions(input.data, zero)| && Column(input, zero, c) == idx
  {
    var pos := NonZeroPositions(input.data, zero);
    var k := Offset(input.shape, idx);
    PositionsComplete(input.data, zero);
    var c :| 0 <= c < |pos| && pos[c] == k;
    UnravelOffset(input.shape, idx);
    assert Column(input, zero, c) == idx;
  }

  /** The columns come in row-major order of the indices, each once. */
  lemma NonZeroOrdered<T>(input: Tensor<T>, zero: T, c: nat, e: nat)
    requires input.WellFormed() && c < e < |NonZeroPositions(input.data, zero)|
    ensures Offset(input.shape, Column(input, zero, c)) < Offset(input.shape, Column(input, zero, e))
  {
    PositionsIncreasing(input.data, zero);
  }

  /** Position `[d, c]` of a `[n, count]` tensor is `d * count + c`. */
  lemma TableAt(n: nat, count: nat, d: nat, c: nat)
    requires d < n && c < count
    ensures InBounds([n, count], [d, c]) && Offset([n, count], [d, c]) == d * count + c
  {
    assert [count][1..] == [] && [n, count][1..] == [count] && [d, c][1..] == [c] && [c][1..] == [];
    assert Product([count]) == count * 1;
  }

  /** NonZero::run: input 0 of either kind; the default element is 0. */
  function NonZeroRun(inputs: seq<Input>): (r: Result<Output, OpError>)
    requires WellFormedInputs(inputs)
    ensures |inputs| == 0 ==> r == Err(MissingInputs)
    ensures |inputs| > 0 && inputs[0].IntTensor? ==>
      r == match NonZero(inputs[0].i, 0) case Ok(t) => Ok(Output.IntTensor(t)) case Err(e) => Err(e)
    ensures |inputs| > 0 && inputs[0].FloatTensor? ==>
      r == match NonZero(inputs[0].f, Num(0.0)) case Ok(t) => Ok(Output.IntTensor(t)) case Err(e) => Err(e)
  {
    if |inputs| == 0 then Err(MissingInputs)
    else
      assert InputWellFormed(inputs[0]);
      match inputs[0]
      case IntTensor(t) =>
        var out :- NonZero(t, 0);
        Ok(Output.IntTensor(out))
      case FloatTensor(t) =>
        var out :- NonZero(t, Num(0.0));
        Ok(Output.IntTensor(out))
  }

  // ---------------------------------------------------------------------
  // Examples

  /** A non-zero scalar gives shape `[0, 1]`, a zero scalar `[0, 0]`. */
  lemma NonZeroScalar()
    ensures NonZero(Tensor([], [Num(3.0)]), Num(0.0)) == Ok(Tensor([0, 1], []))
    ensures NonZero(Tensor([], [Num(0.0)]), Num(0.0)) == Ok(Tensor([0, 0], []))
  {
  }

  /** One more element extends the positions by its own position exactly when it is non-zero. */
  lemma PositionsSnoc<T>(data: seq<T>, x: T, zero: T)
    ensures NonZeroPositions(data + [x], zero) ==
      NonZeroPositions(data, zero) + (if x != zero then [|data|] else [])
  {
    assert (data + [x])[..|data|] == data;
  }

  lemma MatrixPositions()
    ensures NonZeroPositions([Num(0.0), Num(1.0), Num(1.0), Num(1.0)], Num(0.0)) == [1, 2, 3]
  {
    PositionsSnoc([], Num(0.0), Num(0.0));
    assert [] + [Num(0.0)] == [Num(0.0)];
    PositionsSnoc([Num(0.0)], Num(1.0), Num(0.0));
    assert [Num(0.0)] + [Num(1.0)] == [Num(0.0), Num(1.0)];
    PositionsSnoc([Num(0.0), Num(1.0)], Num(1.0), Num(0.0));
    assert [Num(0.0), Num(1.0)] + [Num(1.0)] == [Num(0.0), Num(1.0), Num(1.0)];
    PositionsSnoc([Num(0.0), Num(1.0), Num(1.0)], Num(1.0), Num(0.0));
    assert [Num(0.0), Num(1.0), Num(1.0)] + [Num(1.0)] == [Num(0.0), Num(1.0), Num(1.0), Num(1.0)];
  }

  function Matrix(): Tensor<F32>
  {
    Tensor([2, 2], [Num(0.0), Num(1.0), Num(1.0), Num(1.0)])
  }

  /** A column is the index whose row-major position is the element's position. */
  lemma ColumnAt<T>(t: Tensor<T>, zero: T, c: nat, idx: seq<nat>)
    requires t.WellFormed() && c < |NonZeroPositions(t.data, zero)|
    requires InBounds(t.shape, idx) && Offset(t.shape, idx) == NonZeroPositions(t.data, zero)[c]
    ensures Column(t, zero, c) == idx
  {
    UnravelOffset(t.shape, idx);
  }

  lemma MatrixColumns()
    ensures Matrix().WellFormed() && |NonZeroPositions(Matrix().data, Num(0.0))| == 3
    ensures Column(Matrix(), Num(0.0), 0) == [0, 1]
    ensures Column(Matrix(), Num(0.0), 1) == [1, 0]
    ensures Column(Matrix(), Num(0.0), 2) == [1, 1]
  {
    var t := Matrix();
    assert [2][1..] == [] && [2, 2][1..] == [2];
    assert Product([2, 2]) == 4;
    MatrixPositions();
    TableAt(2, 2, 0, 1);
    TableAt(2, 2, 1, 0);
    TableAt(2, 2, 1, 1);
    ColumnAt(t, Num(0.0), 0, [0, 1]);
    ColumnAt(t, Num(0.0), 1, [1, 0]);
    ColumnAt(t, Num(0.0), 2, [1, 1]);
  }

  /**
   * `[[0, 1], [1, 1]]` has non-zero elements at `[0, 1]`, `[1, 0]` and
   * `[1, 1]`: NonZero gives a `[2, 3]` tensor whose columns are those indices.
   */
  lemma NonZeroMatrix()
    ensures Matrix().WellFormed() && NonZero(Matrix(), Num(0.0)).Ok?
    ensures NonZero(Matrix(), Num(0.0)).value.shape == [2, 3]
    ensures Column(Matrix(), Num(0.0), 0) == [0, 1]
    ensures Column(Matrix(), Num(0.0), 1) == [1, 0]
    ensures Column(Matrix(), Num(0.0), 2) == [1, 1]
  {
    MatrixColumns();
    assert AllFit(Matrix(), Num(0.0));
  }
}
