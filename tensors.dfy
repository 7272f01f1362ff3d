/**
 * Tensors as the runtime stores them: a shape and a flat, row-major data
 * sequence. This module also holds the element types shared by the operator
 * modules (32-bit signed integers and single-precision floats with NaN) and
 * the index arithmetic that maps a multi-dimensional index to its position in
 * the data.
 */
module Tensors {
  const MinI32: int := -0x8000_0000
  const MaxI32: int := 0x7fff_ffff

  /** An `i32` value. */
  type I32 = x: int | MinI32 <= x <= MaxI32

  /**
   * An `f32` value. Finite values are kept as exact reals and every NaN is
   * one value; rounding and the infinities are not modelled.
   */
  datatype F32 = Num(value: real) | NaN

  datatype Tensor<T> = Tensor(shape: seq<nat>, data: seq<T>)
  {
    /** The invariant every tensor keeps: one element per index. */
    predicate WellFormed() { |data| == Product(shape) }

    function Len(): nat { |data| }

    function Ndim(): nat { |shape| }
  }

  /** A tensor with no dimensions, holding one element. */
  function Scalar<T>(x: T): Tensor<T>
  {
    Tensor([], [x])
  }

  /** Number of elements of a tensor with shape `shape`. */
  function Product(shape: seq<nat>): nat
  {
    if |shape| == 0 then 1 else shape[0] * Product(shape[1..])
  }

  lemma {:induction false} ProductAppend(a: seq<nat>, b: seq<nat>)
    ensures Product(a + b) == Product(a) * Product(b)
  {
    if |a| == 0 {
      assert a + b == b;
    } else {
      assert (a + b)[1..] == a[1..] + b;
      ProductAppend(a[1..], b);
    }
  }

  lemma ProductSnoc(a: seq<nat>, d: nat)
    ensures Product(a + [d]) == Product(a) * d
  {
    ProductAppend(a, [d]);
    assert [d][1..] == [];
  }

  /** A shape has no elements exactly when one of its dimensions is zero. */
  lemma {:induction false} ProductZero(shape: seq<nat>)
    ensures Product(shape) == 0 <==> exists d :: 0 <= d < |shape| && shape[d] == 0
  {
    if |shape| > 0 {
      ProductZero(shape[1..]);
      if Product(shape[1..]) == 0 {
        var d :| 0 <= d < |shape[1..]| && shape[1..][d] == 0;
        assert shape[d + 1] == 0;
      }
      if exists d :: 0 <= d < |shape| && shape[d] == 0 {
        var d :| 0 <= d < |shape| && shape[d] == 0;
        if d > 0 {
          assert shape[1..][d - 1] == 0;
        }
      }
    }
  }

  /** Replace dimension `d` of `shape` by `size`. */
  function SetDim(shape: seq<nat>, d: nat, size: nat): (r: seq<nat>)
    requires d < |shape|
    ensures |r| == |shape| && r[d] == size
    ensures forall e :: 0 <= e < |shape| && e != d ==> r[e] == shape[e]
  {
    shape[d := size]
  }

  lemma ProductSplit(shape: seq<nat>, d: nat)
    requires d < |shape|
    ensures Product(shape) == Product(shape[..d]) * shape[d] * Product(shape[d + 1..])
  {
    var tail := [shape[d]] + shape[d + 1..];
    assert shape == shape[..d] + tail;
    ProductAppend(shape[..d], tail);
    assert tail[1..] == shape[d + 1..];
    assert Product(tail) == shape[d] * Product(shape[d + 1..]);
    MulAssoc(Product(shape[..d]), shape[d], Product(shape[d + 1..]));
  }

  lemma MulAssoc(a: nat, b: nat, c: nat)
    ensures a * (b * c) == a * b * c
  {
  }

  lemma MulMono(a: nat, b: nat, p: nat)
    ensures a <= b ==> a * p <= b * p
  {
  }

  lemma DivBound(k: nat, n: nat, p: nat)
    requires k < n * p
    ensures p > 0 && 0 <= k / p < n && 0 <= k % p < p && k == (k / p) * p + k % p
  {
    assert p != 0;
    MulMono(n, k / p, p);
  }

  /** `idx` is a valid index into a tensor of shape `shape`. */
  predicate InBounds(shape: seq<nat>, idx: seq<nat>)
  {
    |idx| == |shape| && forall d :: 0 <= d < |shape| ==> idx[d] < shape[d]
  }

  lemma MulStep(i: nat, n: nat, p: nat, r: nat)
    requires i < n && r < p
    ensures i * p + r < n * p
  {
    assert (i + 1) * p <= n * p;
  }

  lemma DivModUnique(i: nat, j: nat, p: nat, r: nat, s: nat)
    requires r < p && s < p && i * p + r == j * p + s
    ensures i == j && r == s
  {
    if i < j {
      MulStep(i, j, p, r);
      assert false;
    } else if j < i {
      MulStep(j, i, p, s);
      assert false;
    }
  }

  /** Position of index `idx` in the row-major data of a tensor of shape `shape`. */
  function Offset(shape: seq<nat>, idx: seq<nat>): (k: nat)
    requires InBounds(shape, idx)
    ensures k < Product(shape)
  {
    if |shape| == 0 then 0
    else
      assert InBounds(shape[1..], idx[1..]);
      var r := Offset(shape[1..], idx[1..]);
      MulStep(idx[0], shape[0], Product(shape[1..]), r);
      idx[0] * Product(shape[1..]) + r
  }

  /** The index whose row-major position is `k`. */
  function Unravel(shape: seq<nat>, k: nat): (idx: seq<nat>)
    requires k < Product(shape)
    ensures InBounds(shape, idx) && Offset(shape, idx) == k
  {
    if |shape| == 0 then []
    else
      var p := Product(shape[1..]);
      DivBound(k, shape[0], p);
      var rest := Unravel(shape[1..], k % p);
      ConsIndex(shape, k / p, rest);
      [k / p] + rest
  }

  /** Prepending a first coordinate to an index of the trailing dimensions. */
  lemma ConsIndex(shape: seq<nat>, q: nat, rest: seq<nat>)
    requires |shape| > 0 && q < shape[0] && InBounds(shape[1..], rest)
    ensures InBounds(shape, [q] + rest)
    ensures Offset(shape, [q] + rest) == q * Product(shape[1..]) + Offset(shape[1..], rest)
  {
    var idx := [q] + rest;
    assert idx[1..] == rest;
    forall d | 0 <= d < |shape|
      ensures idx[d] < shape[d]
    {
      if d > 0 {
        assert idx[d] == rest[d - 1] && shape[d] == shape[1..][d - 1];
      }
    }
  }

  /** Distinct indices have distinct positions. */
  lemma {:induction false} OffsetInjective(shape: seq<nat>, i: seq<nat>, j: seq<nat>)
    requires InBounds(shape, i) && InBounds(shape, j)
    requires Offset(shape, i) == Offset(shape, j)
    ensures i == j
  {
    if |shape| > 0 {
      assert InBounds(shape[1..], i[1..]) && InBounds(shape[1..], j[1..]);
      DivModUnique(i[0], j[0], Product(shape[1..]), Offset(shape[1..], i[1..]), Offset(shape[1..], j[1..]));
      OffsetInjective(shape[1..], i[1..], j[1..]);
      assert i == [i[0]] + i[1..] && j == [j[0]] + j[1..];
    }
  }

  lemma UnravelOffset(shape: seq<nat>, idx: seq<nat>)
    requires InBounds(shape, idx)
    ensures Unravel(shape, Offset(shape, idx)) == idx
  {
    OffsetInjective(shape, idx, Unravel(shape, Offset(shape, idx)));
  }

  /** The row-major data of a tensor of shape `shape` whose element at `idx` is `f(idx)`. */
  function Tabulate<T>(shape: seq<nat>, f: seq<nat> -> T): (data: seq<T>)
    ensures |data| == Product(shape)
    ensures forall k :: 0 <= k < |data| ==> data[k] == f(Unravel(shape, k))
  {
    seq(Product(shape), k requires 0 <= k < Product(shape) => f(Unravel(shape, k)))
  }

  lemma TabulateAt<T>(shape: seq<nat>, f: seq<nat> -> T, idx: seq<nat>)
    requires InBounds(shape, idx)
    ensures Tabulate(shape, f)[Offset(shape, idx)] == f(idx)
  {
    UnravelOffset(shape, idx);
  }

  /** The element of `t` at index `idx`. */
  function At<T>(t: Tensor<T>, idx: seq<nat>): T
    requires t.WellFormed() && InBounds(t.shape, idx)
  {
    t.data[Offset(t.shape, idx)]
  }

  /** A tensor owned by one place in the program and updated in place. */
  class MutableTensor<T> {
    var shape: seq<nat>
    var data: seq<T>

    constructor (t: Tensor<T>)
      ensures shape == t.shape && data == t.data
    {
      shape := t.shape;
      data := t.data;
    }

    function Value(): (t: Tensor<T>)
      reads this
      ensures t.shape == shape && t.data == data
    {
      Tensor(shape, data)
    }
  }
}
