/**
 * The 1-dimensional slices of a tensor along one dimension ("lanes"), in
 * the order the reduction operators visit them, and the index arithmetic
 * that relates them to the tensor's row-major data.
 */
module Lanes {
  import opened Tensors

  /** `n` dimensions of size 1. */
  function Ones(n: nat): (r: seq<nat>)
    ensures |r| == n && forall i :: 0 <= i < n ==> r[i] == 1
  {
    seq(n, i requires 0 <= i < n => 1)
  }

  /** The index `0` in every one of `n` dimensions. */
  function Zeros(n: nat): (r: seq<nat>)
    ensures |r| == n && forall i :: 0 <= i < n ==> r[i] == 0
  {
    seq(n, i requires 0 <= i < n => 0)
  }

  lemma {:induction false} ProductOnes(n: nat)
    ensures Product(Ones(n)) == 1
  {
    if n > 0 {
      assert Ones(n)[1..] == Ones(n - 1);
      ProductOnes(n - 1);
    }
  }

  /** The only index of a shape of ones is all zeros, at position 0. */
  lemma OnesIndex(n: nat, idx: seq<nat>)
    requires InBounds(Ones(n), idx)
    ensures idx == Zeros(n) && Offset(Ones(n), idx) == 0
  {
    ProductOnes(n);
  }

  /** Row-major positions compose: the leading dimensions count whole blocks of the trailing ones. */
  lemma Regroup(x: nat, p: nat, q: nat, o: int, r: int)
    ensures x * (p * q) + (o * q + r) == (x * p + o) * q + r
  {
    MulAssoc(x, p, q);
  }

  lemma {:induction false} OffsetAppend(a: seq<nat>, b: seq<nat>, i: seq<nat>, j: seq<nat>)
    requires InBounds(a, i) && InBounds(b, j)
    ensures InBounds(a + b, i + j)
    ensures Offset(a + b, i + j) == Offset(a, i) * Product(b) + Offset(b, j)
  {
    if |a| == 0 {
      assert a + b == b && i + j == j;
    } else {
      assert (a + b)[1..] == a[1..] + b;
      assert (i + j)[1..] == i[1..] + j;
      assert InBounds(a[1..], i[1..]);
      OffsetAppend(a[1..], b, i[1..], j);
      ProductAppend(a[1..], b);
      var p := Product(a[1..]);
      var q := Product(b);
      assert Offset(a + b, i + j) == i[0] * (p * q) + (Offset(a[1..], i[1..]) * q + Offset(b, j));
      Regroup(i[0], p, q, Offset(a[1..], i[1..]), Offset(b, j));
    }
  }

  /** The index at a position of a concatenated shape is the concatenation of the two indices. */
  lemma UnravelAppend(a: seq<nat>, b: seq<nat>, x: nat, y: nat)
    requires x < Product(a) && y < Product(b)
    ensures x * Product(b) + y < Product(a + b)
    ensures Unravel(a + b, x * Product(b) + y) == Unravel(a, x) + Unravel(b, y)
  {
    var i, j := Unravel(a, x), Unravel(b, y);
    var k := x * Product(b) + y;
    assert InBounds(a + b, i + j) && Offset(a + b, i + j) == k by {
      OffsetAppend(a, b, i, j);
    }
    UnravelOffset(a + b, i + j);
  }

  // ---------------------------------------------------------------------------
  // Lanes along one dimension
  // ---------------------------------------------------------------------------

  /** The shape that counts the lanes along `d`: `shape` with dimension `d` set to 1. */
  function OuterShape(shape: seq<nat>, d: nat): (r: seq<nat>)
    requires d < |shape|
    ensures r == SetDim(shape, d, 1)
  {
    shape[d := 1]
  }

  /** The number of lanes along `d`. */
  function LaneCount(shape: seq<nat>, d: nat): nat
    requires d < |shape|
  {
    Product(OuterShape(shape, d))
  }

  /** The index of element `j` of lane `l` along `d`. */
  function LaneIndex(shape: seq<nat>, d: nat, l: nat, j: nat): (idx: seq<nat>)
    requires d < |shape| && l < LaneCount(shape, d) && j < shape[d]
    ensures InBounds(shape, idx)
    ensures idx == Unravel(OuterShape(shape, d), l)[d := j]
  {
    Unravel(OuterShape(shape, d), l)[d := j]
  }

  /** Lane `l` along `d`: the elements whose other coordinates are those of outer index `l`. */
  function Lane<T>(t: Tensor<T>, d: nat, l: nat): (r: seq<T>)
    requires t.WellFormed() && d < |t.shape| && l < LaneCount(t.shape, d)
    ensures |r| == t.shape[d]
    ensures forall j :: 0 <= j < t.shape[d] ==> r[j] == At(t, LaneIndex(t.shape, d, l, j))
  {
    seq(t.shape[d], j requires 0 <= j < t.shape[d] => At(t, LaneIndex(t.shape, d, l, j)))
  }

  /** Every index lies in exactly one lane, at its own coordinate along `d`. */
  lemma LaneOf(shape: seq<nat>, d: nat, idx: seq<nat>)
    requires d < |shape| && InBounds(shape, idx)
    ensures InBounds(OuterShape(shape, d), idx[d := 0])
    ensures Offset(OuterShape(shape, d), idx[d := 0]) < LaneCount(shape, d)
    ensures LaneIndex(shape, d, Offset(OuterShape(shape, d), idx[d := 0]), idx[d]) == idx
  {
    var outer := OuterShape(shape, d);
    UnravelOffset(outer, idx[d := 0]);
  }

  /** Along the last dimension the lanes are the consecutive rows of the data. */
  lemma LastLaneIsRow<T>(t: Tensor<T>, l: nat, j: nat)
    requires t.WellFormed() && |t.shape| > 0
    requires l < LaneCount(t.shape, |t.shape| - 1) && j < t.shape[|t.shape| - 1]
    ensures l * t.shape[|t.shape| - 1] + j < |t.data|
    ensures Lane(t, |t.shape| - 1, l)[j] == t.data[l * t.shape[|t.shape| - 1] + j]
  {
    var n := |t.shape| - 1;
    var lead := t.shape[..n];
    var last := t.shape[n];
    assert t.shape == lead + [last];
    assert OuterShape(t.shape, n) == lead + [1];
    assert l < Product(lead) && Unravel(lead + [1], l) == Unravel(lead, l) + [0] by {
      ProductSnoc(lead, 1);
      UnravelLastOne(lead, l);
    }
    var idx := LaneIndex(t.shape, n, l, j);
    assert idx == Unravel(lead, l) + [j];
    RowOffset(lead, last, Unravel(lead, l), j);
  }

  /** A trailing dimension of size one adds a zero coordinate and leaves the position alone. */
  lemma UnravelLastOne(lead: seq<nat>, l: nat)
    requires l < Product(lead)
    ensures l < Product(lead + [1]) && Unravel(lead + [1], l) == Unravel(lead, l) + [0]
  {
    ProductSnoc(lead, 1);
    var idx := Unravel(lead, l) + [0];
    RowOffset(lead, 1, Unravel(lead, l), 0);
    assert Offset(lead + [1], idx) == l;
    UnravelOffset(lead + [1], idx);
  }

  /** Appending coordinate `j` of a last dimension of size `last` puts the row at `last` times its position. */
  lemma RowOffset(lead: seq<nat>, last: nat, i: seq<nat>, j: nat)
    requires InBounds(lead, i) && j < last
    ensures InBounds(lead + [last], i + [j])
    ensures Offset(lead + [last], i + [j]) == Offset(lead, i) * last + j
  {
    OffsetAppend(lead, [last], i, [j]);
    assert Offset([last], [j]) == j && Product([last]) == last by {
      assert [j][1..] == [] && [last][1..] == [];
    }
  }

  /** Along the first dimension, lane `l` takes one element from each block of the data. */
  lemma FirstLaneIsColumn<T>(t: Tensor<T>, l: nat, j: nat)
    requires t.WellFormed() && |t.shape| > 0
    requires l < LaneCount(t.shape, 0) && j < t.shape[0]
    ensures l == l % Product(t.shape[1..]) && j * Product(t.shape[1..]) + l < |t.data|
    ensures Lane(t, 0, l)[j] == t.data[j * Product(t.shape[1..]) + l]
  {
    var rest := t.shape[1..];
    var p := Product(rest);
    var outer := OuterShape(t.shape, 0);
    assert outer[1..] == rest;
    assert l < 1 * p;
    assert l / p == 0 && l % p == l by {
      DivBound(l, 1, p);
      DivModUnique(l / p, 0, p, l % p, l);
    }
    assert Unravel(outer, l) == [0] + Unravel(rest, l);
    var idx := LaneIndex(t.shape, 0, l, j);
    assert idx[1..] == Unravel(rest, l);
    assert Offset(t.shape, idx) == j * p + l;
  }

  /** The lanes along `d` hold every element once: their count times their length is the element count. */
  lemma LaneCountProduct(shape: seq<nat>, d: nat)
    requires d < |shape|
    ensures LaneCount(shape, d) * shape[d] == Product(shape)
    ensures Product(shape) == 0 && shape[d] > 0 ==> LaneCount(shape, d) == 0
  {
    var outer := OuterShape(shape, d);
    ProductSplit(shape, d);
    ProductSplit(outer, d);
    assert outer[..d] == shape[..d] && outer[d + 1..] == shape[d + 1..];
    MulSwapLast(Product(shape[..d]), shape[d], Product(shape[d + 1..]));
    ZeroFactor(LaneCount(shape, d), shape[d]);
  }

  lemma ZeroFactor(a: nat, b: nat)
    ensures a * b == 0 && b > 0 ==> a == 0
  {
    if a > 0 && b > 0 {
      MulMono(1, a, b);
    }
  }

  lemma MulSwapLast(p: nat, s: nat, q: nat)
    ensures p * 1 * q * s == p * s * q
  {
    MulAssoc(p, q, s);
    MulAssoc(p, s, q);
  }

  /** A 1-dimensional tensor is its own only lane. */
  lemma VectorLane<T>(t: Tensor<T>)
    requires t.WellFormed() && |t.shape| == 1
    ensures LaneCount(t.shape, 0) == 1 && Lane(t, 0, 0) == t.data
  {
    assert Product([1]) == 1 by {
      assert 1 * Product([]) == 1 * 1;
    }
    assert OuterShape(t.shape, 0) == [1];
    assert Unravel([1], 0) == [0];
    forall j | 0 <= j < t.shape[0]
      ensures Lane(t, 0, 0)[j] == t.data[j]
    {
      assert LaneIndex(t.shape, 0, 0, j) == [j];
      assert [j][1..] == [] && t.shape[1..] == [];
      assert Offset(t.shape, [j]) == j * 1 + 0;
    }
    assert t.shape[0] * Product([]) == t.shape[0] * 1;
  }
}
