/**
 * The Transpose operator of `src/ops/mod.rs`: reorders the dimensions of a
 * tensor, reversing them when no order is given. The tensor library's
 * `permute`, which does the work, is not part of this model; it is taken to
 * panic on an order that is not a permutation of the dimensions.
 */
module OpsTranspose {
  import opened Wrappers
  import opened Tensors
  import opened Ops

  /** `order` lists every dimension of an `n`-dimensional tensor once. */
  predicate IsPermutation(order: seq<nat>, n: nat)
  {
    |order| == n && (forall i :: 0 <= i < n ==> order[i] < n) && (forall d :: 0 <= d < n ==> d in order)
  }

  /** Position of the first `x` in `s`, or `|s|` when there is none. */
  function IndexOf(s: seq<nat>, x: nat): (i: nat)
    ensures i <= |s|
    ensures i < |s| <==> x in s
    ensures i < |s| ==> s[i] == x && forall j :: 0 <= j < i ==> s[j] != x
  {
    if |s| == 0 then 0
    else if s[0] == x then 0
    else 1 + IndexOf(s[1..], x)
  }

  /** The dimensions `0 .. n` in reverse order. */
  function Reversed(n: nat): (r: seq<nat>)
    ensures |r| == n && forall i :: 0 <= i < n ==> r[i] == n - 1 - i
  {
    seq(n, i requires 0 <= i < n => n - 1 - i)
  }

  lemma ReversedIsPermutation(n: nat)
    ensures IsPermutation(Reversed(n), n)
  {
    forall d | 0 <= d < n
      ensures d in Reversed(n)
    {
      assert Reversed(n)[n - 1 - d] == d;
    }
  }

  /** Output dimension `i` is input dimension `order[i]`. */
  function PermuteShape(shape: seq<nat>, order: seq<nat>): (r: seq<nat>)
    requires IsPermutation(order, |shape|)
    ensures |r| == |shape| && forall i :: 0 <= i < |shape| ==> r[i] == shape[order[i]]
  {
    seq(|shape|, i requires 0 <= i < |shape| => shape[order[i]])
  }

  /** The output index holding the input element at `idx`. */
  function PermuteIndex(idx: seq<nat>, order: seq<nat>): (r: seq<nat>)
    requires IsPermutation(order, |idx|)
    ensures |r| == |idx| && forall i :: 0 <= i < |idx| ==> r[i] == idx[order[i]]
  {
    seq(|idx|, i requires 0 <= i < |idx| => idx[order[i]])
  }

  /** The input index whose element lands at output index `o`. */
  function SourceIndex(shape: seq<nat>, order: seq<nat>, o: seq<nat>): (r: seq<nat>)
    requires IsPermutation(order, |shape|) && InBounds(PermuteShape(shape, order), o)
    ensures InBounds(shape, r)
    ensures forall d :: 0 <= d < |shape| ==> r[d] == o[IndexOf(order, d)]
  {
    seq(|shape|, d requires 0 <= d < |shape| => o[IndexOf(order, d)])
  }

  /** The input with its dimensions in the order `order`. */
  function Permute<T>(input: Tensor<T>, order: seq<nat>): Tensor<T>
    requires input.WellFormed() && IsPermutation(order, |input.shape|)
  {
    var outShape := PermuteShape(input.shape, order);
    Tensor(outShape, seq(Product(outShape), k requires 0 <= k < Product(outShape) =>
      At(input, SourceIndex(input.shape, order, Unravel(outShape, k)))))
  }

  /** The element of the permuted tensor at output index `o`. */
  lemma PermuteAt<T>(input: Tensor<T>, order: seq<nat>, o: seq<nat>)
    requires input.WellFormed() && IsPermutation(order, |input.shape|)
    requires InBounds(PermuteShape(input.shape, order), o)
    ensures Permute(input, order).WellFormed()
    ensures At(Permute(input, order), o) == At(input, SourceIndex(input.shape, order, o))
  {
    UnravelOffset(PermuteShape(input.shape, order), o);
  }

  /**
   * `transpose`: permute by `perm`, or reverse the dimensions when there is
   * none; an order that is not a permutation panics.
   */
  function Transpose<T>(input: Tensor<T>, perm: Option<seq<nat>>): (r: Result<Tensor<T>, OpError>)
    requires input.WellFormed()
    ensures r.Ok? <==> perm.None? || IsPermutation(perm.value, |input.shape|)
    ensures r.Ok? ==> r.value.WellFormed() && |r.value.shape| == |input.shape|
  {
    match perm
    case None =>
      ReversedIsPermutation(|input.shape|);
      Ok(Permute(input, Reversed(|input.shape|)))
    case Some(order) =>
      if IsPermutation(order, |input.shape|) then Ok(Permute(input, order))
      else Err(Panic("permutation is invalid"))
  }

  // ---------------------------------------------------------------------------
  // Properties
  // ---------------------------------------------------------------------------

  /** The input element at `idx` is found at `idx` reordered by `order`. */
  lemma PermuteMoves<T>(input: Tensor<T>, order: seq<nat>, idx: seq<nat>)
    requires input.WellFormed() && IsPermutation(order, |input.shape|) && InBounds(input.shape, idx)
    ensures InBounds(PermuteShape(input.shape, order), PermuteIndex(idx, order))
    ensures At(Permute(input, order), PermuteIndex(idx, order)) == At(input, idx)
  {
    var o := PermuteIndex(idx, order);
    assert SourceIndex(input.shape, order, o) == idx;
    PermuteAt(input, order, o);
  }

  /** The dimensions `0 .. n` in order. */
  function InOrder(n: nat): (r: seq<nat>)
    ensures |r| == n && forall i :: 0 <= i < n ==> r[i] == i
  {
    seq(n, i requires 0 <= i < n => i)
  }

  /** The identity order leaves the tensor unchanged. */
  lemma PermuteIdentity<T>(input: Tensor<T>)
    requires input.WellFormed()
    ensures IsPermutation(InOrder(|input.shape|), |input.shape|)
    ensures Permute(input, InOrder(|input.shape|)) == input
  {
    var n := |input.shape|;
    var order := InOrder(n);
    forall d | 0 <= d < n
      ensures d in order && IndexOf(order, d) == d
    {
      assert order[d] == d;
    }
    assert PermuteShape(input.shape, order) == input.shape;
    var out := Permute(input, order);
    forall k | 0 <= k < |input.data|
      ensures out.data[k] == input.data[k]
    {
      var o := Unravel(input.shape, k);
      assert SourceIndex(input.shape, order, o) == o;
    }
  }

  lemma IndexOfReversed(n: nat, d: nat)
    requires d < n
    ensures IndexOf(Reversed(n), d) == n - 1 - d
  {
    var i := IndexOf(Reversed(n), d);
    ReversedIsPermutation(n);
    assert Reversed(n)[i] == d;
  }

  /** Reordering an index by the reversed order twice gives it back. */
  lemma ReverseIndexTwice(idx: seq<nat>)
    ensures IsPermutation(Reversed(|idx|), |idx|)
    ensures PermuteIndex(PermuteIndex(idx, Reversed(|idx|)), Reversed(|idx|)) == idx
  {
    ReversedIsPermutation(|idx|);
  }

  lemma ReverseShapeTwice(shape: seq<nat>)
    ensures IsPermutation(Reversed(|shape|), |shape|)
    ensures PermuteShape(PermuteShape(shape, Reversed(|shape|)), Reversed(|shape|)) == shape
  {
    ReversedIsPermutation(|shape|);
  }

  lemma ReverseTwiceAt<T>(input: Tensor<T>, k: nat)
    requires input.WellFormed() && k < |input.data|
    ensures IsPermutation(Reversed(|input.shape|), |input.shape|)
    ensures PermuteShape(PermuteShape(input.shape, Reversed(|input.shape|)), Reversed(|input.shape|)) == input.shape
    ensures Permute(Permute(input, Reversed(|input.shape|)), Reversed(|input.shape|)).data[k] == input.data[k]
  {
    var rev := Reversed(|input.shape|);
    ReversedIsPermutation(|input.shape|);
    var once := Permute(input, rev);
    var idx := Unravel(input.shape, k);
    var mid := PermuteIndex(idx, rev);
    PermuteMoves(input, rev, idx);
    PermuteMoves(once, rev, mid);
    ReverseIndexTwice(idx);
    ReverseShapeTwice(input.shape);
  }

  /** Reversing the dimensions twice gives the tensor back. */
  lemma TransposeTwice<T>(input: Tensor<T>)
    requires input.WellFormed()
    ensures Transpose(input, None).Ok?
    ensures Transpose(Transpose(input, None).value, None) == Ok(input)
  {
    var rev := Reversed(|input.shape|);
    ReverseShapeTwice(input.shape);
    var once := Permute(input, rev);
    var twice := Permute(once, rev);
    forall k | 0 <= k < |input.data|
      ensures twice.data[k] == input.data[k]
    {
      ReverseTwiceAt(input, k);
    }
    assert twice.shape == input.shape;
    assert twice.data == input.data;
  }

  /** Transpose::run: a missing input, otherwise the transpose of either kind. */
  function TransposeRun(perm: Option<seq<nat>>, inputs: seq<Input>): (r: Result<Output, OpError>)
    requires WellFormedInputs(inputs)
    ensures |inputs| == 0 ==> r == Err(MissingInputs)
    ensures |inputs| > 0 ==> (r.Ok? <==> perm.None? || IsPermutation(perm.value, |inputs[0].Shape()|))
    ensures r.Ok? && inputs[0].FloatTensor? ==> r == Ok(Output.FloatTensor(Transpose(inputs[0].f, perm).value))
    ensures r.Ok? && inputs[0].IntTensor? ==> r == Ok(Output.IntTensor(Transpose(inputs[0].i, perm).value))
  {
    if |inputs| == 0 then Err(MissingInputs)
    else
      assert InputWellFormed(inputs[0]);
      match inputs[0]
      case FloatTensor(t) =>
        var out :- Transpose(t, perm);
        Ok(Output.FloatTensor(out))
      case IntTensor(t) =>
        var out :- Transpose(t, perm);
        Ok(Output.IntTensor(out))
  }
}
