/**
 * The Concat operator of `src/ops/mod.rs`: joins tensors that agree in every
 * dimension but one along that dimension.
 *
 * The copy works on per-input element iterators. Each round takes one chunk of
 * `Product(shape[dim..])` elements from every input in turn, until every input
 * is exhausted. `Interleave` states that procedure over the remaining elements
 * of each iterator.
 */
module OpsConcat {
  import opened Wrappers
  import opened Tensors
  import opened Ops

  // ---------------------------------------------------------------------------
  // Shape checks
  // ---------------------------------------------------------------------------

  /** `other` has the rank of `first` and the same size in every dimension but `dim`. */
  predicate SameExceptAt(first: seq<nat>, other: seq<nat>, dim: nat)
  {
    |other| == |first| && forall d :: 0 <= d < |first| && d != dim ==> first[d] == other[d]
  }

  /**
   * The checks made on the inputs after the first, in order: the first input
   * that fails decides the error.
   */
  function CheckShapes<T>(first: seq<nat>, others: seq<Tensor<T>>, dim: nat): (r: Result<(), OpError>)
    ensures r.Ok? <==> forall j :: 0 <= j < |others| ==> SameExceptAt(first, others[j].shape, dim)
    ensures r.Err? ==> r.error == IncompatibleInputShapes("Tensors must have the same number of dimensions")
                       || r.error == IncompatibleInputShapes("Dimensions must be the same except for concat dim")
  {
    if |others| == 0 then Ok(())
    else if |others[0].shape| != |first| then
      Err(IncompatibleInputShapes("Tensors must have the same number of dimensions"))
    else if exists d :: 0 <= d < |first| && d != dim && first[d] != others[0].shape[d] then
      Err(IncompatibleInputShapes("Dimensions must be the same except for concat dim"))
    else
      var r := CheckShapes(first, others[1..], dim);
      assert forall j :: 1 <= j < |others| ==> others[j] == others[1..][j - 1];
      r
  }

  /** Every input keeps the tensor invariant. */
  predicate AllWellFormed<T>(inputs: seq<Tensor<T>>)
  {
    forall j {:trigger inputs[j]} :: 0 <= j < |inputs| ==> inputs[j].WellFormed()
  }

  /** The inputs pass every check made before the copy. */
  predicate Concatenable<T>(inputs: seq<Tensor<T>>, dim: nat)
  {
    |inputs| > 0 && dim < |inputs[0].shape| && CheckShapes(inputs[0].shape, inputs[1..], dim).Ok?
  }

  lemma ConcatenableShapes<T>(inputs: seq<Tensor<T>>, dim: nat)
    requires Concatenable(inputs, dim)
    ensures forall j :: 0 <= j < |inputs| ==> SameExceptAt(inputs[0].shape, inputs[j].shape, dim)
  {
    forall j | 0 <= j < |inputs|
      ensures SameExceptAt(inputs[0].shape, inputs[j].shape, dim)
    {
      if j > 0 {
        assert inputs[j] == inputs[1..][j - 1];
      }
    }
  }

  // ---------------------------------------------------------------------------
  // Output shape
  // ---------------------------------------------------------------------------

  /** Size of dimension `dim` of `shape`, or 0 when it has no such dimension. */
  function DimOr(shape: seq<nat>, dim: nat): nat
  {
    if dim < |shape| then shape[dim] else 0
  }

  /** Sum of the sizes along `dim` of the first `n` inputs. */
  function SumDim<T>(inputs: seq<Tensor<T>>, n: nat, dim: nat): nat
    requires n <= |inputs|
  {
    if n == 0 then 0 else SumDim(inputs, n - 1, dim) + DimOr(inputs[n - 1].shape, dim)
  }

  /** The shape of the result: the first input's shape with the sizes along `dim` summed. */
  function ConcatShape<T>(inputs: seq<Tensor<T>>, dim: nat): seq<nat>
    requires |inputs| > 0 && dim < |inputs[0].shape|
  {
    SetDim(inputs[0].shape, dim, SumDim(inputs, |inputs|, dim))
  }

  // ---------------------------------------------------------------------------
  // The chunked copy
  // ---------------------------------------------------------------------------

  /** The first `n` elements of `s`, or all of it when it is shorter. */
  function Take<T>(s: seq<T>, n: nat): seq<T>
  {
    if n <= |s| then s[..n] else s
  }

  /** What is left of `s` after `Take(s, n)`. */
  function Drop<T>(s: seq<T>, n: nat): seq<T>
  {
    if n <= |s| then s[n..] else []
  }

  lemma TakeDrop<T>(s: seq<T>, n: nat)
    ensures Take(s, n) + Drop(s, n) == s
    ensures |Take(s, n)| + |Drop(s, n)| == |s|
  {
  }

  /** Total number of elements left in the first `n` iterators. */
  function SumLen<T>(rest: seq<seq<T>>, n: nat): nat
    requires n <= |rest|
  {
    if n == 0 then 0 else SumLen(rest, n - 1) + |rest[n - 1]|
  }

  /** Some iterator still has elements. */
  predicate AnyLeft<T>(rest: seq<seq<T>>)
  {
    exists i :: 0 <= i < |rest| && |rest[i]| > 0
  }

  /** Every iterator with elements left advances by a positive chunk. */
  predicate Progresses<T>(rest: seq<seq<T>>, chunks: seq<nat>)
  {
    |chunks| == |rest| && forall i {:trigger rest[i]} :: 0 <= i < |rest| ==> chunks[i] > 0 || |rest[i]| == 0
  }

  /** One round restricted to the first `n` iterators: their next chunks, in input order. */
  function RoundOf<T>(rest: seq<seq<T>>, chunks: seq<nat>, n: nat): seq<T>
    requires |chunks| == |rest| && n <= |rest|
  {
    if n == 0 then [] else RoundOf(rest, chunks, n - 1) + Take(rest[n - 1], chunks[n - 1])
  }

  /** The iterators after one round. */
  function Advance<T>(rest: seq<seq<T>>, chunks: seq<nat>): (r: seq<seq<T>>)
    requires |chunks| == |rest|
    ensures |r| == |rest|
    ensures forall i {:trigger r[i]} :: 0 <= i < |rest| ==> r[i] == Drop(rest[i], chunks[i])
  {
    if rest == [] then []
    else Advance(rest[..|rest| - 1], chunks[..|rest| - 1]) + [Drop(rest[|rest| - 1], chunks[|rest| - 1])]
  }

  /** A round takes from the iterators exactly what it outputs; `next` is what it leaves of them. */
  lemma {:induction false} RoundLength<T>(rest: seq<seq<T>>, chunks: seq<nat>, next: seq<seq<T>>, n: nat)
    requires |chunks| == |rest| == |next| && n <= |rest|
    requires forall i :: 0 <= i < |rest| ==> next[i] == Drop(rest[i], chunks[i])
    ensures |RoundOf(rest, chunks, n)| + SumLen(next, n) == SumLen(rest, n)
  {
    if n > 0 {
      RoundLength(rest, chunks, next, n - 1);
      TakeDrop(rest[n - 1], chunks[n - 1]);
    }
  }

  lemma {:induction false} SumLenZero<T>(rest: seq<seq<T>>, n: nat)
    requires n <= |rest|
    ensures SumLen(rest, n) == 0 <==> forall i :: 0 <= i < n ==> |rest[i]| == 0
  {
    if n > 0 {
      SumLenZero(rest, n - 1);
    }
  }

  /** A round that outputs something shrinks what is left; one of a progressing set always does. */
  lemma AdvanceShrinks<T>(rest: seq<seq<T>>, chunks: seq<nat>)
    requires Progresses(rest, chunks) && AnyLeft(rest)
    ensures Progresses(Advance(rest, chunks), chunks)
    ensures SumLen(Advance(rest, chunks), |rest|) < SumLen(rest, |rest|)
  {
    var i :| 0 <= i < |rest| && |rest[i]| > 0;
    assert chunks[i] > 0;
    RoundNonEmpty(rest, chunks, |rest|, i);
    RoundLength(rest, chunks, Advance(rest, chunks), |rest|);
  }

  lemma {:induction false} RoundNonEmpty<T>(rest: seq<seq<T>>, chunks: seq<nat>, n: nat, i: nat)
    requires |chunks| == |rest| && i < n <= |rest| && |rest[i]| > 0 && chunks[i] > 0
    ensures |RoundOf(rest, chunks, n)| > 0
  {
    if i < n - 1 {
      RoundNonEmpty(rest, chunks, n - 1, i);
    }
  }

  /**
   * All rounds until every iterator is exhausted: the data Concat writes, given
   * each input's elements and chunk size.
   */
  function Interleave<T>(rest: seq<seq<T>>, chunks: seq<nat>): seq<T>
    requires Progresses(rest, chunks)
    decreases SumLen(rest, |rest|)
  {
    if !AnyLeft(rest) then []
    else
      AdvanceShrinks(rest, chunks);
      RoundOf(rest, chunks, |rest|) + Interleave(Advance(rest, chunks), chunks)
  }

  /** One round, then the rest. */
  lemma InterleaveStep<T>(rest: seq<seq<T>>, chunks: seq<nat>)
    requires Progresses(rest, chunks) && AnyLeft(rest)
    ensures Progresses(Advance(rest, chunks), chunks)
    ensures Interleave(rest, chunks) == RoundOf(rest, chunks, |rest|) + Interleave(Advance(rest, chunks), chunks)
  {
    AdvanceShrinks(rest, chunks);
  }

  /** Every input element is written exactly once in count. */
  lemma {:induction false} InterleaveLength<T>(rest: seq<seq<T>>, chunks: seq<nat>)
    requires Progresses(rest, chunks)
    ensures |Interleave(rest, chunks)| == SumLen(rest, |rest|)
    decreases SumLen(rest, |rest|)
  {
    if !AnyLeft(rest) {
      SumLenZero(rest, |rest|);
    } else {
      AdvanceShrinks(rest, chunks);
      RoundLength(rest, chunks, Advance(rest, chunks), |rest|);
      InterleaveLength(Advance(rest, chunks), chunks);
    }
  }

  /** All inputs one after the other. */
  function Flatten<T>(rest: seq<seq<T>>, n: nat): seq<T>
    requires n <= |rest|
  {
    if n == 0 then [] else Flatten(rest, n - 1) + rest[n - 1]
  }

  lemma {:induction false} RoundWhole<T>(rest: seq<seq<T>>, chunks: seq<nat>, n: nat)
    requires |chunks| == |rest| && n <= |rest|
    requires forall i :: 0 <= i < |rest| ==> chunks[i] == |rest[i]|
    ensures RoundOf(rest, chunks, n) == Flatten(rest, n)
  {
    if n > 0 {
      RoundWhole(rest, chunks, n - 1);
    }
  }

  /** When every chunk is a whole input, the inputs are joined one after the other. */
  lemma InterleaveWhole<T>(rest: seq<seq<T>>, chunks: seq<nat>)
    requires Progresses(rest, chunks)
    requires forall i :: 0 <= i < |rest| ==> chunks[i] == |rest[i]|
    ensures Interleave(rest, chunks) == Flatten(rest, |rest|)
  {
    RoundWhole(rest, chunks, |rest|);
    if AnyLeft(rest) {
      var next := Advance(rest, chunks);
      assert !AnyLeft(next);
    } else {
      FlattenEmpty(rest, |rest|);
    }
  }

  lemma {:induction false} FlattenEmpty<T>(rest: seq<seq<T>>, n: nat)
    requires n <= |rest| && forall i :: 0 <= i < n ==> |rest[i]| == 0
    ensures Flatten(rest, n) == []
  {
    if n > 0 {
      FlattenEmpty(rest, n - 1);
    }
  }

  /** A single input comes back unchanged, whatever its chunk size. */
  lemma {:induction false} InterleaveSingle<T>(s: seq<T>, c: nat)
    requires c > 0 || |s| == 0
    ensures Interleave([s], [c]) == s
    decreases |s|
  {
    if |s| > 0 {
      assert AnyLeft([s]) by { assert |[s][0]| > 0; }
      InterleaveStep([s], [c]);
      TakeDrop(s, c);
      assert RoundOf([s], [c], 1) == Take(s, c) by { assert RoundOf([s], [c], 0) == []; }
      assert Advance([s], [c]) == [Drop(s, c)];
      InterleaveSingle(Drop(s, c), c);
    } else {
      assert !AnyLeft([s]);
    }
  }

  /** Where the chunk of iterator `n` starts within a round: the first `n` chunk sizes summed. */
  function Offset(chunks: seq<nat>, n: nat): nat
    requires n <= |chunks|
  {
    if n == 0 then 0 else Offset(chunks, n - 1) + chunks[n - 1]
  }

  /** `rounds` copies of `c` added up, which is `rounds * c` (RepeatIsProduct). */
  function Repeat(rounds: nat, c: nat): nat
  {
    if rounds == 0 then 0 else c + Repeat(rounds - 1, c)
  }

  lemma {:induction false} RepeatIsProduct(rounds: nat, c: nat)
    ensures Repeat(rounds, c) == rounds * c
  {
    if rounds > 0 {
      RepeatIsProduct(rounds - 1, c);
    }
  }

  /** Every iterator holds exactly `rounds` of its chunks. */
  predicate Rounds<T>(rest: seq<seq<T>>, chunks: seq<nat>, rounds: nat)
  {
    |chunks| == |rest| && forall i {:trigger rest[i]} :: 0 <= i < |rest| ==> |rest[i]| == Repeat(rounds, chunks[i])
  }

  lemma {:induction false} OffsetGrows(chunks: seq<nat>, j: nat, n: nat)
    requires j < n <= |chunks|
    ensures Offset(chunks, j) + chunks[j] <= Offset(chunks, n)
  {
    if j < n - 1 {
      OffsetGrows(chunks, j, n - 1);
    }
  }

  /** A round in which every iterator has a whole chunk left outputs every chunk whole. */
  lemma {:induction false} RoundOfLength<T>(rest: seq<seq<T>>, chunks: seq<nat>, n: nat)
    requires |chunks| == |rest| && n <= |rest|
    requires forall i :: 0 <= i < |rest| ==> chunks[i] <= |rest[i]|
    ensures |RoundOf(rest, chunks, n)| == Offset(chunks, n)
  {
    if n > 0 {
      RoundOfLength(rest, chunks, n - 1);
    }
  }

  /** Element `m` of iterator `j`'s chunk sits at `j`'s offset in the round. */
  lemma {:induction false} RoundAt<T>(rest: seq<seq<T>>, chunks: seq<nat>, n: nat, j: nat, m: nat)
    requires |chunks| == |rest| && j < n <= |rest| && m < chunks[j]
    requires forall i :: 0 <= i < |rest| ==> chunks[i] <= |rest[i]|
    ensures Offset(chunks, j) + m < |RoundOf(rest, chunks, n)|
    ensures RoundOf(rest, chunks, n)[Offset(chunks, j) + m] == rest[j][m]
  {
    RoundOfLength(rest, chunks, n);
    RoundOfLength(rest, chunks, n - 1);
    if j < n - 1 {
      RoundAt(rest, chunks, n - 1, j, m);
      OffsetGrows(chunks, j, n - 1);
    }
  }

  /** A round of iterators that last `rounds > 0` rounds takes whole chunks and leaves `rounds - 1` rounds. */
  lemma FirstRound<T>(rest: seq<seq<T>>, chunks: seq<nat>, rounds: nat)
    requires Rounds(rest, chunks, rounds) && rounds > 0
    ensures forall i :: 0 <= i < |rest| ==> chunks[i] <= |rest[i]|
    ensures Rounds(Advance(rest, chunks), chunks, rounds - 1)
    ensures Progresses(rest, chunks) ==> Progresses(Advance(rest, chunks), chunks)
  {
  }

  /** `rounds` rounds, each one chunk from every iterator in input order. */
  function Rows<T>(rest: seq<seq<T>>, chunks: seq<nat>, rounds: nat): seq<T>
    requires |chunks| == |rest|
    decreases rounds
  {
    if rounds == 0 then [] else RoundOf(rest, chunks, |rest|) + Rows(Advance(rest, chunks), chunks, rounds - 1)
  }

  lemma {:induction false} OffsetZero(chunks: seq<nat>, n: nat)
    requires n <= |chunks| && forall i :: 0 <= i < n ==> chunks[i] == 0
    ensures Offset(chunks, n) == 0
  {
    if n > 0 {
      OffsetZero(chunks, n - 1);
    }
  }

  /** Iterators that all last `rounds` rounds are interleaved in exactly `rounds` rounds. */
  lemma {:induction false} InterleaveRows<T>(rest: seq<seq<T>>, chunks: seq<nat>, rounds: nat)
    requires Progresses(rest, chunks) && Rounds(rest, chunks, rounds)
    ensures Interleave(rest, chunks) == Rows(rest, chunks, rounds)
    decreases rounds
  {
    if rounds == 0 {
      assert !AnyLeft(rest);
    } else {
      var next := Advance(rest, chunks);
      FirstRound(rest, chunks, rounds);
      InterleaveRows(next, chunks, rounds - 1);
      if AnyLeft(rest) {
        InterleaveStep(rest, chunks);
      } else {
        forall i | 0 <= i < |rest|
          ensures chunks[i] == 0 && |next[i]| == 0
        {
          assert |rest[i]| == 0;
        }
        OffsetZero(chunks, |rest|);
        RoundOfLength(rest, chunks, |rest|);
        assert !AnyLeft(next);
      }
    }
  }

  /** The first of `rounds` rounds: element `m` of iterator `j`'s chunk sits at `j`'s offset. */
  lemma RowsFirst<T>(rest: seq<seq<T>>, chunks: seq<nat>, rounds: nat, j: nat, m: nat)
    requires Rounds(rest, chunks, rounds) && 0 < rounds && j < |rest| && m < chunks[j]
    ensures m < |rest[j]| && Offset(chunks, j) + m < |Rows(rest, chunks, rounds)|
    ensures Rows(rest, chunks, rounds)[Offset(chunks, j) + m] == rest[j][m]
  {
    FirstRound(rest, chunks, rounds);
    RoundAt(rest, chunks, |rest|, j, m);
  }

  /** Past the first round, the rounds continue with those of what is left. */
  lemma RowsLater<T>(rest: seq<seq<T>>, chunks: seq<nat>, rounds: nat, r: nat, x: nat, y: nat)
    requires Rounds(rest, chunks, rounds) && 0 < rounds && r == rounds - 1
    requires x < |Rows(Advance(rest, chunks), chunks, r)| && y == Offset(chunks, |rest|) + x
    ensures y < |Rows(rest, chunks, rounds)|
    ensures Rows(rest, chunks, rounds)[y] == Rows(Advance(rest, chunks), chunks, r)[x]
  {
    var round, later := RoundOf(rest, chunks, |rest|), Rows(Advance(rest, chunks), chunks, r);
    RowsUnfold(rest, chunks, rounds, r);
    RoundWidth(rest, chunks, rounds);
    AppendAt(round, later, x);
  }

  /** The first of `rounds > 0` rounds, then the others. */
  lemma RowsUnfold<T>(rest: seq<seq<T>>, chunks: seq<nat>, rounds: nat, r: nat)
    requires |chunks| == |rest| && 0 < rounds && r == rounds - 1
    ensures Rows(rest, chunks, rounds) == RoundOf(rest, chunks, |rest|) + Rows(Advance(rest, chunks), chunks, r)
  {
  }

  /** A round of iterators that all have a round left is one chunk of each. */
  lemma RoundWidth<T>(rest: seq<seq<T>>, chunks: seq<nat>, rounds: nat)
    requires Rounds(rest, chunks, rounds) && 0 < rounds
    ensures |RoundOf(rest, chunks, |rest|)| == Offset(chunks, |rest|)
  {
    FirstRound(rest, chunks, rounds);
    RoundOfLength(rest, chunks, |rest|);
  }

  lemma AppendAt<T>(a: seq<T>, b: seq<T>, x: nat)
    requires x < |b|
    ensures |a| + x < |a + b| && (a + b)[|a| + x] == b[x]
  {
  }

  /**
   * Element `m` of iterator `j`'s chunk in round `p` of `rounds` can be looked
   * up: `before` is `p` chunks of iterator `j` and `width` is `p` whole rounds.
   */
  ghost predicate RowReady<T>(rest: seq<seq<T>>, chunks: seq<nat>, rounds: nat, p: nat, j: nat, m: nat,
                              before: nat, width: nat)
  {
    Rounds(rest, chunks, rounds) && p < rounds && j < |rest| && m < chunks[j] &&
    before == Repeat(p, chunks[j]) && width == Repeat(p, Offset(chunks, |rest|))
  }

  /** Element `x` of the rows exists and is iterator `j`'s element `y`. */
  ghost predicate RowHolds<T>(rest: seq<seq<T>>, chunks: seq<nat>, rounds: nat, j: nat, x: nat, y: nat)
  {
    |chunks| == |rest| && j < |rest| && y < |rest[j]| && x < |Rows(rest, chunks, rounds)| &&
    Rows(rest, chunks, rounds)[x] == rest[j][y]
  }

  /**
   * In round `p` of `rounds`, element `m` of iterator `j`'s chunk is element
   * `x` of the rows and that iterator's element `y`, `width + Offset(chunks, j) + m`
   * and `before + m`.
   */
  lemma {:induction false} RowsAt<T>(rest: seq<seq<T>>, chunks: seq<nat>, rounds: nat, p: nat, j: nat, m: nat,
                                     before: nat, width: nat, x: nat, y: nat)
    requires RowReady(rest, chunks, rounds, p, j, m, before, width)
    requires x == width + Offset(chunks, j) + m && y == before + m
    ensures RowHolds(rest, chunks, rounds, j, x, y)
    decreases p
  {
    if p == 0 {
      RowsStart(rest, chunks, rounds, j, m, before, width, x, y);
    } else {
      RowsNextBounds(rest, chunks, rounds, p, j, m, before, width);
      var q: nat, r: nat, b: nat, w: nat := p - 1, rounds - 1, before - chunks[j], width - Offset(chunks, |rest|);
      RowsNext(rest, chunks, rounds, p, j, m, before, width, q, r, b, w);
      var x0: nat, y0: nat := w + Offset(chunks, j) + m, b + m;
      RowsAt(Advance(rest, chunks), chunks, r, q, j, m, b, w, x0, y0);
      RowsShift(rest, chunks, rounds, j, r, x0, y0, x, y);
    }
  }

  lemma RowsStart<T>(rest: seq<seq<T>>, chunks: seq<nat>, rounds: nat, j: nat, m: nat, before: nat, width: nat,
                     x: nat, y: nat)
    requires RowReady(rest, chunks, rounds, 0, j, m, before, width)
    requires x == width + Offset(chunks, j) + m && y == before + m
    ensures RowHolds(rest, chunks, rounds, j, x, y)
  {
    RowsFirst(rest, chunks, rounds, j, m);
  }

  lemma RowsNextBounds<T>(rest: seq<seq<T>>, chunks: seq<nat>, rounds: nat, p: nat, j: nat, m: nat, before: nat, width: nat)
    requires RowReady(rest, chunks, rounds, p, j, m, before, width) && p > 0
    ensures 0 < rounds && chunks[j] <= before && Offset(chunks, |rest|) <= width
  {
  }

  /** What is left after the first round is ready for the lookup one round earlier. */
  lemma RowsNext<T>(rest: seq<seq<T>>, chunks: seq<nat>, rounds: nat, p: nat, j: nat, m: nat, before: nat, width: nat,
                    q: nat, r: nat, b: nat, w: nat)
    requires RowReady(rest, chunks, rounds, p, j, m, before, width)
    requires q + 1 == p && r + 1 == rounds && b + chunks[j] == before && w + Offset(chunks, |rest|) == width
    ensures RowReady(Advance(rest, chunks), chunks, r, q, j, m, b, w)
  {
    FirstRound(rest, chunks, rounds);
  }

  /**
   * Element `x` of the later rounds, iterator `j`'s element `y` of what is
   * left, is element `x'` of all the rounds and `j`'s element `y'`, one
   * round and one chunk further on.
   */
  lemma RowsShift<T>(rest: seq<seq<T>>, chunks: seq<nat>, rounds: nat, j: nat, r: nat, x: nat, y: nat, x': nat, y': nat)
    requires Rounds(rest, chunks, rounds) && 0 < rounds && j < |rest| && r == rounds - 1
    requires x' == Offset(chunks, |rest|) + x && y' == chunks[j] + y
    requires RowHolds(Advance(rest, chunks), chunks, r, j, x, y)
    ensures RowHolds(rest, chunks, rounds, j, x', y')
  {
    AdvancedAt(rest, chunks, rounds, j, y, y');
    RowsLater(rest, chunks, rounds, r, x, x');
  }

  /** Element `k` of what is left of iterator `j` after a round is its element `chunks[j] + k`. */
  lemma AdvancedAt<T>(rest: seq<seq<T>>, chunks: seq<nat>, rounds: nat, j: nat, k: nat, y: nat)
    requires Rounds(rest, chunks, rounds) && 0 < rounds && j < |rest| && k < |Advance(rest, chunks)[j]|
    requires y == chunks[j] + k
    ensures y < |rest[j]| && Advance(rest, chunks)[j][k] == rest[j][y]
  {
    assert |rest[j]| == Repeat(rounds, chunks[j]);
  }

  lemma ReadyAt<T>(rest: seq<seq<T>>, chunks: seq<nat>, rounds: nat, p: nat, j: nat, m: nat)
    requires Rounds(rest, chunks, rounds) && p < rounds && j < |rest| && m < chunks[j]
    ensures RowReady(rest, chunks, rounds, p, j, m, Repeat(p, chunks[j]), Repeat(p, Offset(chunks, |rest|)))
  {
  }

  /** `x[0], y[0], x[1], y[1], ...`: two sequences of equal length taken element by element in turn. */
  function Zip<T>(x: seq<T>, y: seq<T>): seq<T>
    requires |x| == |y|
  {
    if x == [] then [] else [x[0], y[0]] + Zip(x[1..], y[1..])
  }

  lemma {:induction false} ZipIndex<T>(x: seq<T>, y: seq<T>)
    requires |x| == |y|
    ensures |Zip(x, y)| == 2 * |x|
    ensures forall k :: 0 <= k < |x| ==> Zip(x, y)[2 * k] == x[k] && Zip(x, y)[2 * k + 1] == y[k]
    decreases |x|
  {
    if |x| > 0 {
      ZipIndex(x[1..], y[1..]);
      var tail := Zip(x[1..], y[1..]);
      forall k | 0 <= k < |x|
        ensures Zip(x, y)[2 * k] == x[k] && Zip(x, y)[2 * k + 1] == y[k]
      {
        if k > 0 {
          ShiftPair(x[0], y[0], tail, k - 1);
        }
      }
    }
  }

  lemma ShiftPair<T>(a: T, b: T, tail: seq<T>, k: nat)
    requires 2 * k + 1 < |tail|
    ensures ([a, b] + tail)[2 * (k + 1)] == tail[2 * k]
    ensures ([a, b] + tail)[2 * (k + 1) + 1] == tail[2 * k + 1]
  {
  }

  lemma {:induction false} ZipIsInterleave<T>(x: seq<T>, y: seq<T>)
    requires |x| == |y|
    ensures Interleave([x, y], [1, 1]) == Zip(x, y)
    decreases |x|
  {
    if |x| > 0 {
      PairStep(x, y, 1);
      assert x[..1] == [x[0]] && y[..1] == [y[0]];
      ZipIsInterleave(x[1..], y[1..]);
    } else {
      PairsEmpty(x, y, 1);
    }
  }

  /** Two inputs of equal length with one-element chunks alternate element by element. */
  lemma InterleavePairs<T>(x: seq<T>, y: seq<T>)
    requires |x| == |y|
    ensures |Interleave([x, y], [1, 1])| == 2 * |x|
    ensures forall k :: 0 <= k < |x| ==> Interleave([x, y], [1, 1])[2 * k] == x[k]
    ensures forall k :: 0 <= k < |x| ==> Interleave([x, y], [1, 1])[2 * k + 1] == y[k]
  {
    ZipIsInterleave(x, y);
    ZipIndex(x, y);
  }

  /** Two empty inputs interleave to nothing, whatever the chunk size. */
  lemma PairsEmpty<T>(x: seq<T>, y: seq<T>, c: nat)
    requires |x| == |y| == 0
    ensures Progresses([x, y], [c, c])
    ensures Interleave([x, y], [c, c]) == []
  {
    assert !AnyLeft([x, y]) by {
      forall i | 0 <= i < 2 ensures |[x, y][i]| == 0 { }
    }
  }

  /** Two inputs after a round. */
  lemma AdvancePair<T>(u: seq<T>, v: seq<T>, c: nat, d: nat)
    ensures Advance([u, v], [c, d]) == [Drop(u, c), Drop(v, d)]
  {
    var next := Advance([u, v], [c, d]);
    assert next == [next[0], next[1]];
  }

  /** The round of two inputs. */
  lemma RoundPair<T>(u: seq<T>, v: seq<T>, c: nat, d: nat)
    ensures RoundOf([u, v], [c, d], 2) == Take(u, c) + Take(v, d)
  {
    assert RoundOf([u, v], [c, d], 0) == [];
  }

  /** The first round of two inputs of equal length with equal chunks takes a chunk of each. */
  lemma PairStep<T>(u: seq<T>, v: seq<T>, c: nat)
    requires |u| == |v| && 0 < c <= |u|
    ensures Progresses([u[c..], v[c..]], [c, c])
    ensures Interleave([u, v], [c, c]) == u[..c] + (v[..c] + Interleave([u[c..], v[c..]], [c, c]))
  {
    var next := Advance([u, v], [c, c]);
    assert next == [u[c..], v[c..]] by {
      AdvancePair(u, v, c, c);
    }
    assert RoundOf([u, v], [c, c], 2) == u[..c] + v[..c] by {
      RoundPair(u, v, c, c);
    }
    assert Progresses(next, [c, c]) &&
      Interleave([u, v], [c, c]) == RoundOf([u, v], [c, c], 2) + Interleave(next, [c, c]) by {
      assert AnyLeft([u, v]) by { assert |[u, v][0]| > 0; }
      InterleaveStep([u, v], [c, c]);
    }
    var later := Interleave(next, [c, c]);
    assert u[..c] + v[..c] + later == u[..c] + (v[..c] + later);
  }

  // ---------------------------------------------------------------------------
  // The specification of `concat`
  // ---------------------------------------------------------------------------

  /** The elements of every input. */
  function Datas<T>(inputs: seq<Tensor<T>>): (r: seq<seq<T>>)
    ensures |r| == |inputs| && forall i :: 0 <= i < |inputs| ==> r[i] == inputs[i].data
  {
    seq(|inputs|, i requires 0 <= i < |inputs| => inputs[i].data)
  }

  /** Each input's chunk: the number of elements in one slice at the concat dimension and after. */
  function Chunks<T>(inputs: seq<Tensor<T>>, dim: nat): (r: seq<nat>)
    ensures |r| == |inputs|
    ensures forall i :: 0 <= i < |inputs| && dim <= |inputs[i].shape| ==> r[i] == Product(inputs[i].shape[dim..])
  {
    seq(|inputs|, i requires 0 <= i < |inputs| =>
      if dim <= |inputs[i].shape| then Product(inputs[i].shape[dim..]) else 0)
  }

  /** A well-formed input with a zero chunk has no elements. */
  lemma ChunksProgress<T>(inputs: seq<Tensor<T>>, dim: nat)
    requires Concatenable(inputs, dim) && AllWellFormed(inputs)
    ensures Progresses(Datas(inputs), Chunks(inputs, dim))
  {
    ConcatenableShapes(inputs, dim);
    forall i | 0 <= i < |inputs|
      ensures Chunks(inputs, dim)[i] > 0 || |inputs[i].data| == 0
    {
      var s := inputs[i].shape;
      assert s == s[..dim] + s[dim..];
      ProductAppend(s[..dim], s[dim..]);
      assert inputs[i].WellFormed();
    }
  }

  /** The result of `concat` on inputs that pass its checks. */
  function ConcatSpec<T>(inputs: seq<Tensor<T>>, dim: nat): Tensor<T>
    requires Concatenable(inputs, dim) && AllWellFormed(inputs)
  {
    ChunksProgress(inputs, dim);
    Tensor(ConcatShape(inputs, dim), Interleave(Datas(inputs), Chunks(inputs, dim)))
  }

  lemma ProductSetDimAdd(s: seq<nat>, dim: nat, a: nat, b: nat)
    requires dim < |s|
    ensures Product(SetDim(s, dim, a + b)) == Product(SetDim(s, dim, a)) + Product(SetDim(s, dim, b))
  {
    var p, q := Product(s[..dim]), Product(s[dim + 1..]);
    ProductSetDim(s, dim, a);
    ProductSetDim(s, dim, b);
    ProductSetDim(s, dim, a + b);
    SplitSum(p, a, b, q);
  }

  lemma SplitSum(p: nat, a: nat, b: nat, q: nat)
    ensures p * (a + b) * q == p * a * q + p * b * q
  {
    assert p * (a + b) == p * a + p * b;
  }

  lemma ProductSetDim(s: seq<nat>, dim: nat, x: nat)
    requires dim < |s|
    ensures Product(SetDim(s, dim, x)) == Product(s[..dim]) * x * Product(s[dim + 1..])
  {
    var t := SetDim(s, dim, x);
    ProductSplit(t, dim);
    assert t[..dim] == s[..dim] && t[dim + 1..] == s[dim + 1..];
  }

  lemma {:induction false} ConcatShapeSize<T>(inputs: seq<Tensor<T>>, dim: nat, n: nat)
    requires Concatenable(inputs, dim) && AllWellFormed(inputs) && n <= |inputs|
    ensures Product(SetDim(inputs[0].shape, dim, SumDim(inputs, n, dim))) == SumLen(Datas(inputs), n)
  {
    var first := inputs[0].shape;
    if n == 0 {
      ProductZero(SetDim(first, dim, 0));
    } else {
      ConcatShapeSize(inputs, dim, n - 1);
      ConcatenableShapes(inputs, dim);
      var s := inputs[n - 1].shape;
      assert SetDim(first, dim, s[dim]) == s;
      assert inputs[n - 1].WellFormed();
      ProductSetDimAdd(first, dim, SumDim(inputs, n - 1, dim), s[dim]);
    }
  }

  /** The result of `concat` keeps the tensor invariant. */
  lemma ConcatSpecWellFormed<T>(inputs: seq<Tensor<T>>, dim: nat)
    requires Concatenable(inputs, dim) && AllWellFormed(inputs)
    ensures ConcatSpec(inputs, dim).WellFormed()
  {
    ChunksProgress(inputs, dim);
    InterleaveLength(Datas(inputs), Chunks(inputs, dim));
    ConcatShapeSize(inputs, dim, |inputs|);
  }

  /** Along the first dimension, `concat` places the inputs' data one after the other. */
  lemma ConcatFirstDim<T>(inputs: seq<Tensor<T>>)
    requires Concatenable(inputs, 0) && AllWellFormed(inputs)
    ensures ConcatSpec(inputs, 0).data == Flatten(Datas(inputs), |inputs|)
  {
    ChunksProgress(inputs, 0);
    forall i | 0 <= i < |inputs|
      ensures Chunks(inputs, 0)[i] == |Datas(inputs)[i]|
    {
      assert inputs[i].shape[0..] == inputs[i].shape;
      assert inputs[i].WellFormed();
    }
    InterleaveWhole(Datas(inputs), Chunks(inputs, 0));
  }

  /** `concat` of one input is that input. */
  lemma ConcatSingle<T>(t: Tensor<T>, dim: nat)
    requires Concatenable([t], dim) && AllWellFormed([t])
    ensures ConcatSpec([t], dim) == t
  {
    ChunksProgress([t], dim);
    assert Datas([t]) == [t.data];
    assert Chunks([t], dim) == [Product(t.shape[dim..])];
    InterleaveSingle(t.data, Product(t.shape[dim..]));
    assert SumDim([t], 1, dim) == t.shape[dim];
    assert SetDim(t.shape, dim, t.shape[dim]) == t.shape;
  }

  /** Each chunk is the input's size along `dim` times the common size of the dimensions after it. */
  lemma ChunksAre<T>(inputs: seq<Tensor<T>>, dim: nat, i: nat)
    requires Concatenable(inputs, dim) && i < |inputs|
    ensures dim < |inputs[i].shape|
    ensures Chunks(inputs, dim)[i] == inputs[i].shape[dim] * Product(inputs[0].shape[dim + 1..])
  {
    ConcatenableShapes(inputs, dim);
    var s := inputs[i].shape;
    assert s[dim..][1..] == s[dim + 1..] == inputs[0].shape[dim + 1..];
  }

  lemma {:induction false} OffsetIsSumDim<T>(inputs: seq<Tensor<T>>, dim: nat, n: nat)
    requires Concatenable(inputs, dim) && n <= |inputs|
    ensures Offset(Chunks(inputs, dim), n) == SumDim(inputs, n, dim) * Product(inputs[0].shape[dim + 1..])
  {
    if n > 0 {
      var inner := Product(inputs[0].shape[dim + 1..]);
      OffsetIsSumDim(inputs, dim, n - 1);
      ChunksAre(inputs, dim, n - 1);
      AddMul(SumDim(inputs, n - 1, dim), inputs[n - 1].shape[dim], inner);
    }
  }

  lemma AddMul(a: nat, b: nat, x: nat)
    ensures a * x + b * x == (a + b) * x
  {
  }

  /** Every input holds one chunk per index of the dimensions before `dim`. */
  lemma ConcatRounds<T>(inputs: seq<Tensor<T>>, dim: nat)
    requires Concatenable(inputs, dim) && AllWellFormed(inputs)
    ensures Rounds(Datas(inputs), Chunks(inputs, dim), Product(inputs[0].shape[..dim]))
  {
    ConcatenableShapes(inputs, dim);
    var datas, chunks := Datas(inputs), Chunks(inputs, dim);
    forall i | 0 <= i < |inputs|
      ensures |datas[i]| == Repeat(Product(inputs[0].shape[..dim]), chunks[i])
    {
      RepeatIsProduct(Product(inputs[0].shape[..dim]), chunks[i]);
      var s := inputs[i].shape;
      ChunksAre(inputs, dim, i);
      ProductSplit(s, dim);
      assert s[..dim] == inputs[0].shape[..dim];
      assert inputs[i].WellFormed();
      MulAssoc(Product(s[..dim]), s[dim], Product(s[dim + 1..]));
    }
  }

  /**
   * Where `[a, b, c]` sits in the row-major layout of a tensor of shape
   * `[_, mid, inner]`: `(a * mid + b) * inner + c` (PositionIsProduct), the
   * products written as `Repeat` so that the offsets stay sums.
   */
  function Position(a: nat, mid: nat, b: nat, inner: nat, c: nat): nat
  {
    Repeat(Repeat(a, mid) + b, inner) + c
  }

  lemma PositionIsProduct(a: nat, mid: nat, b: nat, inner: nat, c: nat)
    ensures Position(a, mid, b, inner, c) == (a * mid + b) * inner + c
  {
    RepeatIsProduct(a, mid);
    RepeatIsProduct(a * mid + b, inner);
  }

  lemma {:induction false} RepeatAdd(a: nat, b: nat, x: nat)
    ensures Repeat(a + b, x) == Repeat(a, x) + Repeat(b, x)
  {
    if a > 0 {
      RepeatAdd(a - 1, b, x);
    }
  }

  /** `p` rounds of `t` rows of `x` are `p` rounds of `t` taken `x` at a time. */
  lemma {:induction false} RepeatNested(p: nat, t: nat, x: nat)
    ensures Repeat(p, Repeat(t, x)) == Repeat(Repeat(p, t), x)
  {
    if p > 0 {
      RepeatNested(p - 1, t, x);
      RepeatAdd(t, Repeat(p - 1, t), x);
    }
  }

  lemma RepeatBelow(k: nat, c: nat, x: nat, q: nat)
    requires k < c && q < x
    ensures Repeat(k, x) + q < Repeat(c, x)
  {
    RepeatAdd(k, c - k, x);
  }

  /**
   * Position `[p, offset + k, q]` of a result `total` wide along the middle
   * dimension: `p` rounds of `total * inner`, the `offset * inner` elements
   * before the part that is `c` wide, then `k * inner + q` into that part,
   * which is position `[p, k, q]` of the part itself.
   */
  lemma SplitPosition(p: nat, total: nat, offset: nat, k: nat, c: nat, inner: nat, q: nat)
    requires k < c && q < inner
    ensures Repeat(k, inner) + q < Repeat(c, inner)
    ensures Repeat(p, Repeat(total, inner)) + Repeat(offset, inner) + (Repeat(k, inner) + q) ==
            Position(p, total, offset + k, inner, q)
    ensures Repeat(p, Repeat(c, inner)) + (Repeat(k, inner) + q) == Position(p, c, k, inner, q)
  {
    RepeatBelow(k, c, inner, q);
    RepeatNested(p, total, inner);
    RepeatAdd(Repeat(p, total), offset + k, inner);
    RepeatAdd(offset, k, inner);
    RepeatNested(p, c, inner);
    RepeatAdd(Repeat(p, c), k, inner);
  }

  /**
   * In round `p` of iterators that all last `rounds` rounds, element `m` of
   * iterator `j`'s chunk is that iterator's element `p * chunks[j] + m` (the
   * products written as `Repeat`).
   */
  lemma RowsChunk<T>(rest: seq<seq<T>>, chunks: seq<nat>, rounds: nat, p: nat, j: nat, m: nat, x: nat, y: nat)
    requires Rounds(rest, chunks, rounds) && p < rounds && j < |rest| && m < chunks[j]
    requires x == Repeat(p, Offset(chunks, |rest|)) + Offset(chunks, j) + m && y == Repeat(p, chunks[j]) + m
    ensures y < |rest[j]| && x < |Rows(rest, chunks, rounds)| && Rows(rest, chunks, rounds)[x] == rest[j][y]
  {
    ReadyAt(rest, chunks, rounds, p, j, m);
    RowsAt(rest, chunks, rounds, p, j, m, Repeat(p, chunks[j]), Repeat(p, Offset(chunks, |rest|)), x, y);
  }

  /**
   * With chunks `c`, `offset` and `total` rows of `inner` wide, the positions
   * `[p, offset + k, q]` of the result and `[p, k, q]` of iterator `j` are
   * `m = k * inner + q` into `j`'s chunk of round `p`.
   */
  lemma PositionsMatch(chunks: seq<nat>, j: nat, n: nat, p: nat, total: nat, offset: nat, k: nat, c: nat, inner: nat, q: nat)
    requires j < |chunks| && n <= |chunks| && k < c && q < inner
    requires chunks[j] == Repeat(c, inner) && Offset(chunks, j) == Repeat(offset, inner) && Offset(chunks, n) == Repeat(total, inner)
    ensures Repeat(k, inner) + q < chunks[j]
    ensures Position(p, total, offset + k, inner, q) == Repeat(p, Offset(chunks, n)) + Offset(chunks, j) + (Repeat(k, inner) + q)
    ensures Position(p, c, k, inner, q) == Repeat(p, chunks[j]) + (Repeat(k, inner) + q)
  {
    SplitPosition(p, total, offset, k, c, inner, q);
  }

  /**
   * Rows of chunks that are `c` and `total` rows of `inner` elements, seen in
   * three dimensions: position `[p, offset + k, q]` of the rows is position
   * `[p, k, q]` of iterator `j`, whose chunk starts `offset` rows into its
   * round.
   */
  lemma RowsPosition<T>(rest: seq<seq<T>>, chunks: seq<nat>, rounds: nat, rows: seq<T>, src: seq<T>,
                        p: nat, j: nat, k: nat, q: nat, c: nat, inner: nat, offset: nat, total: nat)
    requires Rounds(rest, chunks, rounds) && rows == Rows(rest, chunks, rounds)
    requires p < rounds && j < |rest| && src == rest[j]
    requires chunks[j] == Repeat(c, inner) && Offset(chunks, j) == Repeat(offset, inner)
    requires Offset(chunks, |rest|) == Repeat(total, inner)
    requires k < c && q < inner
    ensures Position(p, total, offset + k, inner, q) < |rows| && Position(p, c, k, inner, q) < |src|
    ensures rows[Position(p, total, offset + k, inner, q)] == src[Position(p, c, k, inner, q)]
  {
    PositionsMatch(chunks, j, |rest|, p, total, offset, k, c, inner, q);
    RowsChunk(rest, chunks, rounds, p, j, Repeat(k, inner) + q,
              Position(p, total, offset + k, inner, q), Position(p, c, k, inner, q));
  }

  /** The chunk widths of the inputs, counted in rows of the dimensions after `dim`. */
  lemma ConcatWidths<T>(inputs: seq<Tensor<T>>, dim: nat, j: nat)
    requires Concatenable(inputs, dim) && j < |inputs|
    ensures dim < |inputs[j].shape|
    ensures Chunks(inputs, dim)[j] == Repeat(inputs[j].shape[dim], Product(inputs[0].shape[dim + 1..]))
    ensures Offset(Chunks(inputs, dim), j) == Repeat(SumDim(inputs, j, dim), Product(inputs[0].shape[dim + 1..]))
    ensures Offset(Chunks(inputs, dim), |inputs|) == Repeat(SumDim(inputs, |inputs|, dim), Product(inputs[0].shape[dim + 1..]))
  {
    var inner := Product(inputs[0].shape[dim + 1..]);
    ChunksAre(inputs, dim, j);
    OffsetIsSumDim(inputs, dim, j);
    OffsetIsSumDim(inputs, dim, |inputs|);
    RepeatIsProduct(inputs[j].shape[dim], inner);
    RepeatIsProduct(SumDim(inputs, j, dim), inner);
    RepeatIsProduct(SumDim(inputs, |inputs|, dim), inner);
  }

  /** The result's elements are the inputs' chunks taken round by round. */
  lemma ConcatRows<T>(inputs: seq<Tensor<T>>, dim: nat)
    requires Concatenable(inputs, dim) && AllWellFormed(inputs)
    ensures Rounds(Datas(inputs), Chunks(inputs, dim), Product(inputs[0].shape[..dim]))
    ensures ConcatSpec(inputs, dim).data == Rows(Datas(inputs), Chunks(inputs, dim), Product(inputs[0].shape[..dim]))
  {
    ChunksProgress(inputs, dim);
    ConcatRounds(inputs, dim);
    InterleaveRows(Datas(inputs), Chunks(inputs, dim), Product(inputs[0].shape[..dim]));
  }

  /**
   * Seen as an `outer x total x inner` tensor around `dim`, the result holds
   * input `j`'s element `[p, k, q]` at `[p, offset + k, q]`, where the inputs
   * before `j` fill positions `0..offset` along `dim` and all of them `total`.
   */
  lemma ConcatAt<T>(inputs: seq<Tensor<T>>, dim: nat, p: nat, j: nat, k: nat, q: nat, offset: nat, total: nat)
    requires Concatenable(inputs, dim) && AllWellFormed(inputs)
    requires p < Product(inputs[0].shape[..dim]) && q < Product(inputs[0].shape[dim + 1..])
    requires j < |inputs| && dim < |inputs[j].shape| && k < inputs[j].shape[dim]
    requires offset == SumDim(inputs, j, dim) && total == SumDim(inputs, |inputs|, dim)
    ensures Position(p, total, offset + k, Product(inputs[0].shape[dim + 1..]), q) < |ConcatSpec(inputs, dim).data|
    ensures Position(p, inputs[j].shape[dim], k, Product(inputs[0].shape[dim + 1..]), q) < |inputs[j].data|
    ensures ConcatSpec(inputs, dim).data[Position(p, total, offset + k, Product(inputs[0].shape[dim + 1..]), q)] ==
            inputs[j].data[Position(p, inputs[j].shape[dim], k, Product(inputs[0].shape[dim + 1..]), q)]
  {
    var datas, chunks, outer := Datas(inputs), Chunks(inputs, dim), Product(inputs[0].shape[..dim]);
    var inner := Product(inputs[0].shape[dim + 1..]);
    ConcatRows(inputs, dim);
    ConcatWidths(inputs, dim, j);
    assert datas[j] == inputs[j].data;
    RowsPosition(datas, chunks, outer, ConcatSpec(inputs, dim).data, inputs[j].data, p, j, k, q,
                 inputs[j].shape[dim], inner, offset, total);
  }

  // ---------------------------------------------------------------------------
  // The operator
  // ---------------------------------------------------------------------------

  /** The shape checks of `concat`, input by input and dimension by dimension. */
  method CheckInputShapes<T>(first: seq<nat>, others: seq<Tensor<T>>, dim: nat) returns (r: Result<(), OpError>)
    ensures r == CheckShapes(first, others, dim)
  {
    var j := 0;
    while j < |others|
      invariant 0 <= j <= |others|
      invariant CheckShapes(first, others, dim) == CheckShapes(first, others[j..], dim)
    {
      assert others[j..][1..] == others[j + 1..];
      var other := others[j].shape;
      if |other| != |first| {
        return Err(IncompatibleInputShapes("Tensors must have the same number of dimensions"));
      }
      var d := 0;
      while d < |first|
        invariant 0 <= d <= |first|
        invariant forall e :: 0 <= e < d && e != dim ==> first[e] == other[e]
      {
        if d != dim && first[d] != other[d] {
          return Err(IncompatibleInputShapes("Dimensions must be the same except for concat dim"));
        }
        d := d + 1;
      }
      j := j + 1;
    }
    assert others[|others|..] == [];
    return Ok(());
  }

  /** The output shape: the concat dimension grows by each later input's size. */
  method OutputShape<T>(inputs: seq<Tensor<T>>, dim: nat) returns (outShape: seq<nat>)
    requires Concatenable(inputs, dim)
    ensures outShape == ConcatShape(inputs, dim)
  {
    ConcatenableShapes(inputs, dim);
    outShape := inputs[0].shape;
    var j := 1;
    while j < |inputs|
      invariant 1 <= j <= |inputs|
      invariant outShape == SetDim(inputs[0].shape, dim, SumDim(inputs, j, dim))
    {
      outShape := outShape[dim := outShape[dim] + inputs[j].shape[dim]];
      j := j + 1;
    }
  }

  /** The inner `for` loop: one chunk from each iterator, in input order. */
  method OneRound<T>(start: seq<seq<T>>, chunks: seq<nat>) returns (taken: seq<T>, rest: seq<seq<T>>)
    requires |chunks| == |start|
    ensures taken == RoundOf(start, chunks, |start|)
    ensures rest == Advance(start, chunks)
  {
    rest := start;
    taken := [];
    var i := 0;
    while i < |rest|
      invariant 0 <= i <= |rest| == |start|
      invariant taken == RoundOf(start, chunks, i)
      invariant forall k :: 0 <= k < i ==> rest[k] == Drop(start[k], chunks[k])
      invariant forall k :: i <= k < |rest| ==> rest[k] == start[k]
    {
      taken := taken + Take(rest[i], chunks[i]);
      rest := rest[i := Drop(rest[i], chunks[i])];
      i := i + 1;
    }
    AdvanceOf(start, chunks, rest);
  }

  /** Any sequence holding what is left of each iterator is `Advance`. */
  lemma AdvanceOf<T>(start: seq<seq<T>>, chunks: seq<nat>, rest: seq<seq<T>>)
    requires |chunks| == |start| == |rest|
    requires forall k :: 0 <= k < |rest| ==> rest[k] == Drop(start[k], chunks[k])
    ensures rest == Advance(start, chunks)
  {
  }

  /** The copy loop: rounds of one chunk per iterator while any iterator has elements left. */
  method CopyChunks<T>(datas: seq<seq<T>>, chunks: seq<nat>) returns (out: seq<T>)
    requires Progresses(datas, chunks)
    ensures out == Interleave(datas, chunks)
  {
    var rest := datas;
    out := [];
    while AnyLeft(rest)
      invariant Progresses(rest, chunks)
      invariant out + Interleave(rest, chunks) == Interleave(datas, chunks)
      decreases SumLen(rest, |rest|)
    {
      ghost var start := rest;
      ghost var before := out;
      var taken;
      taken, rest := OneRound(rest, chunks);
      out := out + taken;
      AdvanceShrinks(start, chunks);
      assert out + Interleave(rest, chunks) == Interleave(datas, chunks) by {
        InterleaveStep(start, chunks);
        assert out + Interleave(rest, chunks) == before + (taken + Interleave(rest, chunks));
      }
    }
  }

  /**
   * `concat`: check `dim` against the first input's rank, check every other
   * input's shape, then copy chunk by chunk. With no inputs at all, the read of
   * the first input panics.
   */
  method Concat<T>(inputs: seq<Tensor<T>>, dim: nat) returns (r: Result<Tensor<T>, OpError>)
    requires AllWellFormed(inputs)
    ensures |inputs| == 0 ==> r == Err(Panic("index out of bounds"))
    ensures |inputs| > 0 && dim >= |inputs[0].shape| ==> r == Err(InvalidValue("dim is larger than input rank"))
    ensures |inputs| > 0 && dim < |inputs[0].shape| && r.Err? ==> CheckShapes(inputs[0].shape, inputs[1..], dim) == Err(r.error)
    ensures r.Ok? <==> Concatenable(inputs, dim)
    ensures r.Ok? ==> r.value == ConcatSpec(inputs, dim) && r.value.WellFormed()
  {
    if |inputs| == 0 {
      return Err(Panic("index out of bounds"));
    }
    var first := inputs[0].shape;
    if dim >= |first| {
      return Err(InvalidValue("dim is larger than input rank"));
    }
    var checked := CheckInputShapes(first, inputs[1..], dim);
    if checked.Err? {
      return Err(checked.error);
    }
    var outShape := OutputShape(inputs, dim);
    ChunksProgress(inputs, dim);
    var out := CopyChunks(Datas(inputs), Chunks(inputs, dim));
    ConcatSpecWellFormed(inputs, dim);
    return Ok(Tensor(outShape, out));
  }

  // ---------------------------------------------------------------------------
  // Concat::run and the type check
  // ---------------------------------------------------------------------------

  /**
   * The inputs `Concat::run` passes on when the first is a float tensor, as
   * written: each input of the other kind becomes an error value that the
   * following `flatten` discards, so it is dropped without a trace.
   */
  function FloatsKept(inputs: seq<Input>): (r: seq<Tensor<F32>>)
    ensures |r| <= |inputs|
    ensures forall t :: t in r ==> Input.FloatTensor(t) in inputs
    ensures forall j :: 0 <= j < |inputs| && inputs[j].FloatTensor? ==> inputs[j].f in r
    ensures WellFormedInputs(inputs) ==> AllWellFormed(r)
  {
    if |inputs| == 0 then []
    else (if inputs[0].FloatTensor? then [inputs[0].f] else []) + FloatsKept(inputs[1..])
  }

  /** The same for the int inputs when the first is an int tensor. */
  function IntsKept(inputs: seq<Input>): (r: seq<Tensor<I32>>)
    ensures |r| <= |inputs|
    ensures forall t :: t in r ==> Input.IntTensor(t) in inputs
    ensures forall j :: 0 <= j < |inputs| && inputs[j].IntTensor? ==> inputs[j].i in r
    ensures WellFormedInputs(inputs) ==> AllWellFormed(r)
  {
    if |inputs| == 0 then []
    else (if inputs[0].IntTensor? then [inputs[0].i] else []) + IntsKept(inputs[1..])
  }

  /** The float inputs, or the type error the code builds for any input of the other kind. */
  function FloatInputs(inputs: seq<Input>): (r: Result<seq<Tensor<F32>>, OpError>)
    ensures r.Ok? <==> forall j :: 0 <= j < |inputs| ==> inputs[j].FloatTensor?
    ensures r.Ok? ==> |r.value| == |inputs| && forall j :: 0 <= j < |inputs| ==> r.value[j] == inputs[j].f
    ensures r.Err? ==> r.error == IncompatibleInputTypes("Concat inputs must have same type")
  {
    if forall j :: 0 <= j < |inputs| ==> inputs[j].FloatTensor? then
      Ok(seq(|inputs|, j requires 0 <= j < |inputs| => inputs[j].f))
    else
      Err(IncompatibleInputTypes("Concat inputs must have same type"))
  }

  /** The int inputs, or the type error for any input of the other kind. */
  function IntInputs(inputs: seq<Input>): (r: Result<seq<Tensor<I32>>, OpError>)
    ensures r.Ok? <==> forall j :: 0 <= j < |inputs| ==> inputs[j].IntTensor?
    ensures r.Ok? ==> |r.value| == |inputs| && forall j :: 0 <= j < |inputs| ==> r.value[j] == inputs[j].i
    ensures r.Err? ==> r.error == IncompatibleInputTypes("Concat inputs must have same type")
  {
    if forall j :: 0 <= j < |inputs| ==> inputs[j].IntTensor? then
      Ok(seq(|inputs|, j requires 0 <= j < |inputs| => inputs[j].i))
    else
      Err(IncompatibleInputTypes("Concat inputs must have same type"))
  }

  /** Where all inputs are floats, the checked inputs are exactly those the code keeps. */
  lemma FloatInputsAgree(inputs: seq<Input>)
    requires forall j :: 0 <= j < |inputs| ==> inputs[j].FloatTensor?
    ensures FloatInputs(inputs) == Ok(FloatsKept(inputs))
  {
    AllFloatsKept(inputs);
    var checked, kept := FloatInputs(inputs), FloatsKept(inputs);
    assert checked.Ok? && |checked.value| == |kept|;
    assert checked.value == kept;
  }

  /** With no input of the other kind, the filter keeps every input, in order. */
  lemma {:induction false} AllFloatsKept(inputs: seq<Input>)
    requires forall j :: 0 <= j < |inputs| ==> inputs[j].FloatTensor?
    ensures |FloatsKept(inputs)| == |inputs|
    ensures forall j :: 0 <= j < |inputs| ==> FloatsKept(inputs)[j] == inputs[j].f
  {
    if |inputs| > 0 {
      AllFloatsKept(inputs[1..]);
      assert FloatsKept(inputs) == [inputs[0].f] + FloatsKept(inputs[1..]);
    }
  }

  /** Where all inputs are ints, the checked inputs are exactly those the code keeps. */
  lemma IntInputsAgree(inputs: seq<Input>)
    requires forall j :: 0 <= j < |inputs| ==> inputs[j].IntTensor?
    ensures IntInputs(inputs) == Ok(IntsKept(inputs))
  {
    AllIntsKept(inputs);
    var checked, kept := IntInputs(inputs), IntsKept(inputs);
    assert checked.Ok? && |checked.value| == |kept|;
    assert checked.value == kept;
  }

  /** With no input of the other kind, the filter keeps every input, in order. */
  lemma {:induction false} AllIntsKept(inputs: seq<Input>)
    requires forall j :: 0 <= j < |inputs| ==> inputs[j].IntTensor?
    ensures |IntsKept(inputs)| == |inputs|
    ensures forall j :: 0 <= j < |inputs| ==> IntsKept(inputs)[j] == inputs[j].i
  {
    if |inputs| > 0 {
      AllIntsKept(inputs[1..]);
      assert IntsKept(inputs) == [inputs[0].i] + IntsKept(inputs[1..]);
    }
  }

  /** As written, a float tensor followed by an int tensor concatenates the float tensor alone. */
  lemma MixedConcatDropsInput(a: Tensor<F32>, b: Tensor<I32>)
    ensures FloatsKept([Input.FloatTensor(a), Input.IntTensor(b)]) == [a]
    ensures FloatInputs([Input.FloatTensor(a), Input.IntTensor(b)]) == Err(IncompatibleInputTypes("Concat inputs must have same type"))
  {
    var inputs := [Input.FloatTensor(a), Input.IntTensor(b)];
    assert inputs[1..] == [Input.IntTensor(b)];
    assert inputs[1..][1..] == [];
    assert FloatsKept(inputs[1..]) == [];
    assert !inputs[1].FloatTensor?;
  }

  /**
   * `Concat::run`, as written: the inputs of the first input's kind are
   * concatenated and every input of the other kind is dropped.
   */
  method ConcatRun(dim: nat, inputs: seq<Input>) returns (r: Result<Output, OpError>)
    requires WellFormedInputs(inputs)
    ensures |inputs| == 0 ==> r == Err(MissingInputs)
    ensures |inputs| > 0 && inputs[0].FloatTensor? ==>
      (r.Ok? <==> Concatenable(FloatsKept(inputs), dim)) &&
      (r.Ok? ==> r == Ok(Output.FloatTensor(ConcatSpec(FloatsKept(inputs), dim))))
    ensures |inputs| > 0 && inputs[0].IntTensor? ==>
      (r.Ok? <==> Concatenable(IntsKept(inputs), dim)) &&
      (r.Ok? ==> r == Ok(Output.IntTensor(ConcatSpec(IntsKept(inputs), dim))))
  {
    if |inputs| == 0 {
      return Err(MissingInputs);
    }
    match inputs[0]
    case FloatTensor(_) =>
      var out :- Concat(FloatsKept(inputs), dim);
      return Ok(Output.FloatTensor(out));
    case IntTensor(_) =>
      var out :- Concat(IntsKept(inputs), dim);
      return Ok(Output.IntTensor(out));
  }
}
