/**
 * TopK from `src/ops/reduce.rs`: along one axis, the `k` largest (or
 * smallest) elements of every lane with their indices in the lane, ordered
 * by value, ties broken by the smaller index, NaN counted as the greatest
 * value.
 */
module OpsTopK {
  import opened Wrappers
  import opened Tensors
  import opened Ops
  import opened Lanes
  import opened ReduceOrder

  /**
   * A lane element paired with its position in the lane, as `topk` pairs
   * them in its `tmp` vector; `key` is the value as the comparator sees it.
   */
  datatype Scored<T> = Scored(value: T, key: F32, index: nat)

  // ---------------------------------------------------------------------
  // The comparator

  /** `usize::cmp`. */
  function CmpNat(a: nat, b: nat): (r: Ordering)
    ensures r == Less <==> a < b
    ensures r == Greater <==> a > b
  {
    if a < b then Less else if a == b then Equal else Greater
  }

  /** `a` orders below `b` when NaN counts as greater than every number. */
  predicate KeyLess(a: F32, b: F32)
  {
    a.Num? && (b.NaN? || a.value < b.value)
  }

  /** Both NaN, or equal numbers. */
  predicate SameKey(a: F32, b: F32)
  {
    (a.NaN? && b.NaN?) || (a.Num? && b.Num? && a.value == b.value)
  }

  /** `cmp_nan_greater` with two NaNs equal: a total order on keys. */
  function KeyCmp(a: F32, b: F32): (r: Ordering)
    ensures r == Less <==> KeyLess(a, b)
    ensures r == Greater <==> KeyLess(b, a)
    ensures r == Equal <==> SameKey(a, b)
  {
    if a.NaN? && b.NaN? then Equal else CmpNanGreater(a, b)
  }

  /**
   * `topk_cmp`: by value (descending when `largest`), NaN the greatest
   * value, equal values ordered by the smaller index first. Two NaNs are
   * equal values here (see TopKCmpAsWritten).
   */
  function TopKCmp<T>(a: Scored<T>, b: Scored<T>, largest: bool): Ordering
  {
    match KeyCmp(a.key, b.key)
    case Equal => CmpNat(a.index, b.index)
    case Less => if largest then Greater else Less
    case Greater => if largest then Less else Greater
  }

  /** `topk_cmp` as the source writes it, on `cmp_nan_greater`, which never answers Equal for two NaNs. */
  function TopKCmpAsWritten<T>(a: Scored<T>, b: Scored<T>, largest: bool): Ordering
  {
    match CmpNanGreater(a.key, b.key)
    case Equal => CmpNat(a.index, b.index)
    case Less => if largest then Greater else Less
    case Greater => if largest then Less else Greater
  }

  /** `a` comes before `b` in TopK's output. */
  predicate Before<T>(a: Scored<T>, b: Scored<T>, largest: bool)
  {
    TopKCmp(a, b, largest) == Less
  }

  /**
   * What comes first: the greater value when `largest`, the smaller one
   * otherwise, NaN counting as the greatest; among equal values the smaller
   * index.
   */
  lemma BeforeMeaning<T>(a: Scored<T>, b: Scored<T>, largest: bool)
    ensures Before(a, b, largest) <==>
      (if largest then KeyLess(b.key, a.key) else KeyLess(a.key, b.key)) ||
      (SameKey(a.key, b.key) && a.index < b.index)
  {
  }

  /** The comparator is antisymmetric and says Equal only for the same value at the same index. */
  lemma TopKCmpAntisymmetric<T>(a: Scored<T>, b: Scored<T>, largest: bool)
    ensures TopKCmp(a, b, largest) == Reverse(TopKCmp(b, a, largest))
    ensures TopKCmp(a, b, largest) == Equal <==> SameKey(a.key, b.key) && a.index == b.index
  {
  }

  /** Elements at different indices are always ordered one way or the other. */
  lemma BeforeTotal<T>(a: Scored<T>, b: Scored<T>, largest: bool)
    requires a.index != b.index
    ensures Before(a, b, largest) || Before(b, a, largest)
  {
    TopKCmpAntisymmetric(a, b, largest);
  }

  /** The comparator is transitive. */
  lemma BeforeTransitive<T>(a: Scored<T>, b: Scored<T>, c: Scored<T>, largest: bool)
    requires Before(a, b, largest) && Before(b, c, largest)
    ensures Before(a, c, largest)
  {
    BeforeMeaning(a, b, largest);
    BeforeMeaning(b, c, largest);
    BeforeMeaning(a, c, largest);
  }

  /**
   * Two NaNs compare Less both ways under the comparator as written (with
   * `largest`), so it is not antisymmetric and is no total order; the
   * corrected comparator orders them by index.
   */
  lemma TopKCmpAsWrittenNaN()
    ensures var a := Scored(NaN, NaN, 0);
      var b := Scored(NaN, NaN, 1);
      TopKCmpAsWritten(a, b, true) == Less && TopKCmpAsWritten(b, a, true) == Less &&
      TopKCmp(a, b, true) == Less && TopKCmp(b, a, true) == Greater
  {
  }

  /** Away from a pair of NaNs the comparator as written and the corrected one agree. */
  lemma TopKCmpAsWrittenAgrees<T>(a: Scored<T>, b: Scored<T>, largest: bool)
    requires !(a.key.NaN? && b.key.NaN?)
    ensures TopKCmpAsWritten(a, b, largest) == TopKCmp(a, b, largest)
  {
  }

  // ---------------------------------------------------------------------
  // Sorting one lane

  /** Every element comes before every later one. */
  predicate SortedBy<T>(s: seq<Scored<T>>, largest: bool)
  {
    forall i, j :: 0 <= i < j < |s| ==> Before(s[i], s[j], largest)
  }

  /** No two elements share an index. */
  predicate DistinctIndices<T>(s: seq<Scored<T>>)
  {
    forall i, j :: 0 <= i < j < |s| ==> s[i].index != s[j].index
  }

  /** The lane's elements with their positions. */
  function Entries<T>(lane: seq<T>, key: T -> F32): (r: seq<Scored<T>>)
    ensures |r| == |lane| && DistinctIndices(r)
    ensures forall i :: 0 <= i < |lane| ==> r[i] == Scored(lane[i], key(lane[i]), i)
  {
    seq(|lane|, i requires 0 <= i < |lane| => Scored(lane[i], key(lane[i]), i))
  }

  /** `e` inserted into sorted `s` before the first element it comes before. */
  function Insert<T(==)>(e: Scored<T>, s: seq<Scored<T>>, largest: bool): (r: seq<Scored<T>>)
    ensures multiset(r) == multiset(s) + multiset{e}
  {
    if |s| == 0 then [e]
    else if Before(s[0], e, largest) then
      assert s == [s[0]] + s[1..];
      [s[0]] + Insert(e, s[1..], largest)
    else [e] + s
  }

  lemma {:induction false} InsertSorted<T>(e: Scored<T>, s: seq<Scored<T>>, largest: bool)
    requires SortedBy(s, largest) && forall i :: 0 <= i < |s| ==> s[i].index != e.index
    ensures SortedBy(Insert(e, s, largest), largest)
  {
    if |s| > 0 {
      if Before(s[0], e, largest) {
        var rest := Insert(e, s[1..], largest);
        InsertSorted(e, s[1..], largest);
        HeadBeforeRest(e, s, rest, largest);
        ConsSorted(s[0], rest, largest);
      } else {
        BeforeTotal(s[0], e, largest);
        forall j | 0 <= j < |s|
          ensures Before(e, s[j], largest)
        {
          if j > 0 {
            BeforeTransitive(e, s[0], s[j], largest);
          }
        }
        ConsSorted(e, s, largest);
      }
    }
  }

  /** The head of sorted `s`, if it comes before `e`, comes before everything `e` inserted into the tail holds. */
  lemma HeadBeforeRest<T>(e: Scored<T>, s: seq<Scored<T>>, rest: seq<Scored<T>>, largest: bool)
    requires SortedBy(s, largest) && |s| > 0 && Before(s[0], e, largest)
    requires multiset(rest) == multiset(s[1..]) + multiset{e}
    ensures forall j :: 0 <= j < |rest| ==> Before(s[0], rest[j], largest)
  {
    forall j | 0 <= j < |rest|
      ensures Before(s[0], rest[j], largest)
    {
      assert rest[j] in multiset(rest);
      if rest[j] != e {
        assert rest[j] in multiset(s[1..]);
        var q :| 0 <= q < |s[1..]| && s[1..][q] == rest[j];
        assert s[q + 1] == rest[j];
      }
    }
  }

  /** An element that comes before every element of a sorted sequence can lead it. */
  lemma ConsSorted<T>(x: Scored<T>, s: seq<Scored<T>>, largest: bool)
    requires SortedBy(s, largest) && forall j :: 0 <= j < |s| ==> Before(x, s[j], largest)
    ensures SortedBy([x] + s, largest)
  {
    var r := [x] + s;
    forall i, j | 0 <= i < j < |r|
      ensures Before(r[i], r[j], largest)
    {
      if i > 0 {
        assert r[i] == s[i - 1] && r[j] == s[j - 1];
      } else {
        assert r[j] == s[j - 1];
      }
    }
  }

  /** The lane sorted by the comparator (`sort_unstable_by`). */
  function Sort<T(==)>(s: seq<Scored<T>>, largest: bool): (r: seq<Scored<T>>)
    ensures multiset(r) == multiset(s)
  {
    if |s| == 0 then []
    else
      assert s == [s[0]] + s[1..];
      Insert(s[0], Sort(s[1..], largest), largest)
  }

  lemma {:induction false} SortSorted<T>(s: seq<Scored<T>>, largest: bool)
    requires DistinctIndices(s)
    ensures SortedBy(Sort(s, largest), largest)
  {
    if |s| > 0 {
      var rest := Sort(s[1..], largest);
      SortSorted(s[1..], largest);
      forall i | 0 <= i < |rest|
        ensures rest[i].index != s[0].index
      {
        assert rest[i] in multiset(s[1..]);
        var q :| 0 <= q < |s[1..]| && s[1..][q] == rest[i];
        assert s[q + 1] == rest[i];
      }
      InsertSorted(s[0], rest, largest);
    }
  }

  /**
   * The first `k` of the lane in comparator order: what `topk` leaves in
   * `tmp` after `select_nth_unstable_by(k - 1)`, `truncate(k)` and sorting.
   */
  function TopKOf<T(==)>(lane: seq<T>, key: T -> F32, k: nat, largest: bool): (r: seq<Scored<T>>)
    requires k <= |lane|
    ensures |r| == k
  {
    Sort(Entries(lane, key), largest)[..k]
  }

  /** Whether some element of `s` is at lane position `m`. */
  predicate HasIndex<T>(s: seq<Scored<T>>, m: nat)
  {
    exists i :: 0 <= i < |s| && s[i].index == m
  }

  /** Sorting the lane's entries keeps each one the lane's element at its index. */
  lemma SortedEntries<T>(lane: seq<T>, key: T -> F32, largest: bool)
    ensures var s := Sort(Entries(lane, key), largest);
      |s| == |lane| && forall i :: 0 <= i < |s| ==> s[i].index < |lane| && s[i] == Entries(lane, key)[s[i].index]
  {
    var e := Entries(lane, key);
    var s := Sort(e, largest);
    assert |s| == |multiset(s)| == |multiset(e)| == |e|;
    forall i | 0 <= i < |s|
      ensures s[i].index < |lane| && s[i] == e[s[i].index]
    {
      assert s[i] in multiset(e);
      var q :| 0 <= q < |e| && e[q] == s[i];
    }
  }

  /** In a sorted sequence whose indices determine its elements, no index repeats. */
  lemma SortedDistinct<T>(s: seq<Scored<T>>, largest: bool)
    requires SortedBy(s, largest)
    requires forall i, j :: 0 <= i < |s| && 0 <= j < |s| && s[i].index == s[j].index ==> s[i] == s[j]
    ensures DistinctIndices(s)
  {
    forall i, j | 0 <= i < j < |s|
      ensures s[i].index != s[j].index
    {
      TopKCmpAntisymmetric(s[i], s[j], largest);
    }
  }

  /** Every element of the first `k` of a sorted permutation of `e` comes before every element of `e` left out. */
  lemma PrefixBeforeRest<T>(e: seq<Scored<T>>, s: seq<Scored<T>>, k: nat, largest: bool)
    requires SortedBy(s, largest) && multiset(s) == multiset(e) && k <= |s|
    ensures forall i, m :: 0 <= i < k && 0 <= m < |e| && !HasIndex(s[..k], e[m].index) ==> Before(s[i], e[m], largest)
  {
    forall i, m | 0 <= i < k && 0 <= m < |e| && !HasIndex(s[..k], e[m].index)
      ensures Before(s[i], e[m], largest)
    {
      assert e[m] in multiset(s);
      var q :| 0 <= q < |s| && s[q] == e[m];
      assert forall j :: 0 <= j < k ==> s[..k][j].index == s[j].index;
    }
  }

  /**
   * TopK's selection: `k` distinct lane elements, each the lane's element at
   * its index, in comparator order, and each coming before every lane
   * element left out.
   */
  lemma TopKSelects<T>(lane: seq<T>, key: T -> F32, k: nat, largest: bool)
    requires k <= |lane|
    ensures var r := TopKOf(lane, key, k, largest);
      SortedBy(r, largest) && DistinctIndices(r) &&
      (forall i :: 0 <= i < k ==> r[i].index < |lane| && r[i] == Entries(lane, key)[r[i].index]) &&
      (forall i, m :: 0 <= i < k && 0 <= m < |lane| && !HasIndex(r, m) ==> Before(r[i], Entries(lane, key)[m], largest))
  {
    TopKSortedFromLane(lane, key, k, largest);
    TopKBeatsRest(lane, key, k, largest);
  }

  /** The top `k` are sorted, have distinct positions, and are entries of the lane. */
  lemma TopKSortedFromLane<T>(lane: seq<T>, key: T -> F32, k: nat, largest: bool)
    requires k <= |lane|
    ensures var r := TopKOf(lane, key, k, largest);
      SortedBy(r, largest) && DistinctIndices(r) &&
      (forall i :: 0 <= i < k ==> r[i].index < |lane| && r[i] == Entries(lane, key)[r[i].index])
  {
    var e := Entries(lane, key);
    var s := Sort(e, largest);
    assert SortedBy(s, largest) by { SortSorted(e, largest); }
    assert |s| == |lane| && forall i :: 0 <= i < |s| ==> s[i].index < |lane| && s[i] == e[s[i].index] by {
      SortedEntries(lane, key, largest);
    }
    PrefixSortedDistinct(e, s, k, largest);
  }

  /** A prefix of a sorted run of entries of `e` is sorted, has distinct positions, and holds entries of `e`. */
  lemma PrefixSortedDistinct<T>(e: seq<Scored<T>>, s: seq<Scored<T>>, k: nat, largest: bool)
    requires SortedBy(s, largest) && k <= |s| == |e|
    requires forall i :: 0 <= i < |s| ==> s[i].index < |e| && s[i] == e[s[i].index]
    ensures SortedBy(s[..k], largest) && DistinctIndices(s[..k])
    ensures forall i :: 0 <= i < k ==> s[..k][i].index < |e| && s[..k][i] == e[s[..k][i].index]
  {
    var r := s[..k];
    assert SortedBy(r, largest);
    assert forall i :: 0 <= i < k ==> r[i].index < |e| && r[i] == e[r[i].index];
    SortedDistinct(r, largest);
  }

  /** Every one of the top `k` comes before every lane entry left out of them. */
  lemma TopKBeatsRest<T>(lane: seq<T>, key: T -> F32, k: nat, largest: bool)
    requires k <= |lane|
    ensures var r := TopKOf(lane, key, k, largest);
      forall i, m :: 0 <= i < k && 0 <= m < |lane| && !HasIndex(r, m) ==> Before(r[i], Entries(lane, key)[m], largest)
  {
    var e := Entries(lane, key);
    var s := Sort(e, largest);
    SortSorted(e, largest);
    assert |s| == |multiset(s)| == |multiset(e)| == |e|;
    PrefixBeforeRest(e, s, k, largest);
    assert forall m :: 0 <= m < |lane| ==> e[m].index == m;
  }

  /** With `largest`, a lane holding a NaN puts a NaN first. */
  lemma LargestPutsNaNFirst<T>(lane: seq<T>, key: T -> F32, k: nat, m: nat)
    requires 0 < k <= |lane| && m < |lane| && key(lane[m]).NaN?
    ensures TopKOf(lane, key, k, true)[0].key.NaN?
  {
    var r := TopKOf(lane, key, k, true);
    var e := Entries(lane, key);
    TopKSelects(lane, key, k, true);
    if HasIndex(r, m) {
      var i :| 0 <= i < k && r[i].index == m;
      if i > 0 {
        BeforeMeaning(r[0], r[i], true);
      }
    } else {
      BeforeMeaning(r[0], e[m], true);
    }
  }

  // ---------------------------------------------------------------------
  // TopK over a tensor

  /** The lane along `d` that index `idx` lies in. */
  function LaneNumber(shape: seq<nat>, d: nat, idx: seq<nat>): (l: nat)
    requires d < |shape| && InBounds(shape, idx)
    ensures l < LaneCount(shape, d)
    ensures LaneIndex(shape, d, l, idx[d]) == idx
  {
    LaneOf(shape, d, idx);
    Offset(OuterShape(shape, d), idx[d := 0])
  }

  /** The output shape: the input's, with `k` along `d`. */
  function OutShape(shape: seq<nat>, d: nat, k: nat): (r: seq<nat>)
    requires d < |shape|
    ensures |r| == |shape| && r[d] == k
    ensures OuterShape(r, d) == OuterShape(shape, d) && LaneCount(r, d) == LaneCount(shape, d)
  {
    assert OuterShape(shape[d := k], d) == OuterShape(shape, d);
    shape[d := k]
  }

  /** The selected element at output index `idx`: entry `idx[d]` of its lane's selection. */
  function TopAt<T(==)>(values: Tensor<T>, key: T -> F32, d: nat, k: nat, largest: bool, idx: seq<nat>)
    : Option<Scored<T>>
    requires values.WellFormed() && d < |values.shape|
  {
    var outShape := OutShape(values.shape, d, k);
    if k <= values.shape[d] && InBounds(outShape, idx) then
      Some(TopKOf(Lane(values, d, LaneNumber(outShape, d, idx)), key, k, largest)[idx[d]])
    else None
  }

  /** The output value at `idx` (`zero` outside the output). */
  function ValueAt<T(==)>(values: Tensor<T>, key: T -> F32, zero: T, d: nat, k: nat, largest: bool, idx: seq<nat>): T
    requires values.WellFormed() && d < |values.shape|
  {
    match TopAt(values, key, d, k, largest, idx)
    case Some(e) => e.value
    case None => zero
  }

  /** The output index at `idx`, cast to `i32` (`0` outside the output). */
  function IndexAt<T(==)>(values: Tensor<T>, key: T -> F32, d: nat, k: nat, largest: bool, idx: seq<nat>): I32
    requires values.WellFormed() && d < |values.shape|
  {
    match TopAt(values, key, d, k, largest, idx)
    case Some(e) => WrapI32(e.index)
    case None => 0
  }

  /** The axis TopK works on: the given one, or the last. */
  function TopKAxis(axis: Option<int>): int
  {
    match axis
    case Some(a) => a
    case None => -1
  }

  /**
   * `topk` as a value: the values and the indices of every lane's
   * selection, laid out along `d`. `k == 0` gives empty outputs before the
   * size of the axis is checked.
   */
  function TopKSpec<T(==)>(values: Tensor<T>, key: T -> F32, zero: T, k: nat, axis: Option<int>, largest: bool)
    : (r: Result<(Tensor<T>, Tensor<I32>), OpError>)
    requires values.WellFormed()
    ensures var d := ResolveAxis(|values.shape|, TopKAxis(axis));
      r.Err? <==> d.Err? || (k > 0 && k > values.shape[d.value])
    ensures ResolveAxis(|values.shape|, TopKAxis(axis)).Err? ==> r == Err(InvalidValue("Axis is invalid"))
    ensures r.Err? && ResolveAxis(|values.shape|, TopKAxis(axis)).Ok? ==> r == Err(InvalidValue("k > dimension size"))
    ensures r.Ok? ==> var d := ResolveAxis(|values.shape|, TopKAxis(axis)).value;
      r.value.0.shape == r.value.1.shape == values.shape[d := k] && r.value.0.WellFormed() && r.value.1.WellFormed()
  {
    var d :- ResolveAxis(|values.shape|, TopKAxis(axis));
    var outShape := OutShape(values.shape, d, k);
    if k == 0 then
      Ok((Tensor(outShape, Tabulate(outShape, _ => zero)), Tensor(outShape, Tabulate(outShape, _ => 0))))
    else if k > values.shape[d] then Err(InvalidValue("k > dimension size"))
    else
      Ok((Tensor(outShape, Tabulate(outShape, idx => ValueAt(values, key, zero, d, k, largest, idx))),
          Tensor(outShape, Tabulate(outShape, idx => IndexAt(values, key, d, k, largest, idx)))))
  }

  /**
   * Along `d`, output lane `l` holds lane `l`'s selection: its values and,
   * cast to `i32`, their indices.
   */
  lemma TopKLanes<T>(values: Tensor<T>, key: T -> F32, zero: T, k: nat, d: nat, largest: bool, l: nat, j: nat)
    requires values.WellFormed() && d < |values.shape| && 0 < k <= values.shape[d]
    requires l < LaneCount(values.shape, d) && j < k
    ensures var outShape := values.shape[d := k];
      var r := TopKSpec(values, key, zero, k, Some(d), largest);
      var p := Offset(outShape, LaneIndex(outShape, d, l, j));
      var top := TopKOf(Lane(values, d, l), key, k, largest);
      r.Ok? && p < |r.value.0.data| &&
      r.value.0.data[p] == top[j].value && r.value.1.data[p] == WrapI32(top[j].index)
  {
    var outShape := OutShape(values.shape, d, k);
    var idx := LaneIndex(outShape, d, l, j);
    PositionOf(outShape, d, l, j);
    AtLaneIndex(values, key, zero, d, k, largest, l, j);
    TabulateAt(outShape, idx => ValueAt(values, key, zero, d, k, largest, idx), idx);
    TabulateAt(outShape, idx => IndexAt(values, key, d, k, largest, idx), idx);
  }

  /** Element `j` of lane `l` sits at a position whose index is in lane `l` at coordinate `j`, and nowhere else. */
  lemma PositionOf(shape: seq<nat>, d: nat, l: nat, j: nat)
    requires d < |shape| && l < LaneCount(shape, d) && j < shape[d]
    ensures var idx := LaneIndex(shape, d, l, j);
      Offset(shape, idx) < Product(shape) && Unravel(shape, Offset(shape, idx)) == idx &&
      LaneNumber(shape, d, idx) == l && idx[d] == j
  {
    UnravelOffset(shape, LaneIndex(shape, d, l, j));
    LaneOfLaneIndex(shape, d, l, j);
  }

  lemma LaneOfLaneIndex(shape: seq<nat>, d: nat, l: nat, j: nat)
    requires d < |shape| && l < LaneCount(shape, d) && j < shape[d]
    ensures LaneNumber(shape, d, LaneIndex(shape, d, l, j)) == l
  {
    var outer := Unravel(OuterShape(shape, d), l);
    assert LaneIndex(shape, d, l, j)[d := 0] == outer;
  }

  /** The only position in lane `l` at coordinate `j`. */
  lemma SamePosition(shape: seq<nat>, d: nat, q: nat, l: nat, j: nat)
    requires d < |shape| && q < Product(shape)
    requires LaneNumber(shape, d, Unravel(shape, q)) == l && Unravel(shape, q)[d] == j
    ensures l < LaneCount(shape, d) && j < shape[d]
    ensures q == Offset(shape, LaneIndex(shape, d, l, j))
  {
  }

  /** The output at the index of element `j` of lane `l` is entry `j` of lane `l`'s selection. */
  lemma AtLaneIndex<T>(values: Tensor<T>, key: T -> F32, zero: T, d: nat, k: nat, largest: bool, l: nat, j: nat)
    requires values.WellFormed() && d < |values.shape| && k <= values.shape[d]
    requires l < LaneCount(values.shape, d) && j < k
    ensures var idx := LaneIndex(OutShape(values.shape, d, k), d, l, j);
      var top := TopKOf(Lane(values, d, l), key, k, largest);
      ValueAt(values, key, zero, d, k, largest, idx) == top[j].value &&
      IndexAt(values, key, d, k, largest, idx) == WrapI32(top[j].index)
  {
    PositionOf(OutShape(values.shape, d, k), d, l, j);
  }

  // ---------------------------------------------------------------------
  // The imperative topk

  /** Output position `p` lies in a lane before `l`, or in lane `l` before coordinate `j`. */
  predicate Done(shape: seq<nat>, d: nat, p: nat, l: nat, j: nat)
    requires d < |shape| && p < Product(shape)
  {
    var idx := Unravel(shape, p);
    LaneNumber(shape, d, idx) < l || (LaneNumber(shape, d, idx) == l && idx[d] < j)
  }

  /** The outputs hold their final values at every position already written. */
  predicate Filled<T(==)>(vals: seq<T>, idxs: seq<I32>, values: Tensor<T>, key: T -> F32, zero: T,
                          d: nat, k: nat, largest: bool, l: nat, j: nat)
    requires values.WellFormed() && d < |values.shape|
    requires |vals| == |idxs| == Product(values.shape[d := k])
  {
    forall p :: 0 <= p < |vals| && Done(values.shape[d := k], d, p, l, j) ==>
      vals[p] == ValueAt(values, key, zero, d, k, largest, Unravel(values.shape[d := k], p)) &&
      idxs[p] == IndexAt(values, key, d, k, largest, Unravel(values.shape[d := k], p))
  }

  /** Writing element `j` of lane `l` extends what is filled by one position. */
  lemma WriteStep<T>(vals: seq<T>, idxs: seq<I32>, values: Tensor<T>, key: T -> F32, zero: T,
                         d: nat, k: nat, largest: bool, l: nat, j: nat)
    requires values.WellFormed() && d < |values.shape| && k <= values.shape[d]
    requires |vals| == |idxs| == Product(values.shape[d := k])
    requires l < LaneCount(values.shape, d) && j < k
    requires Filled(vals, idxs, values, key, zero, d, k, largest, l, j)
    ensures var outShape := OutShape(values.shape, d, k);
      var p := Offset(outShape, LaneIndex(outShape, d, l, j));
      var top := TopKOf(Lane(values, d, l), key, k, largest);
      p < |vals| &&
      Filled(vals[p := top[j].value], idxs[p := WrapI32(top[j].index)], values, key, zero, d, k, largest, l, j + 1)
  {
    var outShape := OutShape(values.shape, d, k);
    PositionOf(outShape, d, l, j);
    var p := Offset(outShape, LaneIndex(outShape, d, l, j));
    var top := TopKOf(Lane(values, d, l), key, k, largest);
    var vals', idxs' := vals[p := top[j].value], idxs[p := WrapI32(top[j].index)];
    forall q | 0 <= q < |vals| && Done(outShape, d, q, l, j + 1)
      ensures vals'[q] == ValueAt(values, key, zero, d, k, largest, Unravel(outShape, q))
      ensures idxs'[q] == IndexAt(values, key, d, k, largest, Unravel(outShape, q))
    {
      WrittenAt(vals, idxs, values, key, zero, d, k, largest, l, j, q);
    }
  }

  /** One position of the outputs after writing element `j` of lane `l`. */
  lemma WrittenAt<T>(vals: seq<T>, idxs: seq<I32>, values: Tensor<T>, key: T -> F32, zero: T,
                     d: nat, k: nat, largest: bool, l: nat, j: nat, q: nat)
    requires values.WellFormed() && d < |values.shape| && k <= values.shape[d]
    requires |vals| == |idxs| == Product(values.shape[d := k])
    requires l < LaneCount(values.shape, d) && j < k
    requires Filled(vals, idxs, values, key, zero, d, k, largest, l, j)
    requires q < |vals| && Done(values.shape[d := k], d, q, l, j + 1)
    ensures var outShape := OutShape(values.shape, d, k);
      var p := Offset(outShape, LaneIndex(outShape, d, l, j));
      var top := TopKOf(Lane(values, d, l), key, k, largest);
      p < |vals| &&
      vals[p := top[j].value][q] == ValueAt(values, key, zero, d, k, largest, Unravel(outShape, q)) &&
      idxs[p := WrapI32(top[j].index)][q] == IndexAt(values, key, d, k, largest, Unravel(outShape, q))
  {
    var outShape := OutShape(values.shape, d, k);
    PositionOf(outShape, d, l, j);
    var qi := Unravel(outShape, q);
    if LaneNumber(outShape, d, qi) == l && qi[d] == j {
      SamePosition(outShape, d, q, l, j);
      AtLaneIndex(values, key, zero, d, k, largest, l, j);
    } else {
      assert Done(outShape, d, q, l, j);
    }
  }

  /** A lane is complete once all `k` of its positions are written. */
  lemma NextLane<T>(vals: seq<T>, idxs: seq<I32>, values: Tensor<T>, key: T -> F32, zero: T,
                        d: nat, k: nat, largest: bool, l: nat)
    requires values.WellFormed() && d < |values.shape|
    requires |vals| == |idxs| == Product(values.shape[d := k])
    requires Filled(vals, idxs, values, key, zero, d, k, largest, l, k)
    ensures Filled(vals, idxs, values, key, zero, d, k, largest, l + 1, 0)
  {
  }

  /** With every lane written, the outputs are the specified ones. */
  lemma AllFilled<T>(vals: seq<T>, idxs: seq<I32>, values: Tensor<T>, key: T -> F32, zero: T,
                         d: nat, k: nat, largest: bool)
    requires values.WellFormed() && d < |values.shape|
    requires |vals| == |idxs| == Product(values.shape[d := k])
    requires Filled(vals, idxs, values, key, zero, d, k, largest, LaneCount(values.shape, d), 0)
    ensures vals == Tabulate(values.shape[d := k], idx => ValueAt(values, key, zero, d, k, largest, idx))
    ensures idxs == Tabulate(values.shape[d := k], idx => IndexAt(values, key, d, k, largest, idx))
  {
    var outShape := OutShape(values.shape, d, k);
    forall p | 0 <= p < |vals|
      ensures Done(outShape, d, p, LaneCount(values.shape, d), 0)
    {
    }
  }

  /**
   * The lane loop of `topk`: for every lane, the selection in `tmp`, then
   * its values and indices written through the lane of each output.
   */
  method FillLanes<T(==)>(values: Tensor<T>, key: T -> F32, zero: T, d: nat, k: nat, largest: bool,
                          outValues: array<T>, indices: array<I32>)
    requires values.WellFormed() && d < |values.shape| && k <= values.shape[d]
    requires outValues.Length == indices.Length == Product(values.shape[d := k])
    requires outValues != indices
    modifies outValues, indices
    ensures outValues[..] == Tabulate(values.shape[d := k], idx => ValueAt(values, key, zero, d, k, largest, idx))
    ensures indices[..] == Tabulate(values.shape[d := k], idx => IndexAt(values, key, d, k, largest, idx))
  {
    var count := LaneCount(values.shape, d);
    var l := 0;
    while l < count
      invariant l <= count
      invariant Filled(outValues[..], indices[..], values, key, zero, d, k, largest, l, 0)
    {
      FillLane(values, key, zero, d, k, largest, l, outValues, indices);
      l := l + 1;
    }
    AllFilled(outValues[..], indices[..], values, key, zero, d, k, largest);
  }

  /** One lane: `tmp` holds the lane's selection, copied into the output lanes element by element. */
  method FillLane<T(==)>(values: Tensor<T>, key: T -> F32, zero: T, d: nat, k: nat, largest: bool, l: nat,
                         outValues: array<T>, indices: array<I32>)
    requires values.WellFormed() && d < |values.shape| && k <= values.shape[d] && l < LaneCount(values.shape, d)
    requires outValues.Length == indices.Length == Product(values.shape[d := k])
    requires outValues != indices
    requires Filled(outValues[..], indices[..], values, key, zero, d, k, largest, l, 0)
    modifies outValues, indices
    ensures Filled(outValues[..], indices[..], values, key, zero, d, k, largest, l + 1, 0)
  {
    var outShape := OutShape(values.shape, d, k);
    var tmp := TopKOf(Lane(values, d, l), key, k, largest);
    var j := 0;
    while j < k
      invariant j <= k
      invariant Filled(outValues[..], indices[..], values, key, zero, d, k, largest, l, j)
    {
      var p := Offset(outShape, LaneIndex(outShape, d, l, j));
      WriteStep(outValues[..], indices[..], values, key, zero, d, k, largest, l, j);
      ghost var before, beforeIdx := outValues[..], indices[..];
      outValues[p] := tmp[j].value;
      indices[p] := WrapI32(tmp[j].index);
      assert outValues[..] == before[p := tmp[j].value];
      assert indices[..] == beforeIdx[p := WrapI32(tmp[j].index)];
      j := j + 1;
    }
    NextLane(outValues[..], indices[..], values, key, zero, d, k, largest, l);
  }

  /** `topk`: zeroed outputs of the output shape, then the lane loop. */
  method TopK<T(==)>(values: Tensor<T>, key: T -> F32, zero: T, k: nat, axis: Option<int>, largest: bool)
    returns (r: Result<(Tensor<T>, Tensor<I32>), OpError>)
    requires values.WellFormed()
    ensures r == TopKSpec(values, key, zero, k, axis, largest)
  {
    var resolved := ResolveAxis(|values.shape|, TopKAxis(axis));
    if resolved.Err? {
      return Err(resolved.error);
    }
    var d := resolved.value;
    var outShape := OutShape(values.shape, d, k);
    var outValues := new T[Product(outShape)](_ => zero);
    var indices := new I32[Product(outShape)](_ => 0);
    if k == 0 {
      assert outValues[..] == Tabulate(outShape, _ => zero);
      assert indices[..] == Tabulate(outShape, _ => 0);
      return Ok((Tensor(outShape, outValues[..]), Tensor(outShape, indices[..])));
    }
    if k > values.shape[d] {
      return Err(InvalidValue("k > dimension size"));
    }
    FillLanes(values, key, zero, d, k, largest, outValues, indices);
    return Ok((Tensor(outShape, outValues[..]), Tensor(outShape, indices[..])));
  }

  // ---------------------------------------------------------------------
  // The operator

  /** Floats are compared as themselves. */
  function FloatKey(x: F32): F32
  {
    x
  }

  /** `k` from input 1: an `i32` scalar that must not be negative. */
  function KInput(inputs: seq<Input>): (r: Result<nat, OpError>)
    ensures GetInputAsInt(inputs, 1).Err? ==> r == Err(GetInputAsInt(inputs, 1).error)
    ensures GetInputAsInt(inputs, 1).Ok? ==>
      (r.Ok? <==> |inputs[1].i.data| == 1 && inputs[1].i.data[0] >= 0) &&
      (r.Ok? ==> r.value == inputs[1].i.data[0]) &&
      (|inputs[1].i.data| == 1 && inputs[1].i.data[0] < 0 ==> r == Err(InvalidValue("k must be positive")))
  {
    var kTensor :- GetInputAsInt(inputs, 1);
    var k :- ExtractScalar(kTensor);
    if k < 0 then Err(InvalidValue("k must be positive")) else Ok(k as nat)
  }

  /**
   * TopK::run: the values in input 0 (either kind), then `k`; the outputs
   * are the selected values, of the input's kind, and their indices.
   */
  function TopKRunSpec(axis: Option<int>, largest: bool, inputs: seq<Input>): (r: Result<seq<Output>, OpError>)
    requires WellFormedInputs(inputs)
    ensures |inputs| == 0 ==> r == Err(MissingInputs)
    ensures |inputs| > 0 && KInput(inputs).Err? ==> r == Err(KInput(inputs).error)
    ensures r.Ok? ==>
      (|inputs| > 0 && KInput(inputs).Ok? && |r.value| == 2 && r.value[1].IntTensor? &&
       (r.value[0].FloatTensor? <==> inputs[0].FloatTensor?))
    ensures r.Ok? && inputs[0].FloatTensor? ==>
      (KInput(inputs).Ok? &&
       TopKSpec(inputs[0].f, FloatKey, Num(0.0), KInput(inputs).value, axis, largest) == Ok((r.value[0].f, r.value[1].i)))
    ensures r.Ok? && inputs[0].IntTensor? ==>
      (KInput(inputs).Ok? &&
       TopKSpec(inputs[0].i, IntKey, 0, KInput(inputs).value, axis, largest) == Ok((r.value[0].i, r.value[1].i)))
  {
    if |inputs| == 0 then Err(MissingInputs)
    else
      var k :- KInput(inputs);
      assert InputWellFormed(inputs[0]);
      match inputs[0]
      case FloatTensor(t) =>
        var out :- TopKSpec(t, FloatKey, Num(0.0), k, axis, largest);
        Ok([Output.FloatTensor(out.0), Output.IntTensor(out.1)])
      case IntTensor(t) =>
        var out :- TopKSpec(t, IntKey, 0, k, axis, largest);
        Ok([Output.IntTensor(out.0), Output.IntTensor(out.1)])
  }

  /** TopK::run through the imperative `topk`. */
  method TopKRun(axis: Option<int>, largest: bool, inputs: seq<Input>) returns (r: Result<seq<Output>, OpError>)
    requires WellFormedInputs(inputs)
    ensures r == TopKRunSpec(axis, largest, inputs)
  {
    if |inputs| == 0 {
      return Err(MissingInputs);
    }
    var k :- KInput(inputs);
    assert InputWellFormed(inputs[0]);
    match inputs[0]
    case FloatTensor(t) =>
      var out :- TopK(t, FloatKey, Num(0.0), k, axis, largest);
      r := Ok([Output.FloatTensor(out.0), Output.IntTensor(out.1)]);
    case IntTensor(t) =>
      var out :- TopK(t, IntKey, 0, k, axis, largest);
      r := Ok([Output.IntTensor(out.0), Output.IntTensor(out.1)]);
  }

  // ---------------------------------------------------------------------
  // Examples

  lemma SortNaNThenNumber<T>(e1: Scored<T>, e2: Scored<T>)
    requires e1.key.NaN? && e2.key.Num?
    ensures Sort([e1, e2], true) == [e1, e2]
  {
    assert [e1, e2][1..] == [e2] && [e2][1..] == [];
    assert Sort([e2], true) == [e2];
    BeforeMeaning(e2, e1, true);
  }

  lemma SortThree<T>(e0: Scored<T>, e1: Scored<T>, e2: Scored<T>)
    requires e0.key.Num? && e1.key.NaN? && e2.key.Num? && e0.key.value < e2.key.value
    ensures Sort([e0, e1, e2], true) == [e1, e2, e0]
  {
    assert [e0, e1, e2][1..] == [e1, e2];
    SortNaNThenNumber(e1, e2);
    BeforeMeaning(e1, e0, true);
    BeforeMeaning(e2, e0, true);
    assert [e1, e2][1..] == [e2] && [e2][1..] == [];
    assert Insert(e0, [e2], true) == [e2, e0];
  }

  /** The two largest of `[a, NaN, c]` with `a < c` are the NaN and then `c`. */
  lemma TopTwoWithNaNAt(lane: seq<F32>)
    requires |lane| == 3 && lane[0].Num? && lane[1].NaN? && lane[2].Num? && lane[0].value < lane[2].value
    ensures TopKOf(lane, FloatKey, 2, true) == [Scored(lane[1], lane[1], 1), Scored(lane[2], lane[2], 2)]
  {
    var e0, e1, e2 := Scored(lane[0], lane[0], 0), Scored(lane[1], lane[1], 1), Scored(lane[2], lane[2], 2);
    assert Entries(lane, FloatKey) == [e0, e1, e2];
    SortThree(e0, e1, e2);
  }

  /** The two largest of `[0, NaN, 2]` are NaN (index 1) and 2 (index 2). */
  lemma TopTwoWithNaN()
    ensures TopKOf([Num(0.0), NaN, Num(2.0)], FloatKey, 2, true) == [Scored(NaN, NaN, 1), Scored(Num(2.0), Num(2.0), 2)]
  {
    TopTwoWithNaNAt([Num(0.0), NaN, Num(2.0)]);
  }
}
