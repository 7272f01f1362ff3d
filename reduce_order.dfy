/**
 * The orderings the reduction operators of `src/ops/reduce.rs` use: the
 * partial order of floats, the NaN-aware total orders built on it, and the
 * "best element" folds the standard library's `max_by`/`min_by` perform.
 * Integer elements are compared through their exact float image, which
 * preserves their order and is never NaN.
 */
module ReduceOrder {
  import opened Wrappers
  import opened Tensors

  datatype Ordering = Less | Equal | Greater

  function Reverse(o: Ordering): (r: Ordering)
    ensures (r == Less <==> o == Greater) && (r == Greater <==> o == Less)
  {
    match o
    case Less => Greater
    case Equal => Equal
    case Greater => Less
  }

  /** `partial_cmp`: NaN is unordered with everything, itself included. */
  function PartialCmp(a: F32, b: F32): (r: Option<Ordering>)
    ensures r.None? <==> a.NaN? || b.NaN?
    ensures r == Some(Less) <==> a.Num? && b.Num? && a.value < b.value
    ensures r == Some(Greater) <==> a.Num? && b.Num? && a.value > b.value
  {
    if a.NaN? || b.NaN? then None
    else if a.value < b.value then Some(Less)
    else if a.value == b.value then Some(Equal)
    else Some(Greater)
  }

  /** `is_nan`: the only value unordered with itself. */
  function IsNaN(a: F32): (r: bool)
    ensures r <==> a.NaN?
  {
    PartialCmp(a, a).None?
  }

  /** `cmp_nan_greater`: compare, with a NaN on the left above anything and a NaN on the right below it. */
  function CmpNanGreater(a: F32, b: F32): Ordering
  {
    match PartialCmp(a, b)
    case Some(o) => o
    case None => if IsNaN(a) then Greater else Less
  }

  /** `cmp_nan_less`: compare, with a NaN on the left below anything and a NaN on the right above it. */
  function CmpNanLess(a: F32, b: F32): Ordering
  {
    match PartialCmp(a, b)
    case Some(o) => o
    case None => if IsNaN(a) then Less else Greater
  }

  /** The comparison `arg_min` hands to `max_by`: the reversed order, NaN still winning. */
  function ArgMinCmp(a: F32, b: F32): Ordering
  {
    match PartialCmp(a, b)
    case Some(o) => Reverse(o)
    case None => CmpNanGreater(a, b)
  }

  /** The exact float image of an integer element. */
  function IntKey(x: I32): (r: F32)
    ensures r.Num? && r.value == x as real
  {
    Num(x as real)
  }

  lemma IntKeyOrder(x: I32, y: I32)
    ensures CmpNanGreater(IntKey(x), IntKey(y)) == (if x < y then Less else if x == y then Equal else Greater)
    ensures CmpNanLess(IntKey(x), IntKey(y)) == CmpNanGreater(IntKey(x), IntKey(y))
  {
  }

  // ---------------------------------------------------------------------------
  // max_by and min_by
  // ---------------------------------------------------------------------------

  /**
   * `max_by`: fold from the left, keeping the running best only when it
   * compares `Greater` than the next element, so that among equals the last
   * one wins.
   */
  function MaxByIndex(s: seq<F32>, cmp: (F32, F32) -> Ordering): (r: nat)
    requires |s| > 0
    ensures r < |s|
  {
    if |s| == 1 then 0
    else
      var b := MaxByIndex(s[..|s| - 1], cmp);
      if cmp(s[b], s[|s| - 1]) == Greater then b else |s| - 1
  }

  /** `min_by`: fold from the left, replacing the running best only when it compares `Greater`. */
  function MinByIndex(s: seq<F32>, cmp: (F32, F32) -> Ordering): (r: nat)
    requires |s| > 0
    ensures r < |s|
  {
    if |s| == 1 then 0
    else
      var b := MinByIndex(s[..|s| - 1], cmp);
      if cmp(s[b], s[|s| - 1]) == Greater then |s| - 1 else b
  }

  predicate HasNaN(s: seq<F32>)
  {
    exists j :: 0 <= j < |s| && s[j].NaN?
  }

  /** `r` is the position of the first NaN. */
  predicate FirstNaN(s: seq<F32>, r: nat)
  {
    r < |s| && s[r].NaN? && forall j :: 0 <= j < r ==> !s[j].NaN?
  }

  /** Without NaNs, `r` holds the largest value, and no later element equals it. */
  predicate LastMax(s: seq<F32>, r: nat)
    requires !HasNaN(s)
  {
    r < |s| && (forall j :: 0 <= j < |s| ==> s[j].value <= s[r].value) &&
    (forall j :: r < j < |s| ==> s[j].value < s[r].value)
  }

  /** Without NaNs, `r` holds the smallest value, and no later element equals it. */
  predicate LastMin(s: seq<F32>, r: nat)
    requires !HasNaN(s)
  {
    r < |s| && (forall j :: 0 <= j < |s| ==> s[r].value <= s[j].value) &&
    (forall j :: r < j < |s| ==> s[r].value < s[j].value)
  }

  /**
   * `arg_max`'s choice: the first NaN when there is one, otherwise the last
   * of the largest values.
   */
  lemma {:induction false} ArgMaxChoice(s: seq<F32>)
    requires |s| > 0
    ensures HasNaN(s) ==> FirstNaN(s, MaxByIndex(s, CmpNanGreater))
    ensures !HasNaN(s) ==> LastMax(s, MaxByIndex(s, CmpNanGreater))
  {
    var n := |s| - 1;
    if n > 0 {
      var p := s[..n];
      ArgMaxChoice(p);
      assert forall j :: 0 <= j < n ==> p[j] == s[j];
      if HasNaN(p) {
        assert HasNaN(s) by {
          var j :| 0 <= j < |p| && p[j].NaN?;
          assert s[j].NaN?;
        }
      } else if s[n].NaN? {
        assert HasNaN(s);
      } else {
        assert !HasNaN(s);
      }
    }
  }

  /**
   * `arg_min`'s choice: the first NaN when there is one, otherwise the last
   * of the smallest values.
   */
  lemma {:induction false} ArgMinChoice(s: seq<F32>)
    requires |s| > 0
    ensures HasNaN(s) ==> FirstNaN(s, MaxByIndex(s, ArgMinCmp))
    ensures !HasNaN(s) ==> LastMin(s, MaxByIndex(s, ArgMinCmp))
  {
    var n := |s| - 1;
    if n > 0 {
      var p := s[..n];
      ArgMinChoice(p);
      assert forall j :: 0 <= j < n ==> p[j] == s[j];
      if HasNaN(p) {
        assert HasNaN(s) by {
          var j :| 0 <= j < |p| && p[j].NaN?;
          assert s[j].NaN?;
        }
      } else if s[n].NaN? {
        assert HasNaN(s);
      } else {
        assert !HasNaN(s);
      }
    }
  }

  /** `reduce_max`'s value: NaN when there is one, otherwise the largest value. */
  lemma ReduceMaxValue(s: seq<F32>)
    requires |s| > 0
    ensures s[MaxByIndex(s, CmpNanGreater)].NaN? <==> HasNaN(s)
    ensures !HasNaN(s) ==> forall j :: 0 <= j < |s| ==> s[j].value <= s[MaxByIndex(s, CmpNanGreater)].value
    ensures !HasNaN(s) ==> exists j :: 0 <= j < |s| && s[j] == s[MaxByIndex(s, CmpNanGreater)]
  {
    ArgMaxChoice(s);
  }

  /** `reduce_min`'s choice: a NaN when there is one, otherwise a smallest value. */
  lemma {:induction false} MinByChoice(s: seq<F32>)
    requires |s| > 0
    ensures s[MinByIndex(s, CmpNanLess)].NaN? <==> HasNaN(s)
    ensures !HasNaN(s) ==> forall j :: 0 <= j < |s| ==> s[MinByIndex(s, CmpNanLess)].value <= s[j].value
  {
    var n := |s| - 1;
    if n > 0 {
      var p := s[..n];
      MinByChoice(p);
      assert forall j :: 0 <= j < n ==> p[j] == s[j];
      if HasNaN(p) {
        assert HasNaN(s) by {
          var j :| 0 <= j < |p| && p[j].NaN?;
          assert s[j].NaN?;
        }
      } else if s[n].NaN? {
        assert HasNaN(s);
      } else {
        assert !HasNaN(s);
      }
    }
  }

  // ---------------------------------------------------------------------------
  // The first of the best, as the ONNX operators choose by default
  // ---------------------------------------------------------------------------

  /** The fold that replaces the running best only by a strictly better element. */
  function FirstBestIndex(s: seq<F32>, cmp: (F32, F32) -> Ordering): (r: nat)
    requires |s| > 0
    ensures r < |s|
  {
    if |s| == 1 then 0
    else
      var b := FirstBestIndex(s[..|s| - 1], cmp);
      if cmp(s[b], s[|s| - 1]) == Less then |s| - 1 else b
  }

  /** Without NaNs, `r` holds the largest value, and no earlier element equals it. */
  predicate FirstMax(s: seq<F32>, r: nat)
    requires !HasNaN(s)
  {
    r < |s| && (forall j :: 0 <= j < |s| ==> s[j].value <= s[r].value) &&
    (forall j :: 0 <= j < r ==> s[j].value < s[r].value)
  }

  /** Without NaNs, `r` holds the smallest value, and no earlier element equals it. */
  predicate FirstMin(s: seq<F32>, r: nat)
    requires !HasNaN(s)
  {
    r < |s| && (forall j :: 0 <= j < |s| ==> s[r].value <= s[j].value) &&
    (forall j :: 0 <= j < r ==> s[r].value < s[j].value)
  }

  /** ONNX ArgMax without `select_last_index`: the first NaN, otherwise the first of the largest values. */
  lemma {:induction false} FirstArgMaxChoice(s: seq<F32>)
    requires |s| > 0
    ensures HasNaN(s) ==> FirstNaN(s, FirstBestIndex(s, CmpNanGreater))
    ensures !HasNaN(s) ==> FirstMax(s, FirstBestIndex(s, CmpNanGreater))
  {
    var n := |s| - 1;
    if n > 0 {
      var p := s[..n];
      FirstArgMaxChoice(p);
      assert forall j :: 0 <= j < n ==> p[j] == s[j];
      if HasNaN(p) {
        assert HasNaN(s) by {
          var j :| 0 <= j < |p| && p[j].NaN?;
          assert s[j].NaN?;
        }
      } else if s[n].NaN? {
        assert HasNaN(s);
      } else {
        assert !HasNaN(s);
      }
    }
  }

  /** ONNX ArgMin without `select_last_index`: the first NaN, otherwise the first of the smallest values. */
  lemma {:induction false} FirstArgMinChoice(s: seq<F32>)
    requires |s| > 0
    ensures HasNaN(s) ==> FirstNaN(s, FirstBestIndex(s, ArgMinCmp))
    ensures !HasNaN(s) ==> FirstMin(s, FirstBestIndex(s, ArgMinCmp))
  {
    var n := |s| - 1;
    if n > 0 {
      var p := s[..n];
      FirstArgMinChoice(p);
      assert forall j :: 0 <= j < n ==> p[j] == s[j];
      if HasNaN(p) {
        assert HasNaN(s) by {
          var j :| 0 <= j < |p| && p[j].NaN?;
          assert s[j].NaN?;
        }
      } else if s[n].NaN? {
        assert HasNaN(s);
      } else {
        assert !HasNaN(s);
      }
    }
  }

  /** On `[1, 1]` the `max_by` fold picks position 1 where ONNX ArgMax picks position 0. */
  lemma ArgMaxTieDiffers()
    ensures MaxByIndex([Num(1.0), Num(1.0)], CmpNanGreater) == 1
    ensures FirstBestIndex([Num(1.0), Num(1.0)], CmpNanGreater) == 0
  {
    var s := [Num(1.0), Num(1.0)];
    assert s[..1] == [Num(1.0)];
  }

  /** The two folds agree whenever the best value occurs once. */
  lemma {:induction false} MaxByAgreesWithoutTies(s: seq<F32>)
    requires |s| > 0 && !HasNaN(s)
    requires forall i, j :: 0 <= i < j < |s| ==> s[i] != s[j]
    ensures MaxByIndex(s, CmpNanGreater) == FirstBestIndex(s, CmpNanGreater)
  {
    ArgMaxChoice(s);
    FirstArgMaxChoice(s);
    var a := MaxByIndex(s, CmpNanGreater);
    var b := FirstBestIndex(s, CmpNanGreater);
    assert s[a].value == s[b].value;
  }
}
