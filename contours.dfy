/**
 * `find_contours` and `find_nonzero_neighbor` of `src/geometry.rs`: the
 * border following of Suzuki and Abe ("Topological structural analysis of
 * digitized binary images by border following", 1985, Appendix 1) over a
 * copy of the mask with a ring of zeros around it, relabelling the copy in
 * place as borders are followed.
 *
 * Borders are followed by a loop that stops only when it is back at its
 * starting pixel; the source gives no bound on its length, so here each
 * border may take at most `maxSteps` steps and a longer one ends the search
 * with `Err(StepLimit)`.
 */
module Contours {
  import opened Wrappers
  import opened Geometry
  import opened Drawing
  import opened PolygonsBuffer
  import opened NeighborRing
  import opened RectBorders

  /** Which contours `find_contours` reports: only the outermost ones, or all of them. */
  datatype RetrievalMode = External | List

  /** A border that did not close within the step budget. */
  datatype Stop = StepLimit

  // ---------------------------------------------------------------------------
  // Neighbour search
  // ---------------------------------------------------------------------------

  /** The value of the cell at `p`, for a `p` in the grid. */
  function At(mask: array2<int>, p: Point): int
    reads mask
  {
    if InImage(p, mask.Length0, mask.Length1) then mask[p.y, p.x] else 0
  }

  /** `p` is not on the outer ring of the grid. */
  predicate Inner(p: Point, h: int, w: int)
  {
    1 <= p.y < h - 1 && 1 <= p.x < w - 1
  }

  /** All eight neighbours of a pixel off the outer ring are cells of the grid. */
  lemma InnerNeighbors(p: Point, h: int, w: int)
    requires Inner(p, h, w)
    ensures forall i :: 0 <= i < 8 ==> InImage(p.Neighbors()[i], h, w)
  {
  }

  /** All eight neighbours of `center` are zero. */
  predicate Isolated(mask: array2<int>, center: Point)
    reads mask
  {
    forall i :: 0 <= i < 8 ==> At(mask, center.Neighbors()[i]) == 0
  }

  /** The position of `v` in `s`: its first occurrence. */
  function IndexOf(s: seq<Point>, v: Point): (i: nat)
    requires v in s
    ensures i < |s| && s[i] == v
    ensures forall j :: 0 <= j < i ==> s[j] != v
  {
    IndexFrom(s, v, 0)
  }

  /** The first position of `v` in `s` at or after `k`, where `v` is not before `k`. */
  function IndexFrom(s: seq<Point>, v: Point, k: nat): (i: nat)
    requires v in s && k <= |s| && forall j :: 0 <= j < k ==> s[j] != v
    ensures k <= i < |s| && s[i] == v
    ensures forall j :: 0 <= j < i ==> s[j] != v
    decreases |s| - k
  {
    if s[k] == v then k else IndexFrom(s, v, k + 1)
  }

  /** Where `find_nonzero_neighbor` starts looking: at `start`, or one further on when skipping it. */
  function ScanStart(center: Point, start: Point, dir: Direction, skipFirst: bool): (r: nat)
    requires start in center.Neighbors()
    ensures r < 8
  {
    var index := IndexOf(center.Neighbors(), start);
    if skipFirst then NextNeighbor(index, dir) else index
  }

  /** The first `k` neighbours met going round from index `s` are all zero. */
  predicate ZeroSoFar(mask: array2<int>, center: Point, s: nat, dir: Direction, k: nat)
    reads mask
    requires s < 8 && k <= 8
  {
    forall j: nat :: j < k ==> At(mask, center.Neighbors()[Around(s, j, dir)]) == 0
  }

  /**
   * `find_nonzero_neighbor`: the first non-zero neighbour of `center`,
   * going round in direction `dir` from `start` (or from the one after it),
   * or `None` when all eight neighbours are zero.
   */
  method FindNonzeroNeighbor(mask: array2<int>, center: Point, start: Point, dir: Direction, skipFirst: bool) returns (r: Option<Point>)
    requires Inner(center, mask.Length0, mask.Length1)
    requires start in center.Neighbors()
    ensures r.None? <==> Isolated(mask, center)
    ensures r.Some? ==> r.value in center.Neighbors() && At(mask, r.value) != 0
    ensures r.Some? ==> exists k: nat :: k < 8 && r.value == center.Neighbors()[Around(ScanStart(center, start, dir, skipFirst), k, dir)]
                                     && ZeroSoFar(mask, center, ScanStart(center, start, dir, skipFirst), dir, k)
  {
    var neighbors := center.Neighbors();
    InnerNeighbors(center, mask.Length0, mask.Length1);
    var startIdx := IndexOf(neighbors, start);
    if skipFirst {
      startIdx := NextNeighbor(startIdx, dir);
    }
    AroundRing(startIdx, dir);
    var idx := startIdx;
    ghost var k: nat := 0;
    while true
      invariant k < 8 && idx == Around(startIdx, k, dir)
      invariant ZeroSoFar(mask, center, startIdx, dir, k)
      decreases 8 - k
    {
      if mask[neighbors[idx].y, neighbors[idx].x] != 0 {
        assert startIdx == ScanStart(center, start, dir, skipFirst);
        return Some(neighbors[idx]);
      }
      idx := NextNeighbor(idx, dir);
      k := k + 1;
      if idx == startIdx {
        AroundReturns(startIdx, k, dir);
        break;
      }
    }
    forall i | 0 <= i < 8
      ensures At(mask, neighbors[i]) == 0
    {
      assert Around(startIdx, StepsTo(startIdx, i, dir), dir) == i;
    }
    return None;
  }

  // ---------------------------------------------------------------------------
  // The padded mask
  // ---------------------------------------------------------------------------

  /** `clamp(0, 1)`: negative values become 0 and values above 1 become 1. */
  function Clamp01(v: int): (r: int)
    ensures r == 0 || r == 1
    ensures r == 1 <==> v > 0
  {
    Geometry.Clamp(v, 0, 1)
  }

  /** Cell `(y, x)` of the padded copy of `input`: a ring of zeros around the clamped values. */
  function Padded(input: array2<int>, y: int, x: int): (v: int)
    reads input
    ensures v == 0 || v == 1
  {
    if 1 <= y <= input.Length0 && 1 <= x <= input.Length1 then Clamp01(input[y - 1, x - 1]) else 0
  }

  /** `p` is a pixel of `input` with a positive value, one that belongs to an object. */
  predicate Positive(input: array2<int>, p: Point)
    reads input
  {
    InImage(p, input.Length0, input.Length1) && input[p.y, p.x] > 0
  }

  /** A non-zero cell of the padded copy is a positive pixel, one row and column further on. */
  lemma PaddedNonzero(input: array2<int>, y: int, x: int)
    ensures Padded(input, y, x) != 0 <==> Positive(input, Point(y - 1, x - 1))
  {
  }

  /** `mask` is a padded copy of `input`: one more row and column of zeros on each side. */
  predicate Framed(mask: array2<int>, input: array2<int>)
  {
    mask.Length0 == input.Length0 + 2 && mask.Length1 == input.Length1 + 2
  }

  /** The zero cells of `mask` are those of the padded copy: relabelling only changes non-zero cells. */
  predicate ZerosKept(mask: array2<int>, input: array2<int>)
    reads mask, input
    requires Framed(mask, input)
  {
    forall y, x :: 0 <= y < mask.Length0 && 0 <= x < mask.Length1 ==> (mask[y, x] == 0 <==> Padded(input, y, x) == 0)
  }

  /** `mask` is still the padded copy of `input`, cell for cell. */
  predicate Untouched(mask: array2<int>, input: array2<int>)
    reads mask, input
    requires Framed(mask, input)
  {
    forall y, x :: 0 <= y < mask.Length0 && 0 <= x < mask.Length1 ==> mask[y, x] == Padded(input, y, x)
  }

  /** A non-zero cell of a relabelled mask is off the outer ring. */
  lemma NonzeroIsInner(mask: array2<int>, input: array2<int>, p: Point)
    requires Framed(mask, input) && ZerosKept(mask, input)
    requires InImage(p, mask.Length0, mask.Length1) && mask[p.y, p.x] != 0
    ensures Inner(p, mask.Length0, mask.Length1)
    ensures Positive(input, Point(p.y - 1, p.x - 1))
  {
    PaddedNonzero(input, p.y, p.x);
  }

  /**
   * The copy `find_contours` works on: the input's values clamped into
   * `{0, 1}`, with one row and column of zeros added on each side.
   */
  method PadMask(input: array2<int>) returns (mask: array2<int>)
    ensures fresh(mask) && Framed(mask, input) && Untouched(mask, input)
  {
    mask := new int[input.Length0 + 2, input.Length1 + 2]((y, x) => 0);
    for y := 0 to input.Length0
      invariant forall y', x' :: 0 <= y' < mask.Length0 && 0 <= x' < mask.Length1 ==>
        mask[y', x'] == if 1 <= y' <= y then Padded(input, y', x') else 0
    {
      for x := 0 to input.Length1
        invariant forall y', x' :: 0 <= y' < mask.Length0 && 0 <= x' < mask.Length1 ==>
          mask[y', x'] == if 1 <= y' <= y || (y' == y + 1 && 1 <= x' <= x) then Padded(input, y', x') else 0
      {
        mask[y + 1, x + 1] := Clamp01(input[y, x]);
      }
    }
  }

  // ---------------------------------------------------------------------------
  // Border following
  // ---------------------------------------------------------------------------

  /** Every point of `border` is a non-zero cell of the padded copy. */
  predicate OnObject(border: seq<Point>, input: array2<int>)
    reads input
  {
    forall k :: 0 <= k < |border| ==> Padded(input, border[k].y, border[k].x) != 0
  }

  /** In a relabelled mask, a cell is non-zero exactly where the padded copy is. */
  lemma KeptNonzero(mask: array2<int>, input: array2<int>, p: Point)
    requires Framed(mask, input) && ZerosKept(mask, input) && InImage(p, mask.Length0, mask.Length1)
    ensures At(mask, p) != 0 <==> Padded(input, p.y, p.x) != 0
  {
  }

  /** Writes the non-zero label `v` over the non-zero cell `p`; the zero cells stay as they are. */
  method Relabel(mask: array2<int>, input: array2<int>, p: Point, v: int)
    requires mask != input && Framed(mask, input) && ZerosKept(mask, input)
    requires InImage(p, mask.Length0, mask.Length1) && mask[p.y, p.x] != 0 && v != 0
    modifies mask
    ensures ZerosKept(mask, input)
    ensures forall y, x :: 0 <= y < mask.Length0 && 0 <= x < mask.Length1 ==>
      mask[y, x] == if y == p.y && x == p.x then v else old(mask[y, x])
  {
    mask[p.y, p.x] := v;
  }

  // ---------------------------------------------------------------------------
  // A filled rectangle
  // ---------------------------------------------------------------------------

  /**
   * The positive pixels of `input` are exactly those of `rect`, a rectangle
   * at least two pixels high and wide lying within the image.
   */
  predicate FilledRect(input: array2<int>, rect: Rect)
    reads input
  {
    Solid(rect) && 0 <= rect.Top() && rect.Bottom() <= input.Length0 && 0 <= rect.Left() && rect.Right() <= input.Length1 &&
    forall y, x {:trigger input[y, x]} :: 0 <= y < input.Length0 && 0 <= x < input.Length1 ==> (input[y, x] > 0 <==> rect.ContainsPoint(Point(y, x)))
  }

  /** `rect` in the coordinates of the padded copy. */
  function PaddedRect(rect: Rect): Rect
  {
    rect.AdjustTlbr(1, 1, 1, 1)
  }

  /** The non-zero cells of the padded copy are exactly those of `box`. */
  ghost predicate PaddedBox(input: array2<int>, box: Rect)
    reads input
  {
    forall y, x {:trigger Padded(input, y, x)} :: Padded(input, y, x) != 0 <==> box.ContainsPoint(Point(y, x))
  }

  lemma FilledPadded(input: array2<int>, rect: Rect)
    requires FilledRect(input, rect)
    ensures Solid(PaddedRect(rect)) && BorderLength(PaddedRect(rect)) == BorderLength(rect)
    ensures PaddedBox(input, PaddedRect(rect))
  {
  }

  /** Only one rectangle fills the positive pixels of an image. */
  lemma FilledRectUnique(input: array2<int>, a: Rect, b: Rect)
    requires FilledRect(input, a) && FilledRect(input, b)
    ensures a == b
  {
    assert input[a.Top(), a.Left()] > 0 && input[b.Top(), b.Left()] > 0;
    assert input[a.Bottom() - 1, a.Right() - 1] > 0 && input[b.Bottom() - 1, b.Right() - 1] > 0;
  }

  /** Each neighbour is found at its own index. */
  lemma IndexOfNeighbor(c: Point, j: nat)
    requires j < 8
    ensures IndexOf(c.Neighbors(), c.Neighbors()[j]) == j
  {
    NeighborsAreAdjacent(c);
  }

  /** A cell outside `box` is zero in a relabelled mask. */
  lemma OutsideZero(mask: array2<int>, input: array2<int>, box: Rect, q: Point)
    requires Framed(mask, input) && ZerosKept(mask, input) && PaddedBox(input, box) && !box.ContainsPoint(q)
    ensures At(mask, q) == 0
  {
    if InImage(q, mask.Length0, mask.Length1) {
      KeptNonzero(mask, input, q);
    }
  }

  /** A cell inside `box` is non-zero in a relabelled mask. */
  lemma InsideNonzero(mask: array2<int>, input: array2<int>, box: Rect, q: Point)
    requires Framed(mask, input) && ZerosKept(mask, input) && PaddedBox(input, box) && box.ContainsPoint(q)
    ensures At(mask, q) != 0
  {
    assert Padded(input, q.y, q.x) != 0;
    KeptNonzero(mask, input, q);
  }

  /**
   * A neighbour search around `center` from index `s` that passes `t`
   * zero neighbours and then a non-zero one finds that one.
   */
  lemma SearchLands(mask: array2<int>, center: Point, s: nat, dir: Direction, t: nat, found: Option<Point>)
    requires Inner(center, mask.Length0, mask.Length1) && s < 8 && t < 8
    requires ZeroSoFar(mask, center, s, dir, t) && At(mask, center.Neighbors()[Around(s, t, dir)]) != 0
    requires found.None? <==> Isolated(mask, center)
    requires found.Some? ==> At(mask, found.value) != 0
    requires found.Some? ==> exists k: nat :: k < 8 && found.value == center.Neighbors()[Around(s, k, dir)] && ZeroSoFar(mask, center, s, dir, k)
    ensures found == Some(center.Neighbors()[Around(s, t, dir)])
  {
    var k: nat :| k < 8 && found.value == center.Neighbors()[Around(s, k, dir)] && ZeroSoFar(mask, center, s, dir, k);
  }

  /** The opening search at the top-left corner of a filled `box` finds the last point of its walk. */
  lemma FirstStep(mask: array2<int>, input: array2<int>, box: Rect, start: Point, startNeighbor: Point, found: Option<Point>)
    requires Framed(mask, input) && ZerosKept(mask, input) && Solid(box) && PaddedBox(input, box)
    requires start == box.topLeft && startNeighbor == start.Translate(0, -1)
    requires Inner(start, mask.Length0, mask.Length1) && startNeighbor in start.Neighbors()
    requires found.None? <==> Isolated(mask, start)
    requires found.Some? ==> At(mask, found.value) != 0
    requires found.Some? ==> exists k: nat :: k < 8 && found.value == start.Neighbors()[Around(ScanStart(start, startNeighbor, Clockwise, false), k, Clockwise)]
                                          && ZeroSoFar(mask, start, ScanStart(start, startNeighbor, Clockwise, false), Clockwise, k)
    ensures found == Some(BorderAt(box, BorderLength(box) - 1))
  {
    StartAround(box);
    IndexOfNeighbor(start, 6);
    var s := ScanStart(start, startNeighbor, Clockwise, false);
    assert s == 6;
    forall j: nat | j < 4
      ensures At(mask, start.Neighbors()[Around(s, j, Clockwise)]) == 0
    {
      OutsideZero(mask, input, box, start.Neighbors()[Around(s, j, Clockwise)]);
    }
    BorderIndexAt(box, BorderLength(box) - 1);
    InsideNonzero(mask, input, box, start.Neighbors()[Around(s, 4, Clockwise)]);
    SearchLands(mask, start, s, Clockwise, 4, found);
  }

  /** Each search along the walk round a filled `box` finds the next point of the walk. */
  lemma NextStep(mask: array2<int>, input: array2<int>, box: Rect, i: nat, current: Point, prev: Point, next: Option<Point>)
    requires Framed(mask, input) && ZerosKept(mask, input) && PaddedBox(input, box) && OnWalk(box, i, current, prev)
    requires Inner(current, mask.Length0, mask.Length1) && prev in current.Neighbors()
    requires next.None? <==> Isolated(mask, current)
    requires next.Some? ==> At(mask, next.value) != 0
    requires next.Some? ==> exists k: nat :: k < 8 && next.value == current.Neighbors()[Around(ScanStart(current, prev, CounterClockwise, true), k, CounterClockwise)]
                                         && ZeroSoFar(mask, current, ScanStart(current, prev, CounterClockwise, true), CounterClockwise, k)
    ensures next.Some? && WalkOn(box, i, next.value)
  {
    StepAround(box, i);
    IndexOfNeighbor(current, Came(box, i));
    var s := ScanStart(current, prev, CounterClockwise, true);
    assert s == NextNeighbor(Came(box, i), CounterClockwise);
    var t := Turns(box, i);
    forall j: nat | j < t
      ensures At(mask, current.Neighbors()[Around(s, j, CounterClockwise)]) == 0
    {
      OutsideZero(mask, input, box, current.Neighbors()[Around(s, j, CounterClockwise)]);
    }
    BorderIndexAt(box, Next(box, i));
    InsideNonzero(mask, input, box, current.Neighbors()[Around(s, t, CounterClockwise)]);
    SearchLands(mask, current, s, CounterClockwise, t, next);
  }

  /** The walk round the padded rectangle, moved back into the input's coordinates, is the walk round `rect`. */
  lemma UnpaddedBorder(rect: Rect, walked: seq<Point>, moved: seq<Point>)
    requires Solid(rect) && Solid(PaddedRect(rect)) && walked == Walked(PaddedRect(rect), BorderLength(PaddedRect(rect)))
    requires |moved| == |walked| && forall j :: 0 <= j < |walked| ==> moved[j] == walked[j].Translate(-1, -1)
    ensures moved == RectBorder(rect)
  {
    forall j | 0 <= j < |moved|
      ensures moved[j] == RectBorder(rect)[j]
    {
      WalkedAt(PaddedRect(rect), |walked|, j);
      ShiftedBorderAt(rect, j);
      BorderAtIsRectBorder(rect, j);
    }
  }

  lemma ShiftedBorderAt(rect: Rect, j: nat)
    requires Solid(rect) && j < BorderLength(rect)
    ensures Solid(PaddedRect(rect)) && BorderAt(PaddedRect(rect), j).Translate(-1, -1) == BorderAt(rect, j)
  {
  }

  /** The border loop stands at point `i` of the walk round `box`, having come from the point before. */
  predicate OnWalk(box: Rect, i: nat, current: Point, prev: Point)
  {
    Solid(box) && i < BorderLength(box) && current == BorderAt(box, i) && prev == BorderAt(box, Prev(box, i))
  }

  /** `next` is the point after point `i` of the walk round `box`. */
  predicate WalkOn(box: Rect, i: nat, next: Point)
  {
    Solid(box) && i < BorderLength(box) && next == BorderAt(box, Next(box, i))
  }

  /** The first `i` points of the walk round `box`. */
  function Walked(box: Rect, i: nat): (r: seq<Point>)
    requires Solid(box) && i <= BorderLength(box)
    ensures |r| == i
  {
    if i == 0 then [] else Walked(box, i - 1) + [BorderAt(box, i - 1)]
  }

  lemma {:induction false} WalkedAt(box: Rect, i: nat, j: nat)
    requires Solid(box) && j < i <= BorderLength(box)
    ensures Walked(box, i)[j] == BorderAt(box, j)
    decreases i
  {
    if j < i - 1 {
      WalkedAt(box, i - 1, j);
    }
  }

  /**
   * The border loop goes on from point `i` to the next point of the walk,
   * unless it stands at the last point, about to return to the first; then
   * the whole walk is collected.
   */
  lemma WalkAdvance(box: Rect, walk: seq<Point>, i: nat, current: Point, prev: Point, border: seq<Point>,
                    start: Point, first: Point, next: Point)
    requires Solid(box) && walk == Walked(box, BorderLength(box))
    requires Tracing(walk, 0, start, first, []) && Tracing(walk, i, current, prev, border) && next == walk[Next(box, i)]
    ensures next == start && current == first <==> i + 1 == |walk|
    ensures i + 1 == |walk| ==> border + [current] == walk
    ensures i + 1 < |walk| ==> Tracing(walk, i + 1, next, current, border + [current])
  {
    if current == first {
      WalkedAt(box, |walk|, i);
      WalkedAt(box, |walk|, |walk| - 1);
      BorderAtInjective(box, i, BorderLength(box) - 1);
    }
  }

  /** The label border following gives pixel `p` of `box`: negative on the right-hand column, beside the background. */
  function Label(box: Rect, p: Point, num: int): int
  {
    if p.x == box.Right() - 1 then -num else num
  }

  /** Cell `(y, x)` once the first `i` points of the walk round `box` carry their labels. */
  function MaskAt(input: array2<int>, box: Rect, num: int, i: nat, y: int, x: int): int
    reads input
    requires Solid(box)
  {
    if OnBorder(box, Point(y, x)) && BorderIndex(box, Point(y, x)) < i then Label(box, Point(y, x), num) else Padded(input, y, x)
  }

  /** `mask` is the padded copy with the first `i` points of the walk round `box` labelled. */
  predicate RectMask(mask: array2<int>, input: array2<int>, box: Rect, num: int, i: nat)
    reads mask, input
    requires Solid(box)
  {
    forall y, x :: 0 <= y < mask.Length0 && 0 <= x < mask.Length1 ==> mask[y, x] == MaskAt(input, box, num, i, y, x)
  }

  /** Labelling point `i` of the walk changes only that cell. */
  lemma MaskAtNext(input: array2<int>, box: Rect, num: int, i: nat, y: int, x: int)
    requires Solid(box) && i < BorderLength(box)
    ensures MaskAt(input, box, num, i + 1, y, x)
      == if Point(y, x) == BorderAt(box, i) then Label(box, BorderAt(box, i), num) else MaskAt(input, box, num, i, y, x)
  {
    BorderIndexAt(box, i);
    if OnBorder(box, Point(y, x)) {
      BorderAtIndex(box, Point(y, x));
    }
  }

  /**
   * At point `i` of the walk round a filled `box`, the pixel to the right
   * is background exactly on the right-hand column, and the point itself
   * is still unlabelled.
   */
  lemma LabelAt(mask: array2<int>, input: array2<int>, box: Rect, num: int, i: nat, p: Point)
    requires Framed(mask, input) && Solid(box) && PaddedBox(input, box) && i < BorderLength(box) && num != 0
    requires RectMask(mask, input, box, num, i) && p == BorderAt(box, i)
    ensures 0 <= p.y < mask.Length0 && 0 <= p.x && p.x + 1 < mask.Length1
    ensures mask[p.y, p.x + 1] == 0 <==> p.x == box.Right() - 1
    ensures mask[p.y, p.x] == 1
  {
    BorderIndexAt(box, i);
    assert Padded(input, p.y, p.x) != 0;
    var q := Point(p.y, p.x + 1);
    if OnBorder(box, q) {
      BorderAtIndex(box, q);
    }
  }

  /**
   * Once the border of a filled rectangle is labelled with 2 and -2, no
   * pixel starts another border, in either mode.
   */
  lemma NoNewBorder(mask: array2<int>, input: array2<int>, rect: Rect, outerOnly: bool, lastNonzero: int, y: int, x: int)
    requires Framed(mask, input) && FilledRect(input, rect) && RectMask(mask, input, PaddedRect(rect), 2, BorderLength(rect))
    requires 1 <= y <= input.Length0 && 1 <= x <= input.Length1 && mask[y, x] != 0
    ensures BorderStart(outerOnly, lastNonzero, mask[y, x], mask[y, x - 1], mask[y, x + 1], Point(y, x)) == None
  {
    var box := PaddedRect(rect);
    FilledPadded(input, rect);
    if OnBorder(box, Point(y, x)) {
      BorderAtIndex(box, Point(y, x));
    }
    if OnBorder(box, Point(y, x - 1)) {
      BorderAtIndex(box, Point(y, x - 1));
    }
    if OnBorder(box, Point(y, x + 1)) {
      BorderAtIndex(box, Point(y, x + 1));
    }
  }

  /**
   * Where the scan stands on an input filled by `rect`: before the
   * top-left corner nothing is found; after it the one contour is the
   * rectangle's border, labelled with border number 2.
   */
  predicate RectScan(contours: seq<seq<Point>>, mask: array2<int>, input: array2<int>, rect: Rect, num: int, passed: bool)
    reads mask, input
    requires Solid(rect)
  {
    if passed then
      contours == [RectBorder(rect)] && num == 2 && Solid(PaddedRect(rect)) &&
      RectMask(mask, input, PaddedRect(rect), 2, BorderLength(rect))
    else contours == [] && num == 1
  }

  /**
   * The body of `find_contours` from the first neighbour search of a new
   * border to the end of the border loop: follow the border that starts at
   * `start`, labelling its pixels with `-borderNum` (where the pixel to the
   * right is background) or `borderNum` (where the pixel was still 1), and
   * collect the labelled pixels. A pixel with no non-zero neighbour is a
   * border of its own.
   */
  method FollowBorder(mask: array2<int>, input: array2<int>, start: Point, startNeighbor: Point, borderNum: int, maxSteps: nat,
                      ghost filled: bool, ghost box: Rect)
    returns (r: Result<seq<Point>, Stop>)
    requires mask != input && Framed(mask, input) && ZerosKept(mask, input)
    requires InImage(start, mask.Length0, mask.Length1) && mask[start.y, start.x] != 0
    requires startNeighbor in start.Neighbors()
    requires borderNum >= 2
    requires filled ==> Solid(box) && PaddedBox(input, box) && start == box.topLeft && startNeighbor == start.Translate(0, -1)
                        && Untouched(mask, input) && maxSteps >= BorderLength(box)
    modifies mask
    ensures ZerosKept(mask, input)
    ensures r.Ok? ==> OnObject(r.value, input)
    ensures old(Isolated(mask, start)) ==> r == Ok([start])
    ensures filled ==> r.Ok? && r.value == Walked(box, BorderLength(box)) && RectMask(mask, input, box, borderNum, BorderLength(box))
  {
    NonzeroIsInner(mask, input, start);
    var found := FindNonzeroNeighbor(mask, start, startNeighbor, Clockwise, false);
    ghost var walk := if filled then Walked(box, BorderLength(box)) else [];
    if filled {
      FirstStep(mask, input, box, start, startNeighbor, found);
      BorderIndexAt(box, 0);
      UntouchedMask(mask, input, box, borderNum);
      WalkedAt(box, |walk|, 0);
      WalkedAt(box, |walk|, |walk| - 1);
    }
    if found.None? {
      Relabel(mask, input, start, -borderNum);
      return Ok([start]);
    }
    var first := found.value;
    KeptNonzero(mask, input, first);
    NeighborsAreAdjacent(start);
    r := WalkBorder(mask, input, start, first, borderNum, maxSteps, filled, box, walk);
  }

  /**
   * The border loop of `find_contours`: from `start`, having come from
   * `first`, step from border pixel to border pixel until the walk is back
   * at `start` coming from `first`, or the step budget runs out.
   */
  method WalkBorder(mask: array2<int>, input: array2<int>, start: Point, first: Point, borderNum: int, maxSteps: nat,
                    ghost filled: bool, ghost box: Rect, ghost walk: seq<Point>)
    returns (r: Result<seq<Point>, Stop>)
    requires mask != input && Framed(mask, input) && ZerosKept(mask, input) && borderNum >= 2
    requires InImage(start, mask.Length0, mask.Length1) && Padded(input, start.y, start.x) != 0
    requires Adjacent(start, first) && InImage(first, mask.Length0, mask.Length1) && Padded(input, first.y, first.x) != 0
    requires filled ==> Solid(box) && WalkOf(input, box, walk) && maxSteps >= |walk| && Tracing(walk, 0, start, first, [])
                        && RectMask(mask, input, box, borderNum, 0)
    modifies mask
    ensures ZerosKept(mask, input)
    ensures r.Ok? ==> OnObject(r.value, input)
    ensures filled ==> r.Ok? && r.value == walk && RectMask(mask, input, box, borderNum, |walk|)
  {
    var current, prev := start, first;
    var border := [];
    var fuel: nat := maxSteps;
    ghost var i: nat := 0;
    while true
      invariant ZerosKept(mask, input)
      invariant InImage(current, mask.Length0, mask.Length1) && Padded(input, current.y, current.x) != 0
      invariant Adjacent(current, prev) && InImage(prev, mask.Length0, mask.Length1) && Padded(input, prev.y, prev.x) != 0
      invariant OnObject(border, input)
      invariant filled ==> fuel + i == maxSteps && Tracing(walk, i, current, prev, border) && RectMask(mask, input, box, borderNum, i)
      decreases fuel
    {
      if fuel == 0 {
        assert !filled;
        return Err(StepLimit);
      }
      fuel := fuel - 1;
      var next;
      next, border := BorderStep(mask, input, current, prev, borderNum, border, filled, box, walk, i, start, first);
      if next == start && current == first {
        break;
      }
      prev := current;
      current := next;
      i := i + 1;
    }
    return Ok(border);
  }

  /**
   * The border loop on `walk`, standing at its point `i` having come from
   * the point before it (from the last point, at the first): the points
   * before `i` are collected.
   */
  predicate Tracing(walk: seq<Point>, i: nat, current: Point, prev: Point, border: seq<Point>)
  {
    i < |walk| && current == walk[i] && prev == walk[if i == 0 then |walk| - 1 else i - 1] && border == walk[..i]
  }

  /** `walk` is the walk round `box`, in a padded copy filled by `box`. */
  ghost predicate WalkOf(input: array2<int>, box: Rect, walk: seq<Point>)
    reads input
  {
    Solid(box) && PaddedBox(input, box) && walk == Walked(box, BorderLength(box))
  }

  /**
   * One pass of the border loop: the search counter-clockwise round
   * `current` for the next border pixel, starting after `prev`, and the
   * labelling of `current`. On the walk round a filled `box` it finds the
   * next point of the walk and labels the present one.
   */
  method BorderStep(mask: array2<int>, input: array2<int>, current: Point, prev: Point, borderNum: int, border: seq<Point>,
                    ghost filled: bool, ghost box: Rect, ghost walk: seq<Point>, ghost i: nat, ghost start: Point, ghost first: Point)
    returns (next: Point, marked: seq<Point>)
    requires mask != input && Framed(mask, input) && ZerosKept(mask, input) && borderNum >= 2
    requires InImage(current, mask.Length0, mask.Length1) && Padded(input, current.y, current.x) != 0
    requires Adjacent(current, prev) && InImage(prev, mask.Length0, mask.Length1) && Padded(input, prev.y, prev.x) != 0
    requires filled ==> Solid(box) && WalkOf(input, box, walk) && Tracing(walk, 0, start, first, [])
                        && Tracing(walk, i, current, prev, border) && RectMask(mask, input, box, borderNum, i)
    modifies mask
    ensures ZerosKept(mask, input)
    ensures Adjacent(next, current)
    ensures InImage(next, mask.Length0, mask.Length1) && Padded(input, next.y, next.x) != 0
    ensures marked == border || marked == border + [current]
    ensures filled ==> (next == start && current == first <==> i + 1 == |walk|)
    ensures filled && next == start && current == first ==> marked == walk && RectMask(mask, input, box, borderNum, |walk|)
    ensures filled && !(next == start && current == first) ==>
              Tracing(walk, i + 1, next, current, marked) && RectMask(mask, input, box, borderNum, i + 1)
  {
    KeptNonzero(mask, input, current);
    KeptNonzero(mask, input, prev);
    NonzeroIsInner(mask, input, current);
    NeighborsAreAdjacent(current);
    var found := FindNonzeroNeighbor(mask, current, prev, CounterClockwise, true);
    assert found.Some? by {
      var idx := IndexOf(current.Neighbors(), prev);
    }
    InnerNeighbors(current, mask.Length0, mask.Length1);
    KeptNonzero(mask, input, found.value);
    if filled {
      WalkedAt(box, |walk|, i);
      WalkedAt(box, |walk|, Prev(box, i));
      NextStep(mask, input, box, i, current, prev, found);
      WalkedAt(box, |walk|, Next(box, i));
    }
    next := found.value;
    marked := MarkPixel(mask, input, current, borderNum, border, filled, box, i);
    if filled {
      WalkAdvance(box, walk, i, current, prev, border, start, first, next);
    }
  }

  /** The untouched padded copy of a filled `box` has no point of the walk labelled yet. */
  lemma UntouchedMask(mask: array2<int>, input: array2<int>, box: Rect, num: int)
    requires Framed(mask, input) && Untouched(mask, input) && Solid(box)
    ensures RectMask(mask, input, box, num, 0)
  {
  }

  /**
   * The labelling step of the border loop: `current` becomes `-borderNum`
   * when the pixel to its right is background and `borderNum` when it is
   * still 1, and a relabelled pixel joins the border. On the walk round a
   * filled `box`, every step labels its point.
   */
  method MarkPixel(mask: array2<int>, input: array2<int>, current: Point, borderNum: int, border: seq<Point>,
                   ghost filled: bool, ghost box: Rect, ghost i: nat)
    returns (marked: seq<Point>)
    requires mask != input && Framed(mask, input) && ZerosKept(mask, input) && borderNum >= 2
    requires Inner(current, mask.Length0, mask.Length1) && mask[current.y, current.x] != 0
    requires filled ==> Solid(box) && PaddedBox(input, box) && i < BorderLength(box) && current == BorderAt(box, i)
                        && RectMask(mask, input, box, borderNum, i)
    modifies mask
    ensures ZerosKept(mask, input)
    ensures marked == border || marked == border + [current]
    ensures filled ==> marked == border + [current] && RectMask(mask, input, box, borderNum, i + 1)
  {
    if filled {
      LabelAt(mask, input, box, borderNum, i, current);
    }
    marked := border;
    if mask[current.y, current.x + 1] == 0 {
      marked := border + [current];
      Relabel(mask, input, current, -borderNum);
    } else if mask[current.y, current.x] == 1 {
      marked := border + [current];
      Relabel(mask, input, current, borderNum);
    }
    if filled {
      forall y, x | 0 <= y < mask.Length0 && 0 <= x < mask.Length1
        ensures mask[y, x] == MaskAt(input, box, borderNum, i + 1, y, x)
      {
        MaskAtNext(input, box, borderNum, i, y, x);
      }
    }
  }

  /**
   * The loop that moves a finished border back into the input's
   * coordinates, one row and one column up from the padded copy's.
   */
  method Unpad(border: seq<Point>) returns (r: seq<Point>)
    ensures |r| == |border|
    ensures forall i :: 0 <= i < |border| ==> r[i] == border[i].Translate(-1, -1)
  {
    r := border;
    for i := 0 to |r|
      invariant |r| == |border|
      invariant forall j :: 0 <= j < |border| ==> r[j] == if j < i then border[j].Translate(-1, -1) else border[j]
    {
      r := r[i := r[i].Translate(-1, -1)];
    }
  }

  // ---------------------------------------------------------------------------
  // The scan
  // ---------------------------------------------------------------------------

  /** Every point of every contour is a positive pixel of the input. */
  predicate AllPositive(contours: seq<seq<Point>>, input: array2<int>)
    reads input
  {
    forall i, q :: 0 <= i < |contours| && q in contours[i] ==> Positive(input, q)
  }

  /** No pixel of the input is positive. */
  predicate NoPositive(input: array2<int>)
    reads input
  {
    forall y, x :: 0 <= y < input.Length0 && 0 <= x < input.Length1 ==> input[y, x] <= 0
  }

  /** No pixel before `(y, x)` in row-major order is positive. */
  predicate NoPositiveBefore(input: array2<int>, y: int, x: int)
    reads input
  {
    forall y', x' :: 0 <= y' < input.Length0 && 0 <= x' < input.Length1 && (y' < y || (y' == y && x' < x)) ==> input[y', x'] <= 0
  }

  /** `p` comes before `(y, x)` in row-major order. */
  predicate Before(p: Point, y: int, x: int)
  {
    p.y < y || (p.y == y && p.x < x)
  }

  /** `p` is the one positive pixel of the input. */
  predicate OnlyPositive(input: array2<int>, p: Point)
    reads input
  {
    Positive(input, p) && forall y, x :: 0 <= y < input.Length0 && 0 <= x < input.Length1 && input[y, x] > 0 ==> y == p.y && x == p.x
  }

  /** The borders found from a contour start are moved back into the input's coordinates. */
  lemma UnpadPositive(border: seq<Point>, moved: seq<Point>, input: array2<int>)
    requires OnObject(border, input)
    requires |moved| == |border| && forall i :: 0 <= i < |border| ==> moved[i] == border[i].Translate(-1, -1)
    ensures forall q :: q in moved ==> Positive(input, q)
  {
    forall q | q in moved
      ensures Positive(input, q)
    {
      var i :| 0 <= i < |moved| && moved[i] == q;
      PaddedNonzero(input, border[i].y, border[i].x);
    }
  }

  /** Around the only positive pixel, the relabelled mask is zero. */
  lemma SingleIsolated(mask: array2<int>, input: array2<int>, p: Point)
    requires Framed(mask, input) && ZerosKept(mask, input) && OnlyPositive(input, p)
    ensures Isolated(mask, p.Translate(1, 1))
  {
    var c := p.Translate(1, 1);
    forall i | 0 <= i < 8
      ensures At(mask, c.Neighbors()[i]) == 0
    {
      var q := c.Neighbors()[i];
      if InImage(q, mask.Length0, mask.Length1) {
        PaddedNonzero(input, q.y, q.x);
      }
    }
  }

  /**
   * The test for the start of an unvisited border at a non-zero pixel
   * `start` holding `current`, with `left` and `right` the values beside it:
   * the neighbour to start the search from, or `None`.
   */
  function BorderStart(outerOnly: bool, lastNonzero: int, current: int, left: int, right: int, start: Point): (r: Option<Point>)
    ensures r.Some? ==> r.value == start.Translate(0, -1) || r.value == start.Translate(0, 1)
  {
    if outerOnly then
      if lastNonzero <= 0 && left == 0 && current == 1 then Some(start.Translate(0, -1)) else None
    else if left == 0 && current == 1 then Some(start.Translate(0, -1))
    else if current >= 1 && right == 0 then Some(start.Translate(0, 1))
    else None
  }

  /** In either mode, a 1 with background to its left starts an outer border when no border has been passed on the row. */
  lemma OuterStart(outerOnly: bool, right: int, start: Point)
    ensures BorderStart(outerOnly, 0, 1, 0, right, start) == Some(start.Translate(0, -1))
  {
  }

  /**
   * Follows the border from `start`, moves it back into the input's
   * coordinates and pushes it onto `contours`.
   */
  method TraceBorder(mask: array2<int>, input: array2<int>, start: Point, startNeighbor: Point, contours: Polygons, borderNum: int, maxSteps: nat,
                     ghost filled: bool, ghost rect: Rect)
    returns (r: Result<(), Stop>)
    requires mask != input && Framed(mask, input) && ZerosKept(mask, input)
    requires InImage(start, mask.Length0, mask.Length1) && mask[start.y, start.x] != 0
    requires startNeighbor in start.Neighbors() && borderNum >= 2
    requires contours.Valid() && AllPositive(contours.Items(), input)
    requires filled ==> FilledRect(input, rect) && start == PaddedRect(rect).topLeft && startNeighbor == start.Translate(0, -1)
                        && Untouched(mask, input) && maxSteps >= BorderLength(rect)
    modifies mask, contours
    ensures r.Ok? ==> contours.Valid() && ZerosKept(mask, input) && AllPositive(contours.Items(), input)
    ensures r.Ok? ==> |contours.Items()| == |old(contours.Items())| + 1
    ensures old(Isolated(mask, start)) ==> r.Ok? && contours.Items() == old(contours.Items()) + [[start.Translate(-1, -1)]]
    ensures filled ==> r.Ok? && contours.Items() == old(contours.Items()) + [RectBorder(rect)] && Solid(PaddedRect(rect))
                       && RectMask(mask, input, PaddedRect(rect), borderNum, BorderLength(rect))
  {
    if filled {
      FilledPadded(input, rect);
    }
    var followed := FollowBorder(mask, input, start, startNeighbor, borderNum, maxSteps, filled, PaddedRect(rect));
    if followed.Err? {
      return Err(followed.error);
    }
    var border := Unpad(followed.value);
    UnpadPositive(followed.value, border, input);
    assert followed.value == [start] ==> border == [start.Translate(-1, -1)];
    if filled {
      UnpaddedBorder(rect, followed.value, border);
    }
    contours.Push(border);
    return Ok(());
  }

  /**
   * One pixel `(y, x)` of the padded copy in the scan of `find_contours`.
   * A non-zero pixel starts a new outer border when the pixel to its left
   * is 0 and it is still 1 (in `External` mode only outside every border
   * met so far on the row), and in `List` mode a hole border when the pixel
   * to its right is 0. A started border is followed and pushed onto
   * `contours`. Returns the new `last_nonzero_pixel` and border number.
   */
  method VisitPixel(mask: array2<int>, input: array2<int>, y: int, x: int, contours: Polygons, outerOnly: bool,
                    lastNonzero: int, borderNum: int, maxSteps: nat, ghost single: bool, ghost p: Point,
                    ghost filled: bool, ghost rect: Rect)
    returns (r: Result<(int, int), Stop>)
    requires mask != input && Framed(mask, input) && ZerosKept(mask, input)
    requires 1 <= y <= input.Length0 && 1 <= x <= input.Length1
    requires contours.Valid() && AllPositive(contours.Items(), input) && borderNum >= 1
    requires contours.Items() == [] ==> Untouched(mask, input) && NoPositiveBefore(input, y - 1, x - 1) && lastNonzero == 0
    requires single ==> OnlyPositive(input, p) && contours.Items() == if Before(p, y - 1, x - 1) then [[p]] else []
    requires NoPositive(input) ==> contours.Items() == []
    requires filled ==> FilledRect(input, rect) && maxSteps >= BorderLength(rect)
                        && RectScan(contours.Items(), mask, input, rect, borderNum, Before(rect.topLeft, y - 1, x - 1))
    modifies mask, contours
    ensures r.Ok? ==> contours.Valid() && ZerosKept(mask, input) && AllPositive(contours.Items(), input) && r.value.1 >= 1
    ensures r.Ok? && contours.Items() == [] ==> Untouched(mask, input) && NoPositiveBefore(input, y - 1, x) && r.value.0 == 0
    ensures single ==> r.Ok? && contours.Items() == if Before(p, y - 1, x) then [[p]] else []
    ensures NoPositive(input) ==> r.Ok? && contours.Items() == []
    ensures filled ==> r.Ok? && RectScan(contours.Items(), mask, input, rect, r.value.1, Before(rect.topLeft, y - 1, x))
  {
    var start := Point(y, x);
    var current := mask[y, x];
    PaddedNonzero(input, y, x);
    if filled {
      FilledPadded(input, rect);
    }
    if current == 0 {
      assert single ==> p != Point(y - 1, x - 1);
      assert filled ==> rect.topLeft != Point(y - 1, x - 1);
      return Ok((lastNonzero, borderNum));
    }
    ghost var first := contours.Items() == [];
    if first {
      PaddedNonzero(input, y, x - 1);
      OuterStart(outerOnly, mask[y, x + 1], start);
    }
    assert single ==> first && start == p.Translate(1, 1);
    ghost var corner := filled && !Before(rect.topLeft, y - 1, x - 1);
    assert corner ==> first && start == PaddedRect(rect).topLeft;
    if filled && !corner {
      NoNewBorder(mask, input, rect, outerOnly, lastNonzero, y, x);
    }
    var startNeighbor := BorderStart(outerOnly, lastNonzero, current, mask[y, x - 1], mask[y, x + 1], start);
    var num := borderNum;
    if startNeighbor.Some? {
      num := num + 1;
      if single {
        SingleIsolated(mask, input, p);
      }
      var traced := TraceBorder(mask, input, start, startNeighbor.value, contours, num, maxSteps, corner, rect);
      if traced.Err? {
        return Err(traced.error);
      }
    }
    return Ok((mask[y, x], num));
  }

  /** Row `y` of the padded copy in the scan of `find_contours`; returns the next border number. */
  method ScanRow(mask: array2<int>, input: array2<int>, y: int, contours: Polygons, outerOnly: bool,
                 borderNum: int, maxSteps: nat, ghost single: bool, ghost p: Point, ghost filled: bool, ghost rect: Rect)
    returns (r: Result<int, Stop>)
    requires mask != input && Framed(mask, input) && ZerosKept(mask, input)
    requires 1 <= y <= input.Length0
    requires contours.Valid() && AllPositive(contours.Items(), input) && borderNum >= 1
    requires contours.Items() == [] ==> Untouched(mask, input) && NoPositiveBefore(input, y - 1, 0)
    requires single ==> OnlyPositive(input, p) && contours.Items() == if Before(p, y - 1, 0) then [[p]] else []
    requires NoPositive(input) ==> contours.Items() == []
    requires filled ==> FilledRect(input, rect) && maxSteps >= BorderLength(rect)
                        && RectScan(contours.Items(), mask, input, rect, borderNum, Before(rect.topLeft, y - 1, 0))
    modifies mask, contours
    ensures r.Ok? ==> contours.Valid() && ZerosKept(mask, input) && AllPositive(contours.Items(), input) && r.value >= 1
    ensures r.Ok? && contours.Items() == [] ==> Untouched(mask, input) && NoPositiveBefore(input, y, 0)
    ensures single ==> r.Ok? && contours.Items() == if Before(p, y, 0) then [[p]] else []
    ensures NoPositive(input) ==> r.Ok? && contours.Items() == []
    ensures filled ==> r.Ok? && RectScan(contours.Items(), mask, input, rect, r.value, Before(rect.topLeft, y, 0))
  {
    var lastNonzero := 0;
    var num := borderNum;
    for x := 1 to mask.Length1 - 1
      invariant contours.Valid() && ZerosKept(mask, input) && AllPositive(contours.Items(), input) && num >= 1
      invariant contours.Items() == [] ==> Untouched(mask, input) && NoPositiveBefore(input, y - 1, x - 1) && lastNonzero == 0
      invariant single ==> contours.Items() == if Before(p, y - 1, x - 1) then [[p]] else []
      invariant NoPositive(input) ==> contours.Items() == []
      invariant filled ==> RectScan(contours.Items(), mask, input, rect, num, Before(rect.topLeft, y - 1, x - 1))
    {
      var visited := VisitPixel(mask, input, y, x, contours, outerOnly, lastNonzero, num, maxSteps, single, p, filled, rect);
      if visited.Err? {
        return Err(visited.error);
      }
      lastNonzero, num := visited.value.0, visited.value.1;
    }
    assert single ==> Before(p, y - 1, input.Length1) == Before(p, y, 0);
    assert filled ==> Before(rect.topLeft, y - 1, input.Length1) == Before(rect.topLeft, y, 0);
    return Ok(num);
  }

  /**
   * `find_contours`: scans the padded copy of `input` in row-major order,
   * following each border met and collecting the borders as polygons in
   * the input's coordinates.
   *
   * Every contour point is a positive pixel of the input; there are no
   * contours exactly when no pixel is positive (then the budget is never
   * used); a lone positive pixel is one contour of one point; and a filled
   * rectangle, given a budget of at least its border's length, is one
   * contour: its border, in the order the walk follows it.
   */
  method FindContours(input: array2<int>, mode: RetrievalMode, maxSteps: nat) returns (r: Result<Polygons, Stop>)
    ensures r.Ok? ==> fresh(r.value) && r.value.Valid()
    ensures r.Ok? ==> AllPositive(r.value.Items(), input)
    ensures r.Ok? ==> (r.value.Items() == [] <==> NoPositive(input))
    ensures NoPositive(input) ==> r.Ok?
    ensures forall p :: OnlyPositive(input, p) ==> r.Ok? && r.value.Items() == [[p]]
    ensures forall rect :: FilledRect(input, rect) && maxSteps >= BorderLength(rect) ==> r.Ok? && r.value.Items() == [RectBorder(rect)]
  {
    var mask := PadMask(input);
    var contours := new Polygons();
    var borderNum := 1;
    var outerOnly := mode == External;
    ghost var single := exists p :: OnlyPositive(input, p);
    ghost var p := if single then var q :| OnlyPositive(input, q); q else Point(0, 0);
    ghost var filled := exists rect :: FilledRect(input, rect) && maxSteps >= BorderLength(rect);
    ghost var rect := if filled then var q :| FilledRect(input, q) && maxSteps >= BorderLength(q); q else Rect(Point(0, 0), Point(0, 0));
    for y := 1 to mask.Length0 - 1
      invariant contours.Valid() && ZerosKept(mask, input) && AllPositive(contours.Items(), input) && borderNum >= 1
      invariant contours.Items() == [] ==> Untouched(mask, input) && NoPositiveBefore(input, y - 1, 0)
      invariant single ==> OnlyPositive(input, p) && contours.Items() == if Before(p, y - 1, 0) then [[p]] else []
      invariant NoPositive(input) ==> contours.Items() == []
      invariant filled ==> FilledRect(input, rect) && maxSteps >= BorderLength(rect)
                           && RectScan(contours.Items(), mask, input, rect, borderNum, Before(rect.topLeft, y - 1, 0))
    {
      var scanned := ScanRow(mask, input, y, contours, outerOnly, borderNum, maxSteps, single, p, filled, rect);
      if scanned.Err? {
        return Err(scanned.error);
      }
      borderNum := scanned.value;
    }
    forall other | FilledRect(input, other) && maxSteps >= BorderLength(other)
      ensures other == rect
    {
      FilledRectUnique(input, other, rect);
    }
    return Ok(contours);
  }
}
