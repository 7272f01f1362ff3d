/**
 * The drawing routines of `src/geometry.rs`, which write one value into the
 * cells of a 2-D grid: a filled rect, the outline of a rect, a line (by
 * Bresenham's algorithm, after clamping its end points into the image) and
 * the outline of a polygon.
 *
 * The grid is an `array2`, indexed `[y, x]`. Indexing outside it panics in
 * the source; `fill_rect` and `stroke_rect` demand in-bounds rects of their
 * callers. `draw_line` reports the panic of writing into an image without
 * rows or columns as an `Err`; its other panics (an image dimension above
 * `i32::MAX`, and the `i32` doubling of `dx` or `dy` overflowing) are not
 * modelled.
 */
module Drawing {
  import opened Wrappers
  import opened Geometry

  const MaxI32: int := 0x7fff_ffff

  datatype Panic = IndexOutOfBounds

  /** The cell `p` exists in a grid of `h` rows and `w` columns. */
  predicate InImage(p: Point, h: int, w: int)
  {
    0 <= p.y < h && 0 <= p.x < w
  }

  // ---------------------------------------------------------------------------
  // Rects
  // ---------------------------------------------------------------------------

  /** Filling `rect` writes only cells of the grid: it is empty or lies inside. */
  predicate Fits<T>(mask: array2<T>, rect: Rect)
  {
    rect.IsEmpty() || (0 <= rect.Top() && rect.Bottom() <= mask.Length0 && 0 <= rect.Left() && rect.Right() <= mask.Length1)
  }

  /** `fill_rect`: every cell inside `rect` gets `value`; every other cell is left alone. */
  method FillRect<T>(mask: array2<T>, rect: Rect, value: T)
    requires Fits(mask, rect)
    modifies mask
    ensures forall y, x :: 0 <= y < mask.Length0 && 0 <= x < mask.Length1 ==>
      mask[y, x] == if rect.ContainsPoint(Point(y, x)) then value else old(mask[y, x])
  {
    if rect.IsEmpty() {
      return;
    }
    for y := rect.Top() to rect.Bottom()
      invariant forall y', x :: 0 <= y' < mask.Length0 && 0 <= x < mask.Length1 ==>
        mask[y', x] == if rect.ContainsPoint(Point(y', x)) && y' < y then value else old(mask[y', x])
    {
      for x := rect.Left() to rect.Right()
        invariant forall y', x' :: 0 <= y' < mask.Length0 && 0 <= x' < mask.Length1 ==>
          mask[y', x'] == if rect.ContainsPoint(Point(y', x')) && (y' < y || (y' == y && x' < x)) then value else old(mask[y', x'])
      {
        mask[y, x] := value;
      }
    }
  }

  /** `width as i32`: a `u32` of 2^31 or more wraps to a negative value. */
  function WidthAsI32(width: nat): (r: int)
    requires width < 0x1_0000_0000
    ensures width <= MaxI32 ==> r == width
    ensures width > MaxI32 ==> r < 0
  {
    if width <= MaxI32 then width else width - 0x1_0000_0000
  }

  /** The four rects `stroke_rect` fills: left edge, top edge without its ends, right edge, bottom edge without its ends. */
  function StrokeParts(rect: Rect, w: int): (parts: seq<Rect>)
    ensures |parts| == 4
  {
    [FromTlbr(rect.Top(), rect.Left(), rect.Bottom(), rect.Left() + w),
     FromTlbr(rect.Top(), rect.Left() + w, rect.Top() + w, rect.Right() - w),
     FromTlbr(rect.Top(), rect.Right() - w, rect.Bottom(), rect.Right()),
     FromTlbr(rect.Bottom() - w, rect.Left() + w, rect.Bottom(), rect.Right() - w)]
  }

  predicate InStroke(rect: Rect, w: int, p: Point)
  {
    exists i :: 0 <= i < 4 && StrokeParts(rect, w)[i].ContainsPoint(p)
  }

  /** `stroke_rect`: the four edge rects are filled, each in turn; all other cells are left alone. */
  method StrokeRect<T>(mask: array2<T>, rect: Rect, value: T, width: nat)
    requires width < 0x1_0000_0000
    requires forall i :: 0 <= i < 4 ==> Fits(mask, StrokeParts(rect, WidthAsI32(width))[i])
    modifies mask
    ensures forall y, x :: 0 <= y < mask.Length0 && 0 <= x < mask.Length1 ==>
      mask[y, x] == if InStroke(rect, WidthAsI32(width), Point(y, x)) then value else old(mask[y, x])
  {
    var w := WidthAsI32(width);
    var parts := StrokeParts(rect, w);
    FillRect(mask, parts[0], value);
    FillRect(mask, parts[1], value);
    FillRect(mask, parts[2], value);
    FillRect(mask, parts[3], value);
  }

  /**
   * When the width is at most the rect's width and height, the stroke is
   * the frame: the cells of the rect that are not in the rect shrunk by the
   * width on every side.
   */
  lemma StrokeIsFrame(rect: Rect, w: int, p: Point)
    requires 0 <= w && rect.Left() + w <= rect.Right() && rect.Top() + w <= rect.Bottom()
    ensures InStroke(rect, w, p) <==> rect.ContainsPoint(p) && !rect.AdjustTlbr(w, w, -w, -w).ContainsPoint(p)
  {
    var parts := StrokeParts(rect, w);
    if rect.ContainsPoint(p) && !rect.AdjustTlbr(w, w, -w, -w).ContainsPoint(p) {
      if p.x < rect.Left() + w {
        assert parts[0].ContainsPoint(p);
      } else if p.x >= rect.Right() - w {
        assert parts[2].ContainsPoint(p);
      } else if p.y < rect.Top() + w {
        assert parts[1].ContainsPoint(p);
      } else {
        assert parts[3].ContainsPoint(p);
      }
    }
  }

  /** A stroke whose width fits the rect, of a rect inside the grid, writes only cells of the grid. */
  lemma StrokeFits<T>(mask: array2<T>, rect: Rect, w: int)
    requires 0 <= w && rect.Left() + w <= rect.Right() && rect.Top() + w <= rect.Bottom()
    requires Fits(mask, rect)
    ensures forall i :: 0 <= i < 4 ==> Fits(mask, StrokeParts(rect, w)[i])
  {
  }

  // ---------------------------------------------------------------------------
  // Lines
  // ---------------------------------------------------------------------------

  /** `clamp_to_bounds`: each coordinate clamped into `[0, size - 1]`, and to 0 for a size of 0. */
  function ClampToBounds(p: Point, height: nat, width: nat): (r: Point)
    ensures 0 <= r.y <= Max(height - 1, 0) && 0 <= r.x <= Max(width - 1, 0)
    ensures height > 0 && width > 0 ==> InImage(r, height, width)
    ensures InImage(p, height, width) ==> r == p
  {
    Point(Geometry.Clamp(p.y, 0, Max(height - 1, 0)), Geometry.Clamp(p.x, 0, Max(width - 1, 0)))
  }

  function Sign(v: int): (r: int)
    ensures r == 0 <==> v == 0
    ensures -1 <= r <= 1
  {
    if v > 0 then 1 else if v < 0 then -1 else 0
  }

  /** The coordinate that advances on every step (x for a shallow line), and the other one. */
  function Major(p: Point, xMajor: bool): int
  {
    if xMajor then p.x else p.y
  }

  function Minor(p: Point, xMajor: bool): int
  {
    if xMajor then p.y else p.x
  }

  function MakePoint(major: int, minor: int, xMajor: bool): (p: Point)
    ensures Major(p, xMajor) == major && Minor(p, xMajor) == minor
  {
    if xMajor then Point(minor, major) else Point(major, minor)
  }

  /** `n` cells from `p`, each one step of `(dy, dx)` after the one before: the axis-aligned loops. */
  function Straight(p: Point, dy: int, dx: int, n: nat): (r: seq<Point>)
    ensures |r| == n
    ensures n > 0 ==> r[0] == p
    decreases n
  {
    if n == 0 then [] else [p] + Straight(p.Translate(dy, dx), dy, dx, n - 1)
  }

  /**
   * `n` cells of the Bresenham loop from `cur`: the cell is drawn; when the
   * error is not negative the minor coordinate steps and the error drops by
   * `dMaj2`; the error then grows by `dMin2` and the major coordinate steps.
   */
  /** The cell after `cur` in a Bresenham walk: one major step, and a minor step when the error is non-negative. */
  function StepCell(cur: Point, error: int, majStep: int, minStep: int, xMajor: bool): Point
  {
    MakePoint(Major(cur, xMajor) + majStep, Minor(cur, xMajor) + (if error >= 0 then minStep else 0), xMajor)
  }

  /** The error term after one Bresenham step. */
  function StepError(error: int, dMaj2: int, dMin2: int): int
  {
    (if error >= 0 then error - dMaj2 else error) + dMin2
  }

  function Walk(cur: Point, error: int, n: nat, majStep: int, minStep: int, dMaj2: int, dMin2: int, xMajor: bool): (r: seq<Point>)
    ensures |r| == n
    ensures n > 0 ==> r[0] == cur
    decreases n
  {
    if n == 0 then []
    else [cur] + Walk(StepCell(cur, error, majStep, minStep, xMajor), StepError(error, dMaj2, dMin2), n - 1, majStep, minStep, dMaj2, dMin2, xMajor)
  }

  /** One iteration of the Bresenham loop, read off the suffix of the walk that is still to be drawn. */
  lemma WalkAdvance(pts: seq<Point>, i: nat, cur: Point, error: int, majStep: int, minStep: int, dMaj2: int, dMin2: int, xMajor: bool)
    requires i < |pts|
    requires Walk(cur, error, |pts| - i, majStep, minStep, dMaj2, dMin2, xMajor) == pts[i..]
    ensures pts[i] == cur
    ensures Walk(StepCell(cur, error, majStep, minStep, xMajor), StepError(error, dMaj2, dMin2), |pts| - (i + 1), majStep, minStep, dMaj2, dMin2, xMajor) == pts[i + 1..]
  {
    assert pts[i..] == [pts[i]] + pts[i + 1..];
  }

  /** The cells `draw_line` writes between two in-image end points, in the order it writes them. */
  function LinePoints(start: Point, end: Point): seq<Point>
  {
    var dx: int, dy: int := Abs(end.x - start.x), Abs(end.y - start.y);
    var xStep, yStep := Sign(end.x - start.x), Sign(end.y - start.y);
    var steps := Max(dx, dy);
    if xStep == 0 then Straight(start, yStep, 0, steps)
    else if yStep == 0 then Straight(start, 0, xStep, steps)
    else if dx >= dy then Walk(start, 2 * dy - dx, steps, xStep, yStep, 2 * dx, 2 * dy, true)
    else Walk(start, 2 * dx - dy, steps, yStep, xStep, 2 * dy, 2 * dx, false)
  }

  /** The cells for `line` in an image of `h` rows and `w` columns. */
  function LineOf(line: Line, h: nat, w: nat): seq<Point>
  {
    LinePoints(ClampToBounds(line.start, h, w), ClampToBounds(line.end, h, w))
  }

  /** `v` lies between `a` and `b`, whichever is larger. */
  predicate Between(a: int, v: int, b: int)
  {
    Min(a, b) <= v <= Max(a, b)
  }

  /** `q` lies in the box spanned by `a` and `b`. */
  predicate InBox(q: Point, a: Point, b: Point)
  {
    Between(a.y, q.y, b.y) && Between(a.x, q.x, b.x)
  }

  /** `v + n * step == target` for a step of -1 or 1, without the multiplication. */
  predicate Reaches(v: int, n: int, step: int, target: int)
  {
    (step == 1 && v + n == target) || (step == -1 && v - n == target)
  }

  /**
   * The Bresenham invariant: with `n` steps and `r` minor steps left, the
   * error is `2 dMin (1 - n) - dMaj + 2 dMaj r`.
   */
  predicate WalkState(cur: Point, error: int, n: nat, r: nat, end: Point, majStep: int, minStep: int, dMaj: nat, dMin: nat, xMajor: bool)
  {
    0 < dMin <= dMaj &&
    error == 2 * dMin - 2 * dMin * n - dMaj + 2 * dMaj * r &&
    Reaches(Major(cur, xMajor), n, majStep, Major(end, xMajor)) &&
    Reaches(Minor(cur, xMajor), r, minStep, Minor(end, xMajor))
  }

  /** One step keeps the invariant; in particular the minor coordinate never steps once no minor steps are left. */
  lemma WalkStep(cur: Point, error: int, n: nat, r: nat, end: Point, majStep: int, minStep: int, dMaj: nat, dMin: nat, xMajor: bool)
    requires n > 0 && WalkState(cur, error, n, r, end, majStep, minStep, dMaj, dMin, xMajor)
    ensures error >= 0 ==> r > 0
    ensures var moved := error >= 0;
      var next := MakePoint(Major(cur, xMajor) + majStep, Minor(cur, xMajor) + (if moved then minStep else 0), xMajor);
      WalkState(next, (if moved then error - 2 * dMaj else error) + 2 * dMin, n - 1, if moved then r - 1 else r,
                end, majStep, minStep, dMaj, dMin, xMajor) &&
      InBox(next, cur, end)
  {
    var moved := error >= 0;
    assert moved ==> r > 0 by {
      NoMinorStepLeft(error, n, r, dMaj, dMin);
    }
    var r' := if moved then r - 1 else r;
    assert (if moved then error - 2 * dMaj else error) + 2 * dMin == 2 * dMin - 2 * dMin * (n - 1) - dMaj + 2 * dMaj * r' by {
      ErrorAfterStep(error, n, r, r', dMaj, dMin, moved);
    }
  }

  /** With no minor step left the error is negative, so the walk does not take one. */
  lemma NoMinorStepLeft(error: int, n: nat, r: nat, dMaj: nat, dMin: nat)
    requires n > 0 && 0 < dMin <= dMaj
    requires error == 2 * dMin - 2 * dMin * n - dMaj + 2 * dMaj * r
    ensures error >= 0 ==> r > 0
  {
    if r == 0 {
      var m: nat := n - 1;
      var k: nat := 2 * dMin;
      assert k * n == k * m + k;
      assert k * m >= 0;
    }
  }

  /** The error after a step, in terms of the steps left. */
  lemma ErrorAfterStep(error: int, n: nat, r: nat, r': nat, dMaj: nat, dMin: nat, moved: bool)
    requires n > 0 && (moved ==> r > 0) && r' == (if moved then r - 1 else r)
    requires error == 2 * dMin - 2 * dMin * n - dMaj + 2 * dMaj * r
    ensures (if moved then error - 2 * dMaj else error) + 2 * dMin == 2 * dMin - 2 * dMin * (n - 1) - dMaj + 2 * dMaj * r'
  {
    assert 2 * dMin * (n - 1) == 2 * dMin * n - 2 * dMin;
    if moved {
      assert 2 * dMaj * (r - 1) == 2 * dMaj * r - 2 * dMaj;
    }
  }

  /** A cell in the box of a cell that is itself in the box of `cur` and `end` is in the box of `cur` and `end`. */
  lemma BoxShrinks(cur: Point, next: Point, end: Point, q: Point)
    requires InBox(next, cur, end) && InBox(q, next, end)
    ensures InBox(q, cur, end)
  {
  }

  /**
   * Every cell of the walk lies between the current cell and the end,
   * short of the end along the major axis.
   */
  lemma {:induction false} WalkBetween(cur: Point, error: int, n: nat, r: nat, end: Point, majStep: int, minStep: int, dMaj: nat, dMin: nat, xMajor: bool)
    requires WalkState(cur, error, n, r, end, majStep, minStep, dMaj, dMin, xMajor)
    ensures forall q :: q in Walk(cur, error, n, majStep, minStep, 2 * dMaj, 2 * dMin, xMajor) ==>
      InBox(q, cur, end) && Major(q, xMajor) != Major(end, xMajor)
    decreases n
  {
    if n > 0 {
      var next := StepCell(cur, error, majStep, minStep, xMajor);
      var error' := StepError(error, 2 * dMaj, 2 * dMin);
      var r': nat := if error >= 0 && r > 0 then r - 1 else r;
      assert WalkState(next, error', n - 1, r', end, majStep, minStep, dMaj, dMin, xMajor) && InBox(next, cur, end) by {
        WalkStep(cur, error, n, r, end, majStep, minStep, dMaj, dMin, xMajor);
      }
      var rest := Walk(next, error', n - 1, majStep, minStep, 2 * dMaj, 2 * dMin, xMajor);
      assert forall q :: q in rest ==> InBox(q, next, end) && Major(q, xMajor) != Major(end, xMajor) by {
        WalkBetween(next, error', n - 1, r', end, majStep, minStep, dMaj, dMin, xMajor);
      }
      assert Walk(cur, error, n, majStep, minStep, 2 * dMaj, 2 * dMin, xMajor) == [cur] + rest;
      forall q | q in rest
        ensures InBox(q, cur, end)
      {
        BoxShrinks(cur, next, end, q);
      }
    }
  }

  /** The axis-aligned loops stay between the start and the end, short of the end. */
  lemma {:induction false} StraightBetween(p: Point, dy: int, dx: int, n: nat, end: Point)
    requires (dy == 0 && p.y == end.y && Reaches(p.x, n, dx, end.x)) || (dx == 0 && p.x == end.x && Reaches(p.y, n, dy, end.y))
    ensures forall q :: q in Straight(p, dy, dx, n) ==> InBox(q, p, end) && q != end
    decreases n
  {
    if n > 0 {
      StraightBetween(p.Translate(dy, dx), dy, dx, n - 1, end);
    }
  }

  /** The walk of a sloped line, from the invariant's starting state. */
  lemma SlopeBetween(start: Point, end: Point, dMaj: nat, dMin: nat, majStep: int, minStep: int, xMajor: bool)
    requires 0 < dMin <= dMaj
    requires Reaches(Major(start, xMajor), dMaj, majStep, Major(end, xMajor))
    requires Reaches(Minor(start, xMajor), dMin, minStep, Minor(end, xMajor))
    ensures forall q :: q in Walk(start, 2 * dMin - dMaj, dMaj, majStep, minStep, 2 * dMaj, 2 * dMin, xMajor) ==>
      InBox(q, start, end) && q != end
  {
    assert 2 * dMin * dMaj == 2 * dMaj * dMin;
    assert WalkState(start, 2 * dMin - dMaj, dMaj, dMin, end, majStep, minStep, dMaj, dMin, xMajor);
    WalkBetween(start, 2 * dMin - dMaj, dMaj, dMin, end, majStep, minStep, dMaj, dMin, xMajor);
  }

  /**
   * `draw_line` writes `max(dx, dy)` cells, starting with the start point,
   * all of them between the two end points and none of them the end point.
   */
  lemma LinePointsBetween(start: Point, end: Point)
    ensures |LinePoints(start, end)| == Max(Abs(end.x - start.x), Abs(end.y - start.y))
    ensures |LinePoints(start, end)| > 0 ==> LinePoints(start, end)[0] == start
    ensures forall q :: q in LinePoints(start, end) ==> InBox(q, start, end) && q != end
  {
    var dx: int, dy: int := Abs(end.x - start.x), Abs(end.y - start.y);
    var xStep, yStep := Sign(end.x - start.x), Sign(end.y - start.y);
    var steps := Max(dx, dy);
    if xStep == 0 {
      if yStep != 0 {
        StraightBetween(start, yStep, 0, steps, end);
      }
    } else if yStep == 0 {
      StraightBetween(start, 0, xStep, steps, end);
    } else if dx >= dy {
      assert steps == dx;
      var walk := Walk(start, 2 * dy - dx, dx, xStep, yStep, 2 * dx, 2 * dy, true);
      assert LinePoints(start, end) == walk;
      SlopeBetween(start, end, dx, dy, xStep, yStep, true);
      forall q | q in LinePoints(start, end) ensures InBox(q, start, end) && q != end {
        assert q in walk;
      }
    } else {
      assert steps == dy;
      var walk := Walk(start, 2 * dx - dy, dy, yStep, xStep, 2 * dy, 2 * dx, false);
      assert LinePoints(start, end) == walk;
      SlopeBetween(start, end, dy, dx, yStep, xStep, false);
      forall q | q in LinePoints(start, end) ensures InBox(q, start, end) && q != end {
        assert q in walk;
      }
    }
  }

  /** In a non-empty image, every cell of a clamped line is a cell of the image. */
  lemma LineInImage(line: Line, h: nat, w: nat)
    requires h > 0 && w > 0
    ensures forall q :: q in LineOf(line, h, w) ==> InImage(q, h, w)
  {
    LinePointsBetween(ClampToBounds(line.start, h, w), ClampToBounds(line.end, h, w));
  }

  /** Cell `i` and the one after it are adjacent. */
  predicate AdjacentAt(pts: seq<Point>, i: nat)
    requires i + 1 < |pts|
  {
    Adjacent(pts[i], pts[i + 1])
  }

  /** The cells have no gaps: each is one of the eight neighbours of the one before. */
  predicate Connected(pts: seq<Point>)
  {
    forall i: nat :: i + 1 < |pts| ==> AdjacentAt(pts, i)
  }

  /** Each cell of the walk is one of the eight neighbours of the cell before. */
  lemma {:induction false} WalkConnected(cur: Point, error: int, n: nat, majStep: int, minStep: int, dMaj2: int, dMin2: int, xMajor: bool)
    requires (majStep == 1 || majStep == -1) && (minStep == 1 || minStep == -1)
    ensures Connected(Walk(cur, error, n, majStep, minStep, dMaj2, dMin2, xMajor))
    decreases n
  {
    if n > 1 {
      var moved := error >= 0;
      var next := MakePoint(Major(cur, xMajor) + majStep, Minor(cur, xMajor) + (if moved then minStep else 0), xMajor);
      var error' := (if moved then error - dMaj2 else error) + dMin2;
      WalkConnected(next, error', n - 1, majStep, minStep, dMaj2, dMin2, xMajor);
      var pts := Walk(cur, error, n, majStep, minStep, dMaj2, dMin2, xMajor);
      var rest := Walk(next, error', n - 1, majStep, minStep, dMaj2, dMin2, xMajor);
      assert pts == [cur] + rest;
      forall i: nat | i + 1 < |pts|
        ensures AdjacentAt(pts, i)
      {
        if i > 0 {
          assert AdjacentAt(rest, i - 1);
        }
      }
    }
  }

  lemma {:induction false} StraightConnected(p: Point, dy: int, dx: int, n: nat)
    requires Max(Abs(dy), Abs(dx)) == 1
    ensures Connected(Straight(p, dy, dx, n))
    decreases n
  {
    if n > 1 {
      StraightConnected(p.Translate(dy, dx), dy, dx, n - 1);
      var pts := Straight(p, dy, dx, n);
      var rest := Straight(p.Translate(dy, dx), dy, dx, n - 1);
      forall i: nat | i + 1 < |pts|
        ensures AdjacentAt(pts, i)
      {
        if i > 0 {
          assert AdjacentAt(rest, i - 1);
        }
      }
    }
  }

  /** A drawn line has no gaps: each cell is one of the eight neighbours of the one before. */
  lemma LineConnected(start: Point, end: Point)
    ensures Connected(LinePoints(start, end))
  {
    var xStep, yStep := Sign(end.x - start.x), Sign(end.y - start.y);
    var dx: int, dy: int := Abs(end.x - start.x), Abs(end.y - start.y);
    var steps := Max(dx, dy);
    if xStep == 0 {
      if yStep != 0 {
        StraightConnected(start, yStep, 0, steps);
      }
    } else if yStep == 0 {
      StraightConnected(start, 0, xStep, steps);
    } else if dx >= dy {
      WalkConnected(start, 2 * dy - dx, steps, xStep, yStep, 2 * dx, 2 * dy, true);
    } else {
      WalkConnected(start, 2 * dx - dy, steps, yStep, xStep, 2 * dy, 2 * dx, false);
    }
  }

  /** Cell `i` of a straight run is `i` steps from its start. */
  lemma {:induction false} StraightAt(p: Point, dy: int, dx: int, n: nat, i: nat)
    requires i < n
    ensures Straight(p, dy, dx, n)[i] == Point(p.y + i * dy, p.x + i * dx)
    decreases n
  {
    if i > 0 {
      StraightAt(p.Translate(dy, dx), dy, dx, n - 1, i - 1);
    }
  }

  /** The cells of a straight run are exactly its start moved by `0 .. n - 1` steps. */
  lemma StraightMembers(p: Point, dy: int, dx: int, n: nat, q: Point)
    ensures q in Straight(p, dy, dx, n) <==> exists i :: 0 <= i < n && q == Point(p.y + i * dy, p.x + i * dx)
  {
    var pts := Straight(p, dy, dx, n);
    if q in pts {
      var i :| 0 <= i < n && pts[i] == q;
      StraightAt(p, dy, dx, n, i);
    }
    if exists i :: 0 <= i < n && q == Point(p.y + i * dy, p.x + i * dx) {
      var i :| 0 <= i < n && q == Point(p.y + i * dy, p.x + i * dx);
      StraightAt(p, dy, dx, n, i);
      assert pts[i] == q;
    }
  }

  /** The cells of `pts` lie in the image. */
  predicate AllInImage(pts: seq<Point>, h: int, w: int)
  {
    forall q :: q in pts ==> InImage(q, h, w)
  }

  /** The vertical or horizontal loop of `draw_line`: `n` cells from `p`, one step of `(dy, dx)` apart. */
  method DrawStraight<T>(image: array2<T>, p: Point, dy: int, dx: int, n: nat, value: T)
    requires AllInImage(Straight(p, dy, dx, n), image.Length0, image.Length1)
    modifies image
    ensures forall y, x :: 0 <= y < image.Length0 && 0 <= x < image.Length1 ==>
      image[y, x] == if Point(y, x) in Straight(p, dy, dx, n) then value else old(image[y, x])
  {
    ghost var pts := Straight(p, dy, dx, n);
    var current := p;
    for i := 0 to n
      invariant Straight(current, dy, dx, n - i) == pts[i..]
      invariant forall y', x' :: 0 <= y' < image.Length0 && 0 <= x' < image.Length1 ==>
        image[y', x'] == if Point(y', x') in pts[..i] then value else old(image[y', x'])
    {
      assert pts[i] == current && pts[i] in pts;
      image[current.y, current.x] := value;
      assert pts[..i + 1] == pts[..i] + [pts[i]];
      assert pts[i..] == [pts[i]] + pts[i + 1..];
      current := current.Translate(dy, dx);
    }
    assert pts[..n] == pts;
  }

  /** The Bresenham loop of a line at most 45 degrees from the horizontal: x steps every time. */
  method DrawShallow<T>(image: array2<T>, start: Point, dx: int, dy: int, xStep: int, yStep: int, value: T)
    requires AllInImage(Walk(start, 2 * dy - dx, Max(dx, 0), xStep, yStep, 2 * dx, 2 * dy, true), image.Length0, image.Length1)
    modifies image
    ensures forall y, x :: 0 <= y < image.Length0 && 0 <= x < image.Length1 ==>
      image[y, x] == if Point(y, x) in Walk(start, 2 * dy - dx, Max(dx, 0), xStep, yStep, 2 * dx, 2 * dy, true) then value else old(image[y, x])
  {
    ghost var xMajor := true;
    ghost var pts := Walk(start, 2 * dy - dx, Max(dx, 0), xStep, yStep, 2 * dx, 2 * dy, xMajor);
    var steps := Max(dx, 0);
    var dy2 := dy * 2;
    var error := dy2 - dx;
    var dx2 := dx * 2;
    var current := start;
    for i := 0 to steps
      invariant Walk(current, error, steps - i, xStep, yStep, dx2, dy2, xMajor) == pts[i..]
      invariant forall y', x' :: 0 <= y' < image.Length0 && 0 <= x' < image.Length1 ==>
        image[y', x'] == if Point(y', x') in pts[..i] then value else old(image[y', x'])
    {
      ghost var next := StepCell(current, error, xStep, yStep, xMajor);
      ghost var nextError := StepError(error, dx2, dy2);
      WalkAdvance(pts, i, current, error, xStep, yStep, dx2, dy2, xMajor);
      assert current in pts;
      image[current.y, current.x] := value;
      assert pts[..i + 1] == pts[..i] + [current];
      if error >= 0 {
        current := Point(current.y + yStep, current.x);
        error := error - dx2;
      }
      error := error + dy2;
      current := Point(current.y, current.x + xStep);
      assert current == next && error == nextError;
    }
    assert pts[..steps] == pts;
  }

  /** The Bresenham loop of a line more than 45 degrees from the horizontal: y steps every time. */
  method DrawSteep<T>(image: array2<T>, start: Point, dx: int, dy: int, xStep: int, yStep: int, value: T)
    requires AllInImage(Walk(start, 2 * dx - dy, Max(dy, 0), yStep, xStep, 2 * dy, 2 * dx, false), image.Length0, image.Length1)
    modifies image
    ensures forall y, x :: 0 <= y < image.Length0 && 0 <= x < image.Length1 ==>
      image[y, x] == if Point(y, x) in Walk(start, 2 * dx - dy, Max(dy, 0), yStep, xStep, 2 * dy, 2 * dx, false) then value else old(image[y, x])
  {
    ghost var xMajor := false;
    ghost var pts := Walk(start, 2 * dx - dy, Max(dy, 0), yStep, xStep, 2 * dy, 2 * dx, xMajor);
    var steps := Max(dy, 0);
    var dx2 := dx * 2;
    var error := dx2 - dy;
    var dy2 := dy * 2;
    var current := start;
    for i := 0 to steps
      invariant Walk(current, error, steps - i, yStep, xStep, dy2, dx2, xMajor) == pts[i..]
      invariant forall y', x' :: 0 <= y' < image.Length0 && 0 <= x' < image.Length1 ==>
        image[y', x'] == if Point(y', x') in pts[..i] then value else old(image[y', x'])
    {
      ghost var next := StepCell(current, error, yStep, xStep, xMajor);
      ghost var nextError := StepError(error, dy2, dx2);
      WalkAdvance(pts, i, current, error, yStep, xStep, dy2, dx2, xMajor);
      assert current in pts;
      image[current.y, current.x] := value;
      assert pts[..i + 1] == pts[..i] + [current];
      if error >= 0 {
        current := Point(current.y, current.x + xStep);
        error := error - dy2;
      }
      error := error + dx2;
      current := Point(current.y + yStep, current.x);
      assert current == next && error == nextError;
    }
    assert pts[..steps] == pts;
  }

  /**
   * `draw_line`. Both end points are clamped into the image; a vertical or
   * horizontal line is one straight loop, any other line a Bresenham loop
   * along its longer axis. The cells of `LineOf` get `value`, nothing else
   * changes. In an image with no rows or no columns the first write is out
   * of bounds and panics.
   */
  method DrawLine<T>(image: array2<T>, line: Line, value: T) returns (r: Result<(), Panic>)
    requires image.Length0 <= MaxI32 && image.Length1 <= MaxI32
    modifies image
    ensures r.Err? <==> (image.Length0 == 0 || image.Length1 == 0) && |LineOf(line, image.Length0, image.Length1)| > 0
    ensures forall y, x :: 0 <= y < image.Length0 && 0 <= x < image.Length1 ==>
      image[y, x] == if Point(y, x) in LineOf(line, image.Length0, image.Length1) then value else old(image[y, x])
  {
    var height, width := image.Length0, image.Length1;
    var start := ClampToBounds(line.start, height, width);
    var end := ClampToBounds(line.end, height, width);
    var dx: int, dy: int := Abs(end.x - start.x), Abs(end.y - start.y);
    var xStep, yStep := Sign(end.x - start.x), Sign(end.y - start.y);
    var steps := Max(dx, dy);
    LinePointsBetween(start, end);
    if steps > 0 && (height == 0 || width == 0) {
      return Err(IndexOutOfBounds);
    }
    r := Ok(());
    if steps == 0 {
      return;
    }
    LineInImage(line, height, width);
    if xStep == 0 {
      DrawStraight(image, start, yStep, 0, steps, value);
    } else if yStep == 0 {
      DrawStraight(image, start, 0, xStep, steps, value);
    } else if dx >= dy {
      DrawShallow(image, start, dx, dy, xStep, yStep, value);
    } else {
      DrawSteep(image, start, dx, dy, xStep, yStep, value);
    }
  }

  /** The cells of an axis-aligned segment: its bounding box, without its end point. */
  lemma StraightLineCells(a: Point, b: Point, q: Point)
    requires a.x == b.x || a.y == b.y
    ensures q in LinePoints(a, b) <==> InBox(q, a, b) && q != b
  {
    LinePointsBetween(a, b);
    if InBox(q, a, b) && q != b {
      if a.x == b.x {
        var yStep := Sign(b.y - a.y);
        var i := Abs(q.y - a.y);
        assert q == Point(a.y + i * yStep, a.x);
        StraightMembers(a, yStep, 0, Abs(b.y - a.y), q);
      } else {
        var xStep := Sign(b.x - a.x);
        var i := Abs(q.x - a.x);
        assert q == Point(a.y, a.x + i * xStep);
        StraightMembers(a, 0, xStep, Abs(b.x - a.x), q);
      }
    }
  }

  // ---------------------------------------------------------------------------
  // Polygons
  // ---------------------------------------------------------------------------

  /** Edge `i` of a closed polygon: from vertex `i` to the next one, the last vertex joining the first. */
  function Edge(poly: seq<Point>, i: nat): (e: Line)
    requires i < |poly|
    ensures e.start == poly[i]
    ensures e.end == if i + 1 < |poly| then poly[i + 1] else poly[0]
  {
    Line(poly[i], poly[(i + 1) % |poly|])
  }

  /** `p` is one of the cells `draw_line` writes for one of the first `n` edges of `poly`. */
  predicate OnEdges(poly: seq<Point>, n: nat, h: nat, w: nat, p: Point)
    requires n <= |poly|
  {
    exists i :: 0 <= i < n && p in LineOf(Edge(poly, i), h, w)
  }

  /** `p` is one of the cells `draw_line` writes for some edge of `poly`. */
  predicate OnOutline(poly: seq<Point>, h: nat, w: nat, p: Point)
  {
    OnEdges(poly, |poly|, h, w, p)
  }

  /** One of the first `n` edges of `poly` has at least one cell to write. */
  predicate EdgesHaveCells(poly: seq<Point>, n: nat, h: nat, w: nat)
    requires n <= |poly|
  {
    exists i :: 0 <= i < n && |LineOf(Edge(poly, i), h, w)| > 0
  }

  /** Taking in one more edge adds exactly that edge's cells. */
  lemma EdgesGrow(poly: seq<Point>, n: nat, h: nat, w: nat)
    requires n < |poly|
    ensures forall p :: OnEdges(poly, n + 1, h, w, p) <==> OnEdges(poly, n, h, w, p) || p in LineOf(Edge(poly, n), h, w)
    ensures EdgesHaveCells(poly, n + 1, h, w) <==> EdgesHaveCells(poly, n, h, w) || |LineOf(Edge(poly, n), h, w)| > 0
  {
  }

  /**
   * `draw_polygon`: `draw_line` along each edge, the closing edge last; an
   * empty polygon draws nothing. The cells on the outline get `value`,
   * nothing else changes, and the call panics exactly when one of its lines
   * does.
   */
  method DrawPolygon<T>(image: array2<T>, poly: seq<Point>, value: T) returns (r: Result<(), Panic>)
    requires image.Length0 <= MaxI32 && image.Length1 <= MaxI32
    modifies image
    ensures r.Err? <==> (image.Length0 == 0 || image.Length1 == 0) && EdgesHaveCells(poly, |poly|, image.Length0, image.Length1)
    ensures forall y, x :: 0 <= y < image.Length0 && 0 <= x < image.Length1 ==>
      image[y, x] == if OnOutline(poly, image.Length0, image.Length1, Point(y, x)) then value else old(image[y, x])
  {
    r := Ok(());
    var h, w := image.Length0, image.Length1;
    for i := 0 to |poly|
      invariant !((h == 0 || w == 0) && EdgesHaveCells(poly, i, h, w))
      invariant forall y, x :: 0 <= y < h && 0 <= x < w ==>
        image[y, x] == if OnEdges(poly, i, h, w, Point(y, x)) then value else old(image[y, x])
    {
      EdgesGrow(poly, i, h, w);
      var res := DrawLine(image, Edge(poly, i), value);
      if res.Err? {
        return Err(IndexOutOfBounds);
      }
    }
  }

  /** The square with corners `(0, 0)` and `(s, s)`, in the order the outline is drawn. */
  function Square(s: int): (poly: seq<Point>)
    ensures |poly| == 4
  {
    [Point(0, 0), Point(0, s), Point(s, s), Point(s, 0)]
  }

  /** The cells of each edge of the square: one side of the image's border, without the corner it runs into. */
  lemma SquareEdge(s: nat, i: nat, p: Point)
    requires s > 0 && i < 4
    ensures p in LineOf(Edge(Square(s), i), s + 1, s + 1) <==>
      if i == 0 then p.y == 0 && 0 <= p.x < s
      else if i == 1 then p.x == s && 0 <= p.y < s
      else if i == 2 then p.y == s && 0 < p.x <= s
      else p.x == 0 && 0 < p.y <= s
  {
    var e := Edge(Square(s), i);
    assert ClampToBounds(e.start, s + 1, s + 1) == e.start;
    assert ClampToBounds(e.end, s + 1, s + 1) == e.end;
    StraightLineCells(e.start, e.end, p);
  }

  /**
   * Drawing a square that fills an image of `s + 1` rows and columns marks
   * exactly the cells of the image's border.
   */
  lemma SquareOutline(s: nat, p: Point)
    requires s > 0 && InImage(p, s + 1, s + 1)
    ensures OnOutline(Square(s), s + 1, s + 1, p) <==> p.y == 0 || p.y == s || p.x == 0 || p.x == s
  {
    var poly := Square(s);
    if OnOutline(poly, s + 1, s + 1, p) {
      var i :| 0 <= i < 4 && p in LineOf(Edge(poly, i), s + 1, s + 1);
      SquareEdge(s, i, p);
    }
    var i := if p.y == 0 && p.x < s then 0 else if p.x == s && p.y < s then 1 else if p.y == s && p.x > 0 then 2 else 3;
    SquareEdge(s, i, p);
  }
}
