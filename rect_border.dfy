/**
 * The border of a filled rectangle as `find_contours` follows it: down the
 * left edge, along the bottom, up the right edge and back along the top
 * (the order the rectangle tests of `src/geometry.rs` expect), and the
 * neighbour search that takes each step of that walk.
 */
module RectBorders {
  import opened Geometry
  import opened NeighborRing

  /** A rectangle at least two pixels high and two wide, so that its border is a ring. */
  predicate Solid(rect: Rect)
  {
    rect.Height() >= 2 && rect.Width() >= 2
  }

  /** The number of pixels on the border. */
  function BorderLength(rect: Rect): nat
    requires Solid(rect)
  {
    2 * rect.Height() + 2 * rect.Width() - 4
  }

  /**
   * The border points of `rect`, corners included: the left edge top to
   * bottom, the bottom edge left to right, the right edge bottom to top and
   * the top edge right to left.
   */
  function RectBorder(rect: Rect): (r: seq<Point>)
    requires Solid(rect)
    ensures |r| == BorderLength(rect)
  {
    seq(rect.Height(), k => Point(rect.Top() + k, rect.Left())) +
    seq(rect.Width() - 2, k => Point(rect.Bottom() - 1, rect.Left() + 1 + k)) +
    seq(rect.Height(), k => Point(rect.Bottom() - 1 - k, rect.Right() - 1)) +
    seq(rect.Width() - 2, k => Point(rect.Top(), rect.Right() - 2 - k))
  }

  /** Border point `i`, edge by edge. */
  function BorderAt(rect: Rect, i: nat): (p: Point)
    requires Solid(rect) && i < BorderLength(rect)
  {
    var h, w := rect.Height(), rect.Width();
    if i < h then Point(rect.Top() + i, rect.Left())
    else if i < h + w - 2 then Point(rect.Bottom() - 1, rect.Left() + 1 + (i - h))
    else if i < 2 * h + w - 2 then Point(rect.Bottom() - 1 - (i - (h + w - 2)), rect.Right() - 1)
    else Point(rect.Top(), rect.Right() - 2 - (i - (2 * h + w - 2)))
  }

  /** `BorderAt` walks through `RectBorder`. */
  lemma BorderAtIsRectBorder(rect: Rect, i: nat)
    requires Solid(rect) && i < BorderLength(rect)
    ensures RectBorder(rect)[i] == BorderAt(rect, i)
  {
    var h, w := rect.Height(), rect.Width();
    var left := seq(h, k => Point(rect.Top() + k, rect.Left()));
    var bottom := seq(w - 2, k => Point(rect.Bottom() - 1, rect.Left() + 1 + k));
    var right := seq(h, k => Point(rect.Bottom() - 1 - k, rect.Right() - 1));
    var top := seq(w - 2, k => Point(rect.Top(), rect.Right() - 2 - k));
    assert RectBorder(rect) == ((left + bottom) + right) + top;
    if i < h {
      assert RectBorder(rect)[i] == left[i];
    } else if i < h + w - 2 {
      assert RectBorder(rect)[i] == bottom[i - h];
    } else if i < 2 * h + w - 2 {
      assert RectBorder(rect)[i] == right[i - (h + w - 2)];
    } else {
      assert RectBorder(rect)[i] == top[i - (2 * h + w - 2)];
    }
  }

  /** `p` is a pixel of `rect` on its outermost ring. */
  predicate OnBorder(rect: Rect, p: Point)
  {
    rect.ContainsPoint(p) &&
    (p.x == rect.Left() || p.x == rect.Right() - 1 || p.y == rect.Top() || p.y == rect.Bottom() - 1)
  }

  /** The position of a border pixel in the walk. */
  function BorderIndex(rect: Rect, p: Point): nat
    requires Solid(rect) && OnBorder(rect, p)
  {
    var h, w := rect.Height(), rect.Width();
    if p.x == rect.Left() then p.y - rect.Top()
    else if p.y == rect.Bottom() - 1 && p.x < rect.Right() - 1 then h + (p.x - rect.Left() - 1)
    else if p.x == rect.Right() - 1 then h + w - 2 + (rect.Bottom() - 1 - p.y)
    else 2 * h + w - 2 + (rect.Right() - 2 - p.x)
  }

  /** Every point of the walk is a border pixel, found again at its own position. */
  lemma BorderIndexAt(rect: Rect, i: nat)
    requires Solid(rect) && i < BorderLength(rect)
    ensures OnBorder(rect, BorderAt(rect, i)) && BorderIndex(rect, BorderAt(rect, i)) == i
  {
  }

  /** Every border pixel is met by the walk. */
  lemma BorderAtIndex(rect: Rect, p: Point)
    requires Solid(rect) && OnBorder(rect, p)
    ensures BorderIndex(rect, p) < BorderLength(rect) && BorderAt(rect, BorderIndex(rect, p)) == p
  {
  }

  /** The walk meets no pixel twice. */
  lemma BorderAtInjective(rect: Rect, i: nat, j: nat)
    requires Solid(rect) && i < BorderLength(rect) && j < BorderLength(rect)
    requires BorderAt(rect, i) == BorderAt(rect, j)
    ensures i == j
  {
    BorderIndexAt(rect, i);
    BorderIndexAt(rect, j);
  }

  /** The walk position before `i`, going round. */
  function Prev(rect: Rect, i: nat): nat
    requires Solid(rect) && i < BorderLength(rect)
  {
    if i == 0 then BorderLength(rect) - 1 else i - 1
  }

  /** The walk position after `i`, going round. */
  function Next(rect: Rect, i: nat): nat
    requires Solid(rect) && i < BorderLength(rect)
  {
    if i == BorderLength(rect) - 1 then 0 else i + 1
  }

  /**
   * Which neighbour of border point `i` (in the order of `Neighbors`: up,
   * up-right, right, down-right, down, down-left, left, up-left) the walk
   * came from.
   */
  function Came(rect: Rect, i: nat): nat
    requires Solid(rect) && i < BorderLength(rect)
  {
    var h, w := rect.Height(), rect.Width();
    if i == 0 then 2
    else if i < h then 0
    else if i <= h + w - 2 then 6
    else if i < 2 * h + w - 2 then 4
    else 2
  }

  /**
   * How many neighbours outside the rectangle the counter-clockwise search
   * from point `i` passes before it meets the next point: five at a
   * corner, three along an edge.
   */
  function Turns(rect: Rect, i: nat): nat
    requires Solid(rect) && i < BorderLength(rect)
  {
    var h, w := rect.Height(), rect.Width();
    if i == 0 || i == h - 1 || i == h + w - 2 || i == 2 * h + w - 3 then 5 else 3
  }

  /** Neighbour `j` of `p`, written as an offset. */
  lemma NeighborOffsets(p: Point)
    ensures p.Neighbors()[0] == Point(p.y - 1, p.x) && p.Neighbors()[1] == Point(p.y - 1, p.x + 1)
    ensures p.Neighbors()[2] == Point(p.y, p.x + 1) && p.Neighbors()[3] == Point(p.y + 1, p.x + 1)
    ensures p.Neighbors()[4] == Point(p.y + 1, p.x) && p.Neighbors()[5] == Point(p.y + 1, p.x - 1)
    ensures p.Neighbors()[6] == Point(p.y, p.x - 1) && p.Neighbors()[7] == Point(p.y - 1, p.x - 1)
  {
  }

  /**
   * One step of the walk as the border following takes it: the point it
   * came from is neighbour `Came` of point `i`, and going counter-clockwise
   * from the neighbour after that one, the first `Turns` neighbours are
   * outside the rectangle and the next is the following point of the walk.
   */
  lemma StepAround(rect: Rect, i: nat)
    requires Solid(rect) && i < BorderLength(rect)
    ensures Came(rect, i) < 8 && Turns(rect, i) < 8
    ensures BorderAt(rect, i).Neighbors()[Came(rect, i)] == BorderAt(rect, Prev(rect, i))
    ensures BorderAt(rect, i).Neighbors()[Around(NextNeighbor(Came(rect, i), CounterClockwise), Turns(rect, i), CounterClockwise)]
      == BorderAt(rect, Next(rect, i))
    ensures forall j: nat :: j < Turns(rect, i) ==>
      !rect.ContainsPoint(BorderAt(rect, i).Neighbors()[Around(NextNeighbor(Came(rect, i), CounterClockwise), j, CounterClockwise)])
  {
    var h, w := rect.Height(), rect.Width();
    NeighborOffsets(BorderAt(rect, i));
    if i < h {
      StepLeft(rect, i);
    } else if i <= h + w - 2 {
      StepBottom(rect, i);
    } else if i < 2 * h + w - 2 {
      StepRight(rect, i);
    } else {
      StepTop(rect, i);
    }
  }

  lemma StepLeft(rect: Rect, i: nat)
    requires Solid(rect) && i < rect.Height()
    ensures Came(rect, i) < 8 && Turns(rect, i) < 8
    ensures BorderAt(rect, i).Neighbors()[Came(rect, i)] == BorderAt(rect, Prev(rect, i))
    ensures BorderAt(rect, i).Neighbors()[Around(NextNeighbor(Came(rect, i), CounterClockwise), Turns(rect, i), CounterClockwise)]
      == BorderAt(rect, Next(rect, i))
    ensures forall j: nat :: j < Turns(rect, i) ==>
      !rect.ContainsPoint(BorderAt(rect, i).Neighbors()[Around(NextNeighbor(Came(rect, i), CounterClockwise), j, CounterClockwise)])
  {
    NeighborOffsets(BorderAt(rect, i));
  }

  lemma StepBottom(rect: Rect, i: nat)
    requires Solid(rect) && rect.Height() <= i <= rect.Height() + rect.Width() - 2
    ensures Came(rect, i) < 8 && Turns(rect, i) < 8
    ensures BorderAt(rect, i).Neighbors()[Came(rect, i)] == BorderAt(rect, Prev(rect, i))
    ensures BorderAt(rect, i).Neighbors()[Around(NextNeighbor(Came(rect, i), CounterClockwise), Turns(rect, i), CounterClockwise)]
      == BorderAt(rect, Next(rect, i))
    ensures forall j: nat :: j < Turns(rect, i) ==>
      !rect.ContainsPoint(BorderAt(rect, i).Neighbors()[Around(NextNeighbor(Came(rect, i), CounterClockwise), j, CounterClockwise)])
  {
    NeighborOffsets(BorderAt(rect, i));
  }

  lemma StepRight(rect: Rect, i: nat)
    requires Solid(rect) && rect.Height() + rect.Width() - 2 < i < 2 * rect.Height() + rect.Width() - 2
    ensures Came(rect, i) < 8 && Turns(rect, i) < 8
    ensures BorderAt(rect, i).Neighbors()[Came(rect, i)] == BorderAt(rect, Prev(rect, i))
    ensures BorderAt(rect, i).Neighbors()[Around(NextNeighbor(Came(rect, i), CounterClockwise), Turns(rect, i), CounterClockwise)]
      == BorderAt(rect, Next(rect, i))
    ensures forall j: nat :: j < Turns(rect, i) ==>
      !rect.ContainsPoint(BorderAt(rect, i).Neighbors()[Around(NextNeighbor(Came(rect, i), CounterClockwise), j, CounterClockwise)])
  {
    NeighborOffsets(BorderAt(rect, i));
  }

  lemma StepTop(rect: Rect, i: nat)
    requires Solid(rect) && 2 * rect.Height() + rect.Width() - 2 <= i < BorderLength(rect)
    ensures Came(rect, i) < 8 && Turns(rect, i) < 8
    ensures BorderAt(rect, i).Neighbors()[Came(rect, i)] == BorderAt(rect, Prev(rect, i))
    ensures BorderAt(rect, i).Neighbors()[Around(NextNeighbor(Came(rect, i), CounterClockwise), Turns(rect, i), CounterClockwise)]
      == BorderAt(rect, Next(rect, i))
    ensures forall j: nat :: j < Turns(rect, i) ==>
      !rect.ContainsPoint(BorderAt(rect, i).Neighbors()[Around(NextNeighbor(Came(rect, i), CounterClockwise), j, CounterClockwise)])
  {
    NeighborOffsets(BorderAt(rect, i));
  }

  /**
   * The opening search at the top-left corner, clockwise from its left
   * neighbour: four neighbours outside the rectangle, then the last point
   * of the walk, to the corner's right.
   */
  lemma StartAround(rect: Rect)
    requires Solid(rect)
    ensures BorderAt(rect, 0) == rect.topLeft
    ensures rect.topLeft.Neighbors()[6] == rect.topLeft.Translate(0, -1)
    ensures rect.topLeft.Neighbors()[Around(6, 4, Clockwise)] == BorderAt(rect, BorderLength(rect) - 1)
    ensures forall j: nat :: j < 4 ==> !rect.ContainsPoint(rect.topLeft.Neighbors()[Around(6, j, Clockwise)])
  {
    NeighborOffsets(rect.topLeft);
  }
}
