/**
 * The integer geometry of `src/geometry.rs`: points, one-dimensional
 * overlaps, line segments, rectangles with inclusive top/left and exclusive
 * bottom/right sides, and the bounding box of a point list.
 *
 * Coordinates are `i32` in the source; here they are unbounded integers, so
 * the arithmetic of these functions never overflows.
 */
module Geometry {
  import opened Wrappers

  // ---------------------------------------------------------------------------
  // Points
  // ---------------------------------------------------------------------------

  datatype Point = Point(y: int, x: int)
  {
    function Translate(dy: int, dx: int): Point
    {
      Point(y + dy, x + dx)
    }

    /** The eight neighbours in clockwise order, starting with the one directly above. */
    function Neighbors(): (r: seq<Point>)
      ensures |r| == 8
    {
      [Translate(-1, 0), Translate(-1, 1), Translate(0, 1), Translate(1, 1),
       Translate(1, 0), Translate(1, -1), Translate(0, -1), Translate(-1, -1)]
    }
  }

  function Abs(v: int): nat
  {
    if v < 0 then -v else v
  }

  function Max(a: int, b: int): int
  {
    if a >= b then a else b
  }

  function Min(a: int, b: int): int
  {
    if a <= b then a else b
  }

  /** `q` is one of the eight pixels around `p`. */
  predicate Adjacent(p: Point, q: Point)
  {
    Max(Abs(p.y - q.y), Abs(p.x - q.x)) == 1
  }

  /** The neighbours are exactly the pixels adjacent to the point, each listed once. */
  lemma NeighborsAreAdjacent(p: Point)
    ensures forall i :: 0 <= i < 8 ==> Adjacent(p, p.Neighbors()[i])
    ensures forall i, j :: 0 <= i < j < 8 ==> p.Neighbors()[i] != p.Neighbors()[j]
    ensures forall q :: Adjacent(p, q) ==> q in p.Neighbors()
  {
    var n := p.Neighbors();
    forall q | Adjacent(p, q)
      ensures q in n
    {
      var dy, dx := q.y - p.y, q.x - p.x;
      assert -1 <= dy <= 1 && -1 <= dx <= 1;
      assert q == p.Translate(dy, dx);
    }
  }

  /** Neighbour `i` and the one after it (going round) are one step up, down, left or right apart. */
  predicate RingStep(p: Point, i: nat)
    requires i < 8
  {
    var a, b := p.Neighbors()[i], p.Neighbors()[(i + 1) % 8];
    Abs(a.y - b.y) + Abs(a.x - b.x) == 1
  }

  /** Going round the list, each neighbour is one step up, down, left or right of the one before. */
  lemma NeighborsRing(p: Point)
    ensures forall i: nat :: i < 8 ==> RingStep(p, i)
  {
    forall i: nat | i < 8
      ensures RingStep(p, i)
    {
      if i == 7 {
        assert (i + 1) % 8 == 0;
      } else {
        assert (i + 1) % 8 == i + 1;
      }
    }
  }

  // ---------------------------------------------------------------------------
  // One-dimensional overlap
  // ---------------------------------------------------------------------------

  /** `sort_pair`: the two values of the pair, smaller first. */
  function SortPair(p: (int, int)): (r: (int, int))
    ensures r.0 <= r.1
    ensures r == p || r == (p.1, p.0)
  {
    if p.0 <= p.1 then p else (p.1, p.0)
  }

  /** Rust's lexicographic order on pairs of pairs. */
  predicate LexLe(a: (int, int), b: (int, int))
  {
    a.0 < b.0 || (a.0 == b.0 && a.1 <= b.1)
  }

  /** `clamp`, which panics when `lo > hi`. */
  function Clamp(v: int, lo: int, hi: int): (r: int)
    requires lo <= hi
    ensures lo <= r <= hi
    ensures lo <= v <= hi ==> r == v
  {
    if v < lo then lo else if v > hi then hi else v
  }

  /**
   * `overlap`: both segments are put in order, the one that starts first
   * (in lexicographic order) is `a`, and the overlap is how far `a` reaches
   * into `b`, at least 0 and at most `b`'s length.
   */
  function Overlap(a: (int, int), b: (int, int)): int
  {
    var a' := SortPair(a);
    var b' := SortPair(b);
    var first := if LexLe(a', b') then a' else b';
    var second := if LexLe(a', b') then b' else a';
    Clamp(first.1 - second.0, 0, second.1 - second.0)
  }

  /** Overlap is the length of the intersection of the two segments, whatever the order of their ends. */
  lemma OverlapIsIntersection(a: (int, int), b: (int, int))
    ensures Overlap(a, b) == Max(0, Min(Max(a.0, a.1), Max(b.0, b.1)) - Max(Min(a.0, a.1), Min(b.0, b.1)))
  {
  }

  lemma OverlapSymmetric(a: (int, int), b: (int, int))
    ensures Overlap(a, b) == Overlap(b, a)
    ensures Overlap(a, b) == Overlap((a.1, a.0), b)
    ensures Overlap(a, b) == Overlap(a, (b.1, b.0))
    ensures 0 <= Overlap(a, b)
  {
    OverlapIsIntersection(a, b);
    OverlapIsIntersection(b, a);
    OverlapIsIntersection((a.1, a.0), b);
    OverlapIsIntersection(a, (b.1, b.0));
  }

  /** The values the source's tests expect, in both argument orders. */
  lemma OverlapExamples()
    ensures Overlap((0, 10), (15, 20)) == 0 && Overlap((15, 20), (0, 10)) == 0
    ensures Overlap((0, 10), (5, 15)) == 5 && Overlap((5, 15), (0, 10)) == 5
    ensures Overlap((0, 10), (2, 8)) == 6 && Overlap((2, 8), (0, 10)) == 6
    ensures Overlap((0, 5), (0, 10)) == 5 && Overlap((0, 10), (0, 5)) == 5
  {
    OverlapIsIntersection((0, 10), (15, 20));
    OverlapIsIntersection((0, 10), (5, 15));
    OverlapIsIntersection((0, 10), (2, 8));
    OverlapIsIntersection((0, 5), (0, 10));
    OverlapSymmetric((0, 10), (15, 20));
    OverlapSymmetric((0, 10), (5, 15));
    OverlapSymmetric((0, 10), (2, 8));
    OverlapSymmetric((0, 5), (0, 10));
  }

  // ---------------------------------------------------------------------------
  // Line segments
  // ---------------------------------------------------------------------------

  datatype Line = Line(start: Point, end: Point)
  {
    predicate IsEmpty()
    {
      start == end
    }

    function VerticalOverlap(other: Line): int
    {
      Overlap((start.y, end.y), (other.start.y, other.end.y))
    }

    function HorizontalOverlap(other: Line): int
    {
      Overlap((start.x, end.x), (other.start.x, other.end.x))
    }
  }

  /**
   * The overlap of two lines in either direction is the length of the
   * intersection of their extents, whichever line is asked and whichever
   * way round each line is given.
   */
  lemma LineOverlaps(l: Line, m: Line)
    ensures l.VerticalOverlap(m) == Max(0, Min(Max(l.start.y, l.end.y), Max(m.start.y, m.end.y)) - Max(Min(l.start.y, l.end.y), Min(m.start.y, m.end.y)))
    ensures l.HorizontalOverlap(m) == Max(0, Min(Max(l.start.x, l.end.x), Max(m.start.x, m.end.x)) - Max(Min(l.start.x, l.end.x), Min(m.start.x, m.end.x)))
    ensures l.VerticalOverlap(m) == m.VerticalOverlap(l) && l.HorizontalOverlap(m) == m.HorizontalOverlap(l)
    ensures l.VerticalOverlap(m) == Line(l.end, l.start).VerticalOverlap(m)
    ensures l.HorizontalOverlap(m) == Line(l.end, l.start).HorizontalOverlap(m)
  {
    OverlapIsIntersection((l.start.y, l.end.y), (m.start.y, m.end.y));
    OverlapIsIntersection((l.start.x, l.end.x), (m.start.x, m.end.x));
    OverlapSymmetric((l.start.y, l.end.y), (m.start.y, m.end.y));
    OverlapSymmetric((l.start.x, l.end.x), (m.start.x, m.end.x));
  }

  // ---------------------------------------------------------------------------
  // Rectangles
  // ---------------------------------------------------------------------------

  /** A rectangle; the top and left sides are inclusive, the bottom and right sides exclusive. */
  datatype Rect = Rect(topLeft: Point, bottomRight: Point)
  {
    function Top(): int { topLeft.y }
    function Left(): int { topLeft.x }
    function Bottom(): int { bottomRight.y }
    function Right(): int { bottomRight.x }

    function Width(): int { Right() - Left() }
    function Height(): int { Bottom() - Top() }
    function Area(): int { Width() * Height() }

    predicate IsEmpty()
    {
      Right() <= Left() || Bottom() <= Top()
    }

    function TopRight(): Point { Point(Top(), Right()) }
    function BottomLeft(): Point { Point(Bottom(), Left()) }

    function LeftEdge(): Line { Line(topLeft, BottomLeft()) }
    function TopEdge(): Line { Line(topLeft, TopRight()) }
    function RightEdge(): Line { Line(TopRight(), bottomRight) }
    function BottomEdge(): Line { Line(BottomLeft(), bottomRight) }

    function Tlbr(): seq<int>
    {
      [Top(), Left(), Bottom(), Right()]
    }

    function AdjustTlbr(top: int, left: int, bottom: int, right: int): Rect
    {
      Rect(topLeft.Translate(top, left), bottomRight.Translate(bottom, right))
    }

    /** Each side moved inwards as far as needed to lie inside `boundary`. */
    function Clamp(boundary: Rect): Rect
    {
      FromTlbr(Max(Top(), boundary.Top()), Max(Left(), boundary.Left()),
               Min(Bottom(), boundary.Bottom()), Min(Right(), boundary.Right()))
    }

    /** The two rects overlap both vertically (along their left edges) and horizontally (along their top edges). */
    predicate Intersects(other: Rect)
    {
      LeftEdge().VerticalOverlap(other.LeftEdge()) > 0 && TopEdge().HorizontalOverlap(other.TopEdge()) > 0
    }

    function Union(other: Rect): Rect
    {
      FromTlbr(Min(Top(), other.Top()), Min(Left(), other.Left()),
               Max(Bottom(), other.Bottom()), Max(Right(), other.Right()))
    }

    predicate Contains(other: Rect)
    {
      Union(other) == this
    }

    /** The pixel `p` lies inside the rect (not a source member: the reference meaning of the sides). */
    predicate ContainsPoint(p: Point)
    {
      Top() <= p.y < Bottom() && Left() <= p.x < Right()
    }

    /** The top and left sides are not past the bottom and right sides. */
    predicate Ordered()
    {
      Top() <= Bottom() && Left() <= Right()
    }
  }

  function FromTlbr(top: int, left: int, bottom: int, right: int): Rect
  {
    Rect(Point(top, left), Point(bottom, right))
  }

  function FromHw(height: int, width: int): Rect
  {
    Rect(Point(0, 0), Point(height, width))
  }

  /** `from_tlbr` and `tlbr` are inverse; `from_hw` gives the asked-for size at the origin. */
  lemma TlbrRoundTrip(r: Rect, top: int, left: int, bottom: int, right: int, h: int, w: int)
    ensures FromTlbr(top, left, bottom, right).Tlbr() == [top, left, bottom, right]
    ensures FromTlbr(r.Tlbr()[0], r.Tlbr()[1], r.Tlbr()[2], r.Tlbr()[3]) == r
    ensures FromHw(h, w).Height() == h && FromHw(h, w).Width() == w && FromHw(h, w).Area() == h * w
    ensures r.AdjustTlbr(0, 0, 0, 0) == r
    ensures r.AdjustTlbr(top, left, bottom, right).Tlbr() == [r.Top() + top, r.Left() + left, r.Bottom() + bottom, r.Right() + right]
  {
  }

  /** The edges join the four corners: left and right edges are vertical, top and bottom horizontal. */
  lemma EdgesJoinCorners(r: Rect)
    ensures r.LeftEdge().start.x == r.LeftEdge().end.x && r.LeftEdge().end.y - r.LeftEdge().start.y == r.Height()
    ensures r.RightEdge().start.x == r.RightEdge().end.x && r.RightEdge().end.y - r.RightEdge().start.y == r.Height()
    ensures r.TopEdge().start.y == r.TopEdge().end.y && r.TopEdge().end.x - r.TopEdge().start.x == r.Width()
    ensures r.BottomEdge().start.y == r.BottomEdge().end.y && r.BottomEdge().end.x - r.BottomEdge().start.x == r.Width()
    ensures r.LeftEdge().end == r.BottomEdge().start && r.TopEdge().end == r.RightEdge().start
    ensures r.IsEmpty() <==> r.Width() <= 0 || r.Height() <= 0
  {
  }

  /** `contains` in terms of the sides: `other`'s sides lie within this rect's. */
  lemma ContainsIff(r: Rect, other: Rect)
    ensures r.Contains(other) <==>
      (r.Top() <= other.Top() && r.Left() <= other.Left() && other.Bottom() <= r.Bottom() && other.Right() <= r.Right())
  {
  }

  /** A rect that contains another contains each of its pixels. */
  lemma ContainsPoints(r: Rect, other: Rect, p: Point)
    requires r.Contains(other) && other.ContainsPoint(p)
    ensures r.ContainsPoint(p)
  {
    ContainsIff(r, other);
  }

  /** The union contains both rects, and every rect containing both contains the union. */
  lemma UnionIsLeast(a: Rect, b: Rect, c: Rect)
    ensures a.Union(b).Contains(a) && a.Union(b).Contains(b)
    ensures c.Contains(a) && c.Contains(b) ==> c.Contains(a.Union(b))
    ensures a.Contains(b) <==> a.Union(b) == a
  {
    ContainsIff(a.Union(b), a);
    ContainsIff(a.Union(b), b);
    ContainsIff(c, a);
    ContainsIff(c, b);
    ContainsIff(c, a.Union(b));
  }

  /** The clamped rect lies in the boundary; its pixels are the ones both rects share. */
  lemma ClampIsIntersection(r: Rect, boundary: Rect, p: Point)
    ensures boundary.Contains(r.Clamp(boundary))
    ensures r.Clamp(boundary).ContainsPoint(p) <==> r.ContainsPoint(p) && boundary.ContainsPoint(p)
    ensures boundary.Contains(r) ==> r.Clamp(boundary) == r
    ensures r.Clamp(boundary).Clamp(boundary) == r.Clamp(boundary)
  {
    ContainsIff(boundary, r.Clamp(boundary));
    ContainsIff(boundary, r);
  }

  /** The two cases of the source's `clamp` test. */
  lemma ClampExamples()
    ensures FromTlbr(-5, -10, 100, 200).Clamp(FromTlbr(0, 0, 50, 100)) == FromTlbr(0, 0, 50, 100)
    ensures FromTlbr(5, 10, 40, 80).Clamp(FromTlbr(0, 0, 50, 100)) == FromTlbr(5, 10, 40, 80)
  {
    ClampIsIntersection(FromTlbr(5, 10, 40, 80), FromTlbr(0, 0, 50, 100), Point(0, 0));
  }

  /** For ordered rects, `intersects` holds exactly when some pixel lies in both, that is when the clamp is not empty. */
  lemma IntersectsIff(a: Rect, b: Rect)
    requires a.Ordered() && b.Ordered()
    ensures a.Intersects(b) <==> exists p :: a.ContainsPoint(p) && b.ContainsPoint(p)
    ensures a.Intersects(b) <==> !a.Clamp(b).IsEmpty()
  {
    OverlapIsIntersection((a.Top(), a.Bottom()), (b.Top(), b.Bottom()));
    OverlapIsIntersection((a.Left(), a.Right()), (b.Left(), b.Right()));
    if a.Intersects(b) {
      var p := Point(Max(a.Top(), b.Top()), Max(a.Left(), b.Left()));
      assert a.ContainsPoint(p) && b.ContainsPoint(p);
    }
  }

  /**
   * `center` as written: Rust's `/` truncates towards zero, so for negative
   * coordinates the midpoint is rounded up.
   */
  function CenterAsWritten(r: Rect): (c: Point)
    ensures r.Top() + r.Bottom() >= 0 ==> c.y == (r.Top() + r.Bottom()) / 2
    ensures r.Left() + r.Right() >= 0 ==> c.x == (r.Left() + r.Right()) / 2
  {
    Point(TruncHalf(r.Top() + r.Bottom()), TruncHalf(r.Left() + r.Right()))
  }

  /** `v / 2` rounded towards zero, as Rust's integer division does. */
  function TruncHalf(v: int): (r: int)
    ensures v >= 0 ==> r == v / 2
    ensures v < 0 ==> r == -((-v) / 2)
  {
    if v >= 0 then v / 2 else -((-v) / 2)
  }

  /** The center rounded down, which lies in every non-empty rect. */
  function Center(r: Rect): (c: Point)
    ensures !r.IsEmpty() ==> r.ContainsPoint(c)
    ensures r.Top() + r.Bottom() >= 0 && r.Left() + r.Right() >= 0 ==> c == CenterAsWritten(r)
  {
    Point((r.Top() + r.Bottom()) / 2, (r.Left() + r.Right()) / 2)
  }

  /** Counterexample: the one-pixel rect at (-3, -3) has its written center at (-2, -2), outside it. */
  lemma CenterOutsideRect()
    ensures !FromTlbr(-3, -3, -2, -2).IsEmpty()
    ensures CenterAsWritten(FromTlbr(-3, -3, -2, -2)) == Point(-2, -2)
    ensures !FromTlbr(-3, -3, -2, -2).ContainsPoint(CenterAsWritten(FromTlbr(-3, -3, -2, -2)))
    ensures Center(FromTlbr(-3, -3, -2, -2)) == Point(-3, -3)
  {
    assert TruncHalf(-5) == -2;
  }

  // ---------------------------------------------------------------------------
  // Bounding box
  // ---------------------------------------------------------------------------

  /** `box` contains every point, and each of its sides touches one of them. */
  predicate Bounds(box: Rect, points: seq<Point>)
  {
    (forall i :: 0 <= i < |points| ==> box.ContainsPoint(points[i])) &&
    (exists i :: 0 <= i < |points| && points[i].y == box.Top()) &&
    (exists i :: 0 <= i < |points| && points[i].x == box.Left()) &&
    (exists i :: 0 <= i < |points| && points[i].y + 1 == box.Bottom()) &&
    (exists i :: 0 <= i < |points| && points[i].x + 1 == box.Right())
  }

  /** A tight box is the smallest rect containing the points, so there is only one. */
  lemma BoundsIsLeast(box: Rect, points: seq<Point>, other: Rect)
    requires Bounds(box, points)
    requires forall i :: 0 <= i < |points| ==> other.ContainsPoint(points[i])
    ensures other.Contains(box)
  {
    ContainsIff(other, box);
  }

  lemma BoundsUnique(box: Rect, other: Rect, points: seq<Point>)
    requires Bounds(box, points) && Bounds(other, points)
    ensures box == other
  {
    BoundsIsLeast(box, points, other);
    BoundsIsLeast(other, points, box);
    ContainsIff(box, other);
    ContainsIff(other, box);
  }

  /**
   * `bounding_box`, which panics (here `None`) on an empty list. The box
   * starts as the first point's pixel and grows to take in each point.
   */
  method BoundingBox(points: seq<Point>) returns (r: Option<Rect>)
    ensures r.Some? <==> |points| > 0
    ensures r.Some? ==> Bounds(r.value, points)
  {
    if |points| == 0 {
      return None;
    }
    var left := points[0].x;
    var top := points[0].y;
    var right := left + 1;
    var bottom := top + 1;
    for i := 0 to |points|
      invariant forall j :: 0 <= j < i ==> FromTlbr(top, left, bottom, right).ContainsPoint(points[j])
      invariant exists j :: 0 <= j < |points| && points[j].y == top
      invariant exists j :: 0 <= j < |points| && points[j].x == left
      invariant exists j :: 0 <= j < |points| && points[j].y + 1 == bottom
      invariant exists j :: 0 <= j < |points| && points[j].x + 1 == right
      invariant top < bottom && left < right
    {
      var p := points[i];
      left := Min(left, p.x);
      right := Max(right, p.x + 1);
      top := Min(top, p.y);
      bottom := Max(bottom, p.y + 1);
    }
    r := Some(FromTlbr(top, left, bottom, right));
  }

  /** The four corner pixels of a non-empty rect are bounded by that rect. */
  lemma CornersBoundRect(r: Rect)
    requires !r.IsEmpty()
    ensures Bounds(r, [r.topLeft, Point(r.Top(), r.Right() - 1), Point(r.Bottom() - 1, r.Left()), Point(r.Bottom() - 1, r.Right() - 1)])
  {
    var pts := [r.topLeft, Point(r.Top(), r.Right() - 1), Point(r.Bottom() - 1, r.Left()), Point(r.Bottom() - 1, r.Right() - 1)];
    assert pts[0].y == r.Top() && pts[0].x == r.Left();
    assert pts[3].y + 1 == r.Bottom() && pts[3].x + 1 == r.Right();
  }
}
