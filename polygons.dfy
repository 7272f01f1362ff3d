/**
 * `Polygons` from `src/geometry.rs`: many polygons kept in one flat point
 * buffer, with the range of buffer positions each polygon occupies, and the
 * iterator that hands the polygons back one slice at a time.
 */
module PolygonsBuffer {
  import opened Wrappers
  import opened Geometry

  /** A `Range<usize>`: positions `start` up to, not including, `end`. */
  datatype Span = Span(start: nat, end: nat)

  /** The spans are in order and lie in a buffer of `n` points. */
  predicate SpansIn(spans: seq<Span>, n: nat)
  {
    forall i :: 0 <= i < |spans| ==> spans[i].start <= spans[i].end <= n
  }

  /** The slice of `points` each span covers, in span order. */
  function Slices(points: seq<Point>, spans: seq<Span>): (r: seq<seq<Point>>)
    requires SpansIn(spans, |points|)
    ensures |r| == |spans|
    ensures forall i :: 0 <= i < |spans| ==> r[i] == points[spans[i].start..spans[i].end]
  {
    seq(|spans|, i requires 0 <= i < |spans| => points[spans[i].start..spans[i].end])
  }

  /** Growing the buffer at its end does not change the slices of spans inside the old buffer. */
  lemma SlicesExtend(points: seq<Point>, more: seq<Point>, spans: seq<Span>)
    requires SpansIn(spans, |points|)
    ensures SpansIn(spans, |points + more|)
    ensures Slices(points + more, spans) == Slices(points, spans)
  {
    var a, b := Slices(points + more, spans), Slices(points, spans);
    forall i | 0 <= i < |spans|
      ensures a[i] == b[i]
    {
      assert (points + more)[spans[i].start..spans[i].end] == points[spans[i].start..spans[i].end];
    }
  }

  class Polygons {
    var points: seq<Point>
    var polygons: seq<Span>

    ghost predicate Valid()
      reads this
    {
      SpansIn(polygons, |points|)
    }

    /** The polygons in the collection, in the order they were pushed. */
    function Items(): (r: seq<seq<Point>>)
      reads this
      requires Valid()
      ensures |r| == |polygons|
    {
      Slices(points, polygons)
    }

    constructor ()
      ensures Valid() && Items() == []
    {
      points := [];
      polygons := [];
    }

    /** Appends `ps` as a new polygon at the end of the collection. */
    method Push(ps: seq<Point>)
      requires Valid()
      modifies this
      ensures Valid()
      ensures Items() == old(Items()) + [ps]
    {
      var span := Span(|points|, |points| + |ps|);
      SlicesExtend(points, ps, polygons);
      polygons := polygons + [span];
      points := points + ps;
      assert Items()[|polygons| - 1] == ps;
      assert Items()[..|polygons| - 1] == old(Items());
    }

    method Len() returns (n: nat)
      requires Valid()
      ensures n == |Items()|
    {
      n := |polygons|;
    }

    method IsEmpty() returns (b: bool)
      requires Valid()
      ensures b <==> Items() == []
    {
      b := |polygons| == 0;
    }

    /** An iterator over the polygons, which shares this collection's buffers. */
    method Iter() returns (it: PolygonsIter)
      requires Valid()
      ensures fresh(it) && it.Valid()
      ensures it.Remaining() == Items()
    {
      it := new PolygonsIter(points, polygons);
    }
  }

  /** `PolygonsIter`: the point buffer and the spans not yet handed out. */
  class PolygonsIter {
    const points: seq<Point>
    var spans: seq<Span>

    ghost predicate Valid()
      reads this
    {
      SpansIn(spans, |points|)
    }

    /** The polygons still to come, in order. */
    function Remaining(): (r: seq<seq<Point>>)
      reads this
      requires Valid()
      ensures |r| == |spans|
    {
      Slices(points, spans)
    }

    constructor (points: seq<Point>, spans: seq<Span>)
      requires SpansIn(spans, |points|)
      ensures Valid() && this.points == points && this.spans == spans
    {
      this.points := points;
      this.spans := spans;
    }

    /** The next polygon, or `None` once all have been handed out. */
    method Next() returns (r: Option<seq<Point>>)
      requires Valid()
      modifies this
      ensures Valid()
      ensures old(Remaining()) == [] ==> r == None && Remaining() == []
      ensures old(Remaining()) != [] ==> r == Some(old(Remaining())[0]) && Remaining() == old(Remaining())[1..]
    {
      if |spans| == 0 {
        return None;
      }
      var span := spans[0];
      r := Some(points[span.start..span.end]);
      spans := spans[1..];
      assert Remaining() == old(Remaining())[1..];
    }

    /** The exact number of polygons left, as both bounds of the size hint. */
    method SizeHint() returns (lower: nat, upper: Option<nat>)
      requires Valid()
      ensures lower == |Remaining()| && upper == Some(lower)
    {
      lower := |spans|;
      upper := Some(lower);
    }
  }

  /**
   * Pushing polygons and then iterating hands back exactly the pushed
   * polygons, in push order, and then `None`.
   */
  method PushThenIterate(a: seq<Point>, b: seq<Point>) returns (first: Option<seq<Point>>, second: Option<seq<Point>>, third: Option<seq<Point>>, count: nat)
    ensures first == Some(a) && second == Some(b) && third == None && count == 2
  {
    var polys := new Polygons();
    polys.Push(a);
    polys.Push(b);
    count := polys.Len();
    var it := polys.Iter();
    first := it.Next();
    second := it.Next();
    third := it.Next();
  }
}
