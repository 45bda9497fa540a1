module HitTest {
  // The stroke eraser: does the eraser path touch the rendered stroke? The code rejects far strokes with a bounding-box test;
  // here that shortcut is shown to be exact, and the answer to be the one given by the points of the two paths themselves.

  import opened Geometry

  /** Infinite is the distance to an empty polyline; distances are squared. */
  datatype Distance = Infinite | Squared(sq: real)

  predicate Closer(a: Distance, b: Distance) {
    a.Squared? && (b.Infinite? || a.sq < b.sq)
  }

  /** The points of a polyline: a single point, or everything on its segments. */
  ghost predicate OnPolyline(line: seq<Pt>, q: Pt) {
    (|line| == 1 && q == line[0]) || exists i :: 1 <= i < |line| && OnSegment(line[i - 1], line[i], q)
  }

  /** d is the smallest squared distance between a point of `a` and a point of `b`. */
  ghost predicate IsDistanceBetween(a: seq<Pt>, b: seq<Pt>, d: Distance) {
    if a == [] || b == [] then d.Infinite?
    else
      && d.Squared?
      && (forall p, q :: OnPolyline(a, p) && OnPolyline(b, q) ==> d.sq <= DistanceSq(p, q))
      && (exists p, q :: OnPolyline(a, p) && OnPolyline(b, q) && DistanceSq(p, q) == d.sq)
  }

  method DistanceToPolyline(p: Pt, line: seq<Pt>) returns (best: Distance)
    ensures IsDistanceBetween([p], line, best)
  {
    if line == [] { return Infinite; }
    if |line| == 1 {
      OnlyPoint(p);
      OnlyPoint(line[0]);
      assert line == [line[0]];
      return Squared(DistanceSq(p, line[0]));
    }
    best := Infinite;
    ghost var at := p;
    for i := 1 to |line|
      invariant i == 1 <==> best.Infinite?
      invariant best.Squared? ==> forall k, q :: 1 <= k < i && OnSegment(line[k - 1], line[k], q) ==> best.sq <= DistanceSq(p, q)
      invariant best.Squared? ==> OnPolyline(line, at) && DistanceSq(p, at) == best.sq
    {
      var d := Squared(DistanceSqToSegment(p, line[i - 1], line[i]));
      NearestOnSegment(p, line[i - 1], line[i]);
      ghost var nearest := At(line[i - 1], line[i], NearestParam(p, line[i - 1], line[i]));
      if Closer(d, best) {
        best := d;
        at := nearest;
      }
    }
    OnlyPoint(p);
    assert OnPolyline([p], p) && OnPolyline(line, at) && DistanceSq(p, at) == best.sq;
  }

  lemma OnlyPoint(p: Pt)
    ensures forall q :: OnPolyline([p], q) <==> q == p
  {
  }

  lemma NearestOnSegment(p: Pt, a: Pt, b: Pt)
    ensures OnSegment(a, b, At(a, b, NearestParam(p, a, b)))
    ensures forall q :: OnSegment(a, b, q) ==> DistanceSqToSegment(p, a, b) <= DistanceSq(p, q)
  {
    NearestIsMinimum(p, a, b, 0.0);
    forall q | OnSegment(a, b, q) ensures DistanceSqToSegment(p, a, b) <= DistanceSq(p, q) {
      var t: real :| 0.0 <= t <= 1.0 && q == At(a, b, t);
      NearestIsMinimum(p, a, b, t);
    }
  }

  lemma NearestPairOfSegments(a: Pt, b: Pt, c: Pt, d: Pt)
    ensures forall p, q :: OnSegment(a, b, p) && OnSegment(c, d, q) ==> SegmentDistanceSq(a, b, c, d) <= DistanceSq(p, q)
    ensures SegmentDistanceSq(a, b, c, d) >= 0.0
  {
    forall p, q | OnSegment(a, b, p) && OnSegment(c, d, q) ensures SegmentDistanceSq(a, b, c, d) <= DistanceSq(p, q) {
      var s: real :| 0.0 <= s <= 1.0 && p == At(a, b, s);
      var t: real :| 0.0 <= t <= 1.0 && q == At(c, d, t);
      SegmentDistanceIsLowerBound(a, b, c, d, s, t);
    }
    var p, q := SegmentDistanceIsAttained(a, b, c, d);
    DistanceSqNonNegative(p, q);
  }

  lemma DistanceBetweenSymmetric(a: seq<Pt>, b: seq<Pt>, d: Distance)
    requires IsDistanceBetween(a, b, d)
    ensures IsDistanceBetween(b, a, d)
  {
    forall p, q ensures DistanceSq(p, q) == DistanceSq(q, p) { DistanceSqSymmetric(p, q); }
    if a != [] && b != [] {
      var p, q :| OnPolyline(a, p) && OnPolyline(b, q) && DistanceSq(p, q) == d.sq;
      assert DistanceSq(q, p) == d.sq;
    }
  }

  ghost predicate PairApart(a: seq<Pt>, b: seq<Pt>, i: int, j: int, d: real)
    requires 1 <= i < |a| && 1 <= j < |b|
  {
    forall p, q :: OnSegment(a[i - 1], a[i], p) && OnSegment(b[j - 1], b[j], q) ==> d <= DistanceSq(p, q)
  }

  /** Every pair of segments visited before (row, column) is at least d apart. */
  ghost predicate SeenPairs(a: seq<Pt>, b: seq<Pt>, row: int, column: int, d: real) {
    forall i, j :: 1 <= i < |a| && 1 <= j < |b| && (i < row || (i == row && j < column)) ==> PairApart(a, b, i, j, d)
  }

  ghost predicate Attained(a: seq<Pt>, b: seq<Pt>, d: real) {
    exists p, q :: OnPolyline(a, p) && OnPolyline(b, q) && DistanceSq(p, q) == d
  }

  lemma SeePair(a: seq<Pt>, b: seq<Pt>, i: int, j: int, best: Distance, next: Distance)
    requires 1 <= i < |a| && 1 <= j < |b|
    requires if best.Infinite? then i == 1 && j == 1 else SeenPairs(a, b, i, j, best.sq)
    requires next.Squared? && next.sq <= SegmentDistanceSq(a[i - 1], a[i], b[j - 1], b[j]) && (best.Squared? ==> next.sq <= best.sq)
    ensures SeenPairs(a, b, i, j + 1, next.sq)
  {
    forall i', j' | 1 <= i' < |a| && 1 <= j' < |b| && (i' < i || (i' == i && j' < j + 1)) ensures PairApart(a, b, i', j', next.sq) {
      if i' == i && j' == j {
        NearestPairOfSegments(a[i - 1], a[i], b[j - 1], b[j]);
      } else {
        assert PairApart(a, b, i', j', best.sq);
      }
    }
  }

  lemma AllPairsSeen(a: seq<Pt>, b: seq<Pt>, d: real)
    requires |a| > 1 && |b| > 1 && SeenPairs(a, b, |a|, 1, d) && Attained(a, b, d)
    ensures IsDistanceBetween(a, b, Squared(d))
  {
    forall p, q | OnPolyline(a, p) && OnPolyline(b, q) ensures d <= DistanceSq(p, q) {
      var i :| 1 <= i < |a| && OnSegment(a[i - 1], a[i], p);
      var j :| 1 <= j < |b| && OnSegment(b[j - 1], b[j], q);
      assert PairApart(a, b, i, j, d);
    }
  }

  lemma AttainedBySegments(a: seq<Pt>, b: seq<Pt>, i: int, j: int)
    requires 1 <= i < |a| && 1 <= j < |b|
    ensures Attained(a, b, SegmentDistanceSq(a[i - 1], a[i], b[j - 1], b[j]))
  {
    var p, q := SegmentDistanceIsAttained(a[i - 1], a[i], b[j - 1], b[j]);
    assert OnPolyline(a, p) && OnPolyline(b, q);
  }

  method PolylineDistance(a: seq<Pt>, b: seq<Pt>) returns (best: Distance)
    ensures IsDistanceBetween(a, b, best)
  {
    if a == [] || b == [] { return Infinite; }
    if |a| == 1 {
      best := DistanceToPolyline(a[0], b);
      assert a == [a[0]];
      return;
    }
    if |b| == 1 {
      best := DistanceToPolyline(b[0], a);
      assert b == [b[0]];
      DistanceBetweenSymmetric([b[0]], a, best);
      return;
    }
    best := Infinite;
    for i := 1 to |a|
      invariant i == 1 <==> best.Infinite?
      invariant best.Squared? ==> SeenPairs(a, b, i, 1, best.sq) && Attained(a, b, best.sq)
    {
      for j := 1 to |b|
        invariant i == 1 && j == 1 <==> best.Infinite?
        invariant best.Squared? ==> SeenPairs(a, b, i, j, best.sq) && Attained(a, b, best.sq)
      {
        var d := SegmentDistanceSq(a[i - 1], a[i], b[j - 1], b[j]);
        AttainedBySegments(a, b, i, j);
        if d == 0.0 {
          ZeroIsDistance(a, b);
          return Squared(0.0);
        }
        var next := if Closer(Squared(d), best) then Squared(d) else best;
        SeePair(a, b, i, j, best, next);
        best := next;
      }
      NextRow(a, b, i, best.sq);
    }
    AllPairsSeen(a, b, best.sq);
  }

  lemma NextRow(a: seq<Pt>, b: seq<Pt>, i: int, d: real)
    requires SeenPairs(a, b, i, |b|, d)
    ensures SeenPairs(a, b, i + 1, 1, d)
  {
  }

  lemma ZeroIsDistance(a: seq<Pt>, b: seq<Pt>)
    requires a != [] && b != [] && Attained(a, b, 0.0)
    ensures IsDistanceBetween(a, b, Squared(0.0))
  {
    forall x, y ensures 0.0 <= DistanceSq(x, y) { DistanceSqNonNegative(x, y); }
  }

  lemma PolylineInBox(line: seq<Pt>, box: Box, q: Pt)
    requires forall i :: 0 <= i < |line| ==> InBox(box, line[i])
    requires OnPolyline(line, q)
    ensures InBox(box, q)
  {
    if |line| == 1 && q == line[0] {
    } else {
      var i :| 1 <= i < |line| && OnSegment(line[i - 1], line[i], q);
      var t: real :| 0.0 <= t <= 1.0 && q == At(line[i - 1], line[i], t);
      ConvexBox(box, line[i - 1], line[i], t);
    }
  }

  /** Some point of the stroke is within `reach` of some point of the eraser path. */
  ghost predicate Touches(stroke: seq<Pt>, eraser: seq<Pt>, reach: real) {
    reach >= 0.0 && exists p, q :: OnPolyline(stroke, p) && OnPolyline(eraser, q) && DistanceSq(p, q) <= Sq(reach)
  }

  lemma FarBoxesDoNotTouch(stroke: seq<Pt>, eraser: seq<Pt>, reach: real, sb: Box, eb: Box)
    requires forall i :: 0 <= i < |stroke| ==> InBox(sb, stroke[i])
    requires forall i :: 0 <= i < |eraser| ==> InBox(eb, eraser[i])
    requires !BoxesIntersect(ExpandBox(sb, reach), eb)
    ensures !Touches(stroke, eraser, reach)
  {
    if reach >= 0.0 {
      forall p, q | OnPolyline(stroke, p) && OnPolyline(eraser, q) ensures DistanceSq(p, q) > Sq(reach) {
        PolylineInBox(stroke, sb, p);
        PolylineInBox(eraser, eb, q);
        ApartBoxes(sb, eb, reach, p, q);
      }
    }
  }

  /** The comparison `distance <= reach`, with both sides squared. */
  predicate Within(d: Distance, reach: real) {
    d.Squared? && reach >= 0.0 && d.sq <= Sq(reach)
  }

  lemma WithinMeansTouches(stroke: seq<Pt>, eraser: seq<Pt>, d: Distance, reach: real)
    requires IsDistanceBetween(stroke, eraser, d)
    ensures Within(d, reach) <==> Touches(stroke, eraser, reach)
  {
    if d.Squared? && reach >= 0.0 {
      if Touches(stroke, eraser, reach) {
        var p, q :| OnPolyline(stroke, p) && OnPolyline(eraser, q) && DistanceSq(p, q) <= Sq(reach);
        assert d.sq <= DistanceSq(p, q);
      }
    }
  }

  /** The hit test answers whether the paths come within reach of each other; the box test never changes that answer. */
  method HitTestStroke(stroke: seq<Pt>, strokeWidth: real, eraser: seq<Pt>, eraserRadius: real) returns (hit: bool)
    ensures hit <==> Touches(stroke, eraser, eraserRadius + strokeWidth / 2.0)
  {
    var sb := BoundingBox(stroke);
    var eb := BoundingBox(eraser);
    if sb.NoBox? || eb.NoBox? { return false; }
    var reach := eraserRadius + strokeWidth / 2.0;
    if !BoxesIntersect(ExpandBox(sb.box, reach), eb.box) {
      FarBoxesDoNotTouch(stroke, eraser, reach, sb.box, eb.box);
      return false;
    }
    var d := PolylineDistance(stroke, eraser);
    WithinMeansTouches(stroke, eraser, d, reach);
    hit := Within(d, reach);
  }
}
