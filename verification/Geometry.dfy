module Geometry {
  // Plane geometry of ink strokes over exact reals. Distances are compared through their squares, so no square root is
  // needed. The independent notion is "a point of the segment"; every distance below is shown to be a minimum over those.

  datatype Pt = Pt(x: real, y: real)

  /** A pen sample: position and pressure. */
  datatype InkPoint = InkPoint(x: real, y: real, p: real)

  function Pos(p: InkPoint): Pt { Pt(p.x, p.y) }

  function Min(a: real, b: real): real { if a <= b then a else b }

  function Max(a: real, b: real): real { if a >= b then a else b }

  function Sq(x: real): real { x * x }

  function DistanceSq(a: Pt, b: Pt): real {
    Sq(a.x - b.x) + Sq(a.y - b.y)
  }

  function Lerp(u: real, v: real, t: real): real { u + t * (v - u) }

  /** The point of the line through a and b at parameter t (0 is a, 1 is b). */
  function At(a: Pt, b: Pt, t: real): Pt {
    Pt(Lerp(a.x, b.x, t), Lerp(a.y, b.y, t))
  }

  ghost predicate OnSegment(a: Pt, b: Pt, q: Pt) {
    exists t: real :: 0.0 <= t <= 1.0 && q == At(a, b, t)
  }

  // ---------- point to segment ----------

  function LengthSq(a: Pt, b: Pt): real { DistanceSq(b, a) }

  function Dot(p: Pt, a: Pt, b: Pt): real {
    (p.x - a.x) * (b.x - a.x) + (p.y - a.y) * (b.y - a.y)
  }

  /** Clamped projection parameter of p on [a, b]; 0 on a degenerate segment. */
  function NearestParam(p: Pt, a: Pt, b: Pt): real {
    if LengthSq(a, b) == 0.0 then 0.0 else Max(0.0, Min(1.0, Dot(p, a, b) / LengthSq(a, b)))
  }

  function DistanceSqToSegment(p: Pt, a: Pt, b: Pt): real {
    DistanceSq(p, At(a, b, NearestParam(p, a, b)))
  }

  // Products are always named (z == x * y), so that the facts below stay linear where they are used.

  lemma ProductSign(x: real, y: real, z: real)
    requires z == x * y
    ensures x >= 0.0 && y >= 0.0 ==> z >= 0.0
    ensures x <= 0.0 && y <= 0.0 ==> z >= 0.0
    ensures x > 0.0 && y > 0.0 ==> z > 0.0
    ensures x < 0.0 && y < 0.0 ==> z > 0.0
  {
    if x > 0.0 && y > 0.0 {
      PositiveTimesPositive(x, y);
    } else if x < 0.0 && y < 0.0 {
      PositiveTimesPositive(-x, -y);
      assert (-x) * (-y) == x * y;
    } else if x == 0.0 {
      assert z == 0.0;
    } else if y == 0.0 {
      assert z == 0.0;
    }
  }

  lemma PositiveTimesPositive(x: real, y: real)
    requires x > 0.0 && y > 0.0
    ensures x * y > 0.0
  {
  }

  lemma ZeroFactor(x: real, y: real, z: real)
    requires x != 0.0 && z == x * y && z == 0.0
    ensures y == 0.0
  {
    if y > 0.0 { ProductSign(if x > 0.0 then x else -x, y, if x > 0.0 then z else -z); }
    if y < 0.0 { ProductSign(if x > 0.0 then x else -x, -y, if x > 0.0 then -z else z); }
  }

  lemma SqSign(x: real)
    ensures Sq(x) >= 0.0
    ensures x != 0.0 ==> Sq(x) > 0.0
  {
    ProductSign(x, x, Sq(x));
  }

  lemma SqOver(x: real, r: real)
    requires r >= 0.0 && (x > r || -x > r)
    ensures Sq(x) > Sq(r)
  {
    var y := if x > r then x else -x;
    assert Sq(x) == y * y;
    ProductSign(y, y - r, y * (y - r));
    ProductSign(r, y - r, r * (y - r));
    SquareGap(y, r, y * (y - r), r * (y - r));
  }

  lemma SquareGap(y: real, r: real, u: real, v: real)
    requires u == y * (y - r) && v == r * (y - r)
    ensures Sq(y) - Sq(r) == u + v
  {
  }

  lemma SqScaled(f: real, x: real)
    requires 0.0 <= f <= 1.0
    ensures Sq(f * x) <= Sq(x)
  {
    SqSign(x);
    ProductSign(1.0 - f, 1.0 + f, (1.0 - f) * (1.0 + f));
    ProductSign((1.0 - f) * (1.0 + f), Sq(x), (1.0 - f) * (1.0 + f) * Sq(x));
    ScaledSquareGap(f, x);
  }

  lemma ScaledSquareGap(f: real, x: real)
    ensures Sq(x) - Sq(f * x) == (1.0 - f) * (1.0 + f) * Sq(x)
  {
  }

  lemma LengthSqZero(a: Pt, b: Pt)
    ensures LengthSq(a, b) >= 0.0
    ensures LengthSq(a, b) == 0.0 <==> a == b
  {
    SqSign(b.x - a.x);
    SqSign(b.y - a.y);
  }

  lemma DistanceSqNonNegative(a: Pt, b: Pt)
    ensures DistanceSq(a, b) >= 0.0
  {
    SqSign(a.x - b.x);
    SqSign(a.y - b.y);
  }

  function Parabola(D: real, L: real, t: real): real { t * t * L - 2.0 * t * D }

  lemma SqAlong(w: real, u: real, t: real)
    ensures Sq(w - t * u) == Sq(w) + Parabola(w * u, Sq(u), t)
  {
  }

  lemma ParabolaAdds(d1: real, d2: real, l1: real, l2: real, t: real)
    ensures Parabola(d1 + d2, l1 + l2, t) == Parabola(d1, l1, t) + Parabola(d2, l2, t)
  {
  }

  lemma AxisAlong(p: real, a: real, b: real, t: real)
    ensures Sq(p - Lerp(a, b, t)) == Sq(p - a) + Parabola((p - a) * (b - a), Sq(b - a), t)
  {
    SqAlong(p - a, b - a, t);
    assert p - Lerp(a, b, t) == (p - a) - t * (b - a);
  }

  lemma DistanceSqAlong(p: Pt, a: Pt, b: Pt, t: real)
    ensures DistanceSq(p, At(a, b, t)) == DistanceSq(p, a) + Parabola(Dot(p, a, b), LengthSq(a, b), t)
  {
    AxisAlong(p.x, a.x, b.x, t);
    AxisAlong(p.y, a.y, b.y, t);
    ParabolaAdds((p.x - a.x) * (b.x - a.x), (p.y - a.y) * (b.y - a.y), Sq(b.x - a.x), Sq(b.y - a.y), t);
  }

  /** The clamped vertex minimises L t^2 - 2 D t on [0, 1]. */
  lemma ClampedVertexMinimises(D: real, L: real, c: real, t: real)
    requires L > 0.0 && 0.0 <= t <= 1.0
    requires c == Max(0.0, Min(1.0, D / L))
    ensures Parabola(D, L, t) >= Parabola(D, L, c)
  {
    var q := D / L;
    assert q * L == D;
    var slope := t + c - 2.0 * q;
    assert (t - c >= 0.0 && slope >= 0.0) || (t - c <= 0.0 && slope <= 0.0);
    ProductSign(t - c, slope, (t - c) * slope);
    ProductSign((t - c) * slope, L, (t - c) * slope * L);
    VertexGap(D, L, q, c, t);
  }

  lemma VertexGap(D: real, L: real, q: real, c: real, t: real)
    requires q * L == D
    ensures Parabola(D, L, t) - Parabola(D, L, c) == (t - c) * (t + c - 2.0 * q) * L
  {
    assert t * D == t * q * L && c * D == c * q * L;
  }

  /** distanceToSegment is the distance to the closest point of the segment. */
  lemma NearestIsMinimum(p: Pt, a: Pt, b: Pt, t: real)
    requires 0.0 <= t <= 1.0
    ensures DistanceSqToSegment(p, a, b) <= DistanceSq(p, At(a, b, t))
    ensures OnSegment(a, b, At(a, b, NearestParam(p, a, b)))
  {
    var c := NearestParam(p, a, b);
    assert 0.0 <= c <= 1.0;
    LengthSqZero(a, b);
    if LengthSq(a, b) == 0.0 {
      assert At(a, b, t) == a == At(a, b, c);
    } else {
      DistanceSqAlong(p, a, b, t);
      DistanceSqAlong(p, a, b, c);
      ClampedVertexMinimises(Dot(p, a, b), LengthSq(a, b), c, t);
    }
  }

  // ---------- intersection ----------

  function Cross(o: Pt, a: Pt, b: Pt): real {
    (a.x - o.x) * (b.y - o.y) - (a.y - o.y) * (b.x - o.x)
  }

  predicate InSegmentBox(a: Pt, b: Pt, p: Pt) {
    Min(a.x, b.x) <= p.x <= Max(a.x, b.x) && Min(a.y, b.y) <= p.y <= Max(a.y, b.y)
  }

  predicate SegmentsIntersect(a: Pt, b: Pt, c: Pt, d: Pt) {
    var d1 := Cross(c, d, a);
    var d2 := Cross(c, d, b);
    var d3 := Cross(a, b, c);
    var d4 := Cross(a, b, d);
    if ((d1 > 0.0 && d2 < 0.0) || (d1 < 0.0 && d2 > 0.0)) && ((d3 > 0.0 && d4 < 0.0) || (d3 < 0.0 && d4 > 0.0)) then true
    else
      || (d1 == 0.0 && InSegmentBox(c, d, a))
      || (d2 == 0.0 && InSegmentBox(c, d, b))
      || (d3 == 0.0 && InSegmentBox(a, b, c))
      || (d4 == 0.0 && InSegmentBox(a, b, d))
  }

  /** Parameter of p on a line it is known to lie on. */
  function ParamOf(c: Pt, d: Pt, p: Pt): real {
    if c.x != d.x then (p.x - c.x) / (d.x - c.x) else if c.y != d.y then (p.y - c.y) / (d.y - c.y) else 0.0
  }

  lemma QuotientInUnit(n: real, d: real)
    requires d != 0.0 && ((0.0 <= n <= d) || (d <= n <= 0.0))
    ensures 0.0 <= n / d <= 1.0
    ensures n / d * d == n
  {
    var q := n / d;
    assert q * d == n;
    var m, e := if d > 0.0 then d else -d, if d > 0.0 then n else -n;
    assert q * m == e;
    if q < 0.0 { ProductSign(-q, m, -e); }
    if q > 1.0 { ProductSign(q - 1.0, m, e - m); }
  }

  /** On the line of direction (m, h), the ordinate follows from the abscissa. */
  lemma LineOrdinate(m: real, h: real, n: real, g: real, t: real)
    requires m != 0.0 && t * m == n && m * g == h * n
    ensures g == t * h
  {
    assert h * n == m * (t * h);
    assert m * (g - t * h) == m * g - m * (t * h);
    ZeroFactor(m, g - t * h, m * (g - t * h));
  }

  lemma CollinearByX(c: Pt, d: Pt, p: Pt, t: real)
    requires Cross(c, d, p) == 0.0 && c.x != d.x && t * (d.x - c.x) == p.x - c.x
    ensures p == At(c, d, t)
  {
    LineOrdinate(d.x - c.x, d.y - c.y, p.x - c.x, p.y - c.y, t);
  }

  lemma CollinearInBox(c: Pt, d: Pt, p: Pt)
    requires Cross(c, d, p) == 0.0 && InSegmentBox(c, d, p)
    ensures 0.0 <= ParamOf(c, d, p) <= 1.0 && p == At(c, d, ParamOf(c, d, p))
  {
    if c.x != d.x {
      QuotientInUnit(p.x - c.x, d.x - c.x);
      CollinearByX(c, d, p, ParamOf(c, d, p));
    } else if c.y != d.y {
      QuotientInUnit(p.y - c.y, d.y - c.y);
    }
  }

  lemma PointInBox(a: Pt, b: Pt, t: real)
    requires 0.0 <= t <= 1.0
    ensures InSegmentBox(a, b, At(a, b, t))
  {
    Between(a.x, b.x, t);
    Between(a.y, b.y, t);
  }

  lemma OnSegmentInBox(a: Pt, b: Pt, q: Pt)
    requires OnSegment(a, b, q)
    ensures InSegmentBox(a, b, q)
    ensures a == b ==> q == a
  {
    var t: real :| 0.0 <= t <= 1.0 && q == At(a, b, t);
    PointInBox(a, b, t);
  }

  lemma Between(u: real, v: real, t: real)
    requires 0.0 <= t <= 1.0
    ensures Min(u, v) <= Lerp(u, v, t) <= Max(u, v)
  {
    ProductSign(t, v - u, t * (v - u));
    ProductSign(1.0 - t, v - u, (v - u) - t * (v - u));
    ProductSign(t, u - v, -(t * (v - u)));
    ProductSign(1.0 - t, u - v, t * (v - u) - (v - u));
  }

  /** Cross product of the two directions. */
  function Turn(a: Pt, b: Pt, c: Pt, d: Pt): real {
    (b.x - a.x) * (d.y - c.y) - (b.y - a.y) * (d.x - c.x)
  }

  lemma CrossDifferences(a: Pt, b: Pt, c: Pt, d: Pt)
    ensures Cross(c, d, a) - Cross(c, d, b) == Turn(a, b, c, d)
    ensures Cross(a, b, c) - Cross(a, b, d) == -Turn(a, b, c, d)
  {
  }

  /** Where two non-parallel lines meet, as parameters on both (Cramer's rule). */
  lemma LinesMeet(a: Pt, b: Pt, c: Pt, d: Pt)
    requires Turn(a, b, c, d) != 0.0
    ensures At(a, b, Cross(c, d, a) / Turn(a, b, c, d)) == At(c, d, -Cross(a, b, c) / Turn(a, b, c, d))
  {
    var den := Turn(a, b, c, d);
    var s, t := Cross(c, d, a) / den, -Cross(a, b, c) / den;
    var ux, uy, vx, vy, wx, wy := b.x - a.x, b.y - a.y, d.x - c.x, d.y - c.y, c.x - a.x, c.y - a.y;
    CramerIdentity(ux, uy, vx, vy, wx, wy);
    assert s * den == wx * vy - wy * vx && t * den == wx * uy - wy * ux;
    CramerRow(ux, vx, wx, den, s, t, s * den, t * den);
    CramerRow(uy, vy, wy, den, s, t, s * den, t * den);
  }

  lemma CramerIdentity(ux: real, uy: real, vx: real, vy: real, wx: real, wy: real)
    ensures (wx * vy - wy * vx) * ux - (wx * uy - wy * ux) * vx == (ux * vy - uy * vx) * wx
    ensures (wx * vy - wy * vx) * uy - (wx * uy - wy * ux) * vy == (ux * vy - uy * vx) * wy
  {
  }

  lemma CramerRow(u: real, v: real, w: real, den: real, s: real, t: real, sd: real, td: real)
    requires den != 0.0 && sd == s * den && td == t * den
    requires sd * u - td * v == den * w
    ensures s * u - t * v == w
  {
    RowProducts(u, v, w, den, s, t);
    ZeroFactor(den, s * u - t * v - w, den * (s * u - t * v - w));
  }

  lemma RowProducts(u: real, v: real, w: real, den: real, s: real, t: real)
    ensures den * (s * u - t * v - w) == (s * den) * u - (t * den) * v - den * w
  {
  }

  /** A positive test always comes with a point common to both segments. */
  lemma IntersectionIsShared(a: Pt, b: Pt, c: Pt, d: Pt) returns (s: real, t: real)
    requires SegmentsIntersect(a, b, c, d)
    ensures 0.0 <= s <= 1.0 && 0.0 <= t <= 1.0 && At(a, b, s) == At(c, d, t)
  {
    var d1, d2, d3, d4 := Cross(c, d, a), Cross(c, d, b), Cross(a, b, c), Cross(a, b, d);
    CrossDifferences(a, b, c, d);
    if ((d1 > 0.0 && d2 < 0.0) || (d1 < 0.0 && d2 > 0.0)) && ((d3 > 0.0 && d4 < 0.0) || (d3 < 0.0 && d4 > 0.0)) {
      s, t := d1 / Turn(a, b, c, d), -d3 / Turn(a, b, c, d);
      QuotientInUnit(d1, Turn(a, b, c, d));
      QuotientInUnit(-d3, Turn(a, b, c, d));
      LinesMeet(a, b, c, d);
    } else if d1 == 0.0 && InSegmentBox(c, d, a) {
      CollinearInBox(c, d, a);
      s, t := 0.0, ParamOf(c, d, a);
    } else if d2 == 0.0 && InSegmentBox(c, d, b) {
      CollinearInBox(c, d, b);
      s, t := 1.0, ParamOf(c, d, b);
    } else if d3 == 0.0 && InSegmentBox(a, b, c) {
      CollinearInBox(a, b, c);
      s, t := ParamOf(a, b, c), 0.0;
    } else {
      CollinearInBox(a, b, d);
      s, t := ParamOf(a, b, d), 1.0;
    }
  }

  lemma CrossAlong(c: Pt, d: Pt, a: Pt, b: Pt, s: real)
    ensures Cross(c, d, At(a, b, s)) == Cross(c, d, a) + s * (Cross(c, d, b) - Cross(c, d, a))
  {
  }

  lemma CrossOnLine(c: Pt, d: Pt, t: real)
    ensures Cross(c, d, At(c, d, t)) == 0.0
  {
  }

  /** Two intervals with a common value: one endpoint lies in the other interval. */
  lemma IntervalsShareEndpoint(a: real, b: real, c: real, d: real, x: real)
    requires Min(a, b) <= x <= Max(a, b) && Min(c, d) <= x <= Max(c, d)
    ensures || Min(c, d) <= a <= Max(c, d) || Min(c, d) <= b <= Max(c, d)
            || Min(a, b) <= c <= Max(a, b) || Min(a, b) <= d <= Max(a, b)
  {
  }

  /** On a non-vertical line, being in range horizontally is being in the box. */
  lemma InBoxFromX(c: Pt, d: Pt, p: Pt)
    requires c.x != d.x && Cross(c, d, p) == 0.0 && Min(c.x, d.x) <= p.x <= Max(c.x, d.x)
    ensures InSegmentBox(c, d, p)
  {
    var t := (p.x - c.x) / (d.x - c.x);
    QuotientInUnit(p.x - c.x, d.x - c.x);
    LineOrdinate(d.x - c.x, d.y - c.y, p.x - c.x, p.y - c.y, t);
    Between(c.y, d.y, t);
  }

  lemma InBoxFromY(c: Pt, d: Pt, p: Pt)
    requires c.y != d.y && Cross(c, d, p) == 0.0 && Min(c.y, d.y) <= p.y <= Max(c.y, d.y)
    ensures InSegmentBox(c, d, p)
  {
    var t := (p.y - c.y) / (d.y - c.y);
    QuotientInUnit(p.y - c.y, d.y - c.y);
    LineOrdinate(d.y - c.y, d.x - c.x, p.y - c.y, p.x - c.x, t);
    Between(c.x, d.x, t);
  }

  predicate SomeEndpointInBox(a: Pt, b: Pt, c: Pt, d: Pt) {
    InSegmentBox(c, d, a) || InSegmentBox(c, d, b) || InSegmentBox(a, b, c) || InSegmentBox(a, b, d)
  }

  predicate AllCollinear(a: Pt, b: Pt, c: Pt, d: Pt) {
    Cross(c, d, a) == 0.0 && Cross(c, d, b) == 0.0 && Cross(a, b, c) == 0.0 && Cross(a, b, d) == 0.0
  }

  lemma OverlapByX(a: Pt, b: Pt, c: Pt, d: Pt, q: Pt)
    requires AllCollinear(a, b, c, d) && InSegmentBox(a, b, q) && InSegmentBox(c, d, q) && a.x != b.x && c.x != d.x
    ensures SomeEndpointInBox(a, b, c, d)
  {
    IntervalsShareEndpoint(a.x, b.x, c.x, d.x, q.x);
    if Min(c.x, d.x) <= a.x <= Max(c.x, d.x) { InBoxFromX(c, d, a); }
    else if Min(c.x, d.x) <= b.x <= Max(c.x, d.x) { InBoxFromX(c, d, b); }
    else if Min(a.x, b.x) <= c.x <= Max(a.x, b.x) { InBoxFromX(a, b, c); }
    else { InBoxFromX(a, b, d); }
  }

  lemma OverlapByY(a: Pt, b: Pt, c: Pt, d: Pt, q: Pt)
    requires AllCollinear(a, b, c, d) && InSegmentBox(a, b, q) && InSegmentBox(c, d, q) && a.y != b.y && c.y != d.y
    ensures SomeEndpointInBox(a, b, c, d)
  {
    IntervalsShareEndpoint(a.y, b.y, c.y, d.y, q.y);
    if Min(c.y, d.y) <= a.y <= Max(c.y, d.y) { InBoxFromY(c, d, a); }
    else if Min(c.y, d.y) <= b.y <= Max(c.y, d.y) { InBoxFromY(c, d, b); }
    else if Min(a.y, b.y) <= c.y <= Max(a.y, b.y) { InBoxFromY(a, b, c); }
    else { InBoxFromY(a, b, d); }
  }

  /** Parallel non-degenerate directions are both non-vertical or both vertical. */
  lemma ParallelAxis(ux: real, uy: real, vx: real, vy: real)
    requires ux * vy == uy * vx && (ux != 0.0 || uy != 0.0) && (vx != 0.0 || vy != 0.0)
    ensures ux != 0.0 <==> vx != 0.0
  {
    if ux == 0.0 { ZeroFactor(uy, vx, uy * vx); }
    else if vx == 0.0 { ZeroFactor(ux, vy, ux * vy); }
  }

  lemma CollinearSameAxis(a: Pt, b: Pt, c: Pt, d: Pt)
    requires AllCollinear(a, b, c, d) && a != b && c != d
    ensures a.x != b.x <==> c.x != d.x
    ensures a.x == b.x ==> a.y != b.y && c.y != d.y
  {
    CrossDifferences(a, b, c, d);
    ParallelAxis(b.x - a.x, b.y - a.y, d.x - c.x, d.y - c.y);
  }

  lemma CollinearOverlap(a: Pt, b: Pt, c: Pt, d: Pt, q: Pt)
    requires OnSegment(a, b, q) && OnSegment(c, d, q) && AllCollinear(a, b, c, d)
    ensures SomeEndpointInBox(a, b, c, d)
  {
    OnSegmentInBox(a, b, q);
    OnSegmentInBox(c, d, q);
    if a == b || c == d {
    } else {
      CollinearSameAxis(a, b, c, d);
      if a.x != b.x { OverlapByX(a, b, c, d, q); } else { OverlapByY(a, b, c, d, q); }
    }
  }

  lemma OppositeOrZero(d1: real, d2: real, s: real)
    requires 0.0 <= s <= 1.0 && d1 + s * (d2 - d1) == 0.0
    ensures (d1 > 0.0 && d2 < 0.0) || (d1 < 0.0 && d2 > 0.0) || (d1 == 0.0 && d2 == 0.0) || (d1 == 0.0 && s == 0.0) || (d2 == 0.0 && s == 1.0)
  {
    assert d1 + s * (d2 - d1) == (1.0 - s) * d1 + s * d2;
    if d1 == 0.0 {
      if d2 != 0.0 { ZeroFactor(d2, s, s * d2); }
    } else if d2 == 0.0 {
      ZeroFactor(d1, 1.0 - s, (1.0 - s) * d1);
    } else {
      ProductSign(1.0 - s, d1, (1.0 - s) * d1);
      ProductSign(s, d2, s * d2);
      ProductSign(1.0 - s, -d1, -((1.0 - s) * d1));
      ProductSign(s, -d2, -(s * d2));
    }
  }

  /** segmentsIntersect answers true exactly when the closed segments have a common point. */
  lemma IntersectsIffShared(a: Pt, b: Pt, c: Pt, d: Pt)
    ensures SegmentsIntersect(a, b, c, d) <==> exists q :: OnSegment(a, b, q) && OnSegment(c, d, q)
  {
    if SegmentsIntersect(a, b, c, d) {
      var s, t := IntersectionIsShared(a, b, c, d);
      assert OnSegment(a, b, At(a, b, s)) && OnSegment(c, d, At(a, b, s));
    }
    if q :| OnSegment(a, b, q) && OnSegment(c, d, q) {
      var s: real :| 0.0 <= s <= 1.0 && q == At(a, b, s);
      var t: real :| 0.0 <= t <= 1.0 && q == At(c, d, t);
      SharedMeansIntersect(a, b, c, d, s, t);
    }
  }

  lemma SharedMeansIntersect(a: Pt, b: Pt, c: Pt, d: Pt, s: real, t: real)
    requires 0.0 <= s <= 1.0 && 0.0 <= t <= 1.0 && At(a, b, s) == At(c, d, t)
    ensures SegmentsIntersect(a, b, c, d)
  {
    var d1, d2, d3, d4 := Cross(c, d, a), Cross(c, d, b), Cross(a, b, c), Cross(a, b, d);
    CrossAlong(c, d, a, b, s);
    CrossOnLine(c, d, t);
    CrossAlong(a, b, c, d, t);
    CrossOnLine(a, b, s);
    OppositeOrZero(d1, d2, s);
    OppositeOrZero(d3, d4, t);
    PointInBox(a, b, s);
    PointInBox(c, d, t);
    CrossDifferences(a, b, c, d);
    if d1 == 0.0 && d2 == 0.0 {
      assert d3 == d4 == 0.0;
      assert OnSegment(a, b, At(a, b, s)) && OnSegment(c, d, At(a, b, s));
      CollinearOverlap(a, b, c, d, At(a, b, s));
    } else if d3 == 0.0 && d4 == 0.0 {
      assert false;
    } else if d1 == 0.0 {
      assert At(a, b, s) == a;
    } else if d2 == 0.0 {
      assert At(a, b, s) == b;
    } else if d3 == 0.0 {
      assert At(c, d, t) == c;
    } else if d4 == 0.0 {
      assert At(c, d, t) == d;
    }
  }

  // ---------- segment to segment ----------

  function SegmentDistanceSq(a: Pt, b: Pt, c: Pt, d: Pt): real {
    if SegmentsIntersect(a, b, c, d) then 0.0
    else Min(Min(DistanceSqToSegment(a, c, d), DistanceSqToSegment(b, c, d)), Min(DistanceSqToSegment(c, a, b), DistanceSqToSegment(d, a, b)))
  }

  /** How far one can go from x in [0, 1] towards target before leaving [0, 1]. */
  function ExitTime(x: real, target: real): real
    requires 0.0 <= x <= 1.0
  {
    if target > 1.0 then (1.0 - x) / (target - x) else if target < 0.0 then x / (x - target) else 1.0
  }

  lemma ExitTimeLeaves(x: real, target: real, k: real)
    requires 0.0 <= x <= 1.0 && 0.0 <= k <= ExitTime(x, target)
    ensures k <= 1.0 && 0.0 <= x + k * (target - x) <= 1.0
    ensures k == ExitTime(x, target) && !(0.0 <= target <= 1.0) ==> x + k * (target - x) == 0.0 || x + k * (target - x) == 1.0
  {
    var e := ExitTime(x, target);
    if target > 1.0 {
      QuotientInUnit(1.0 - x, target - x);
      ProductSign(e - k, target - x, (e - k) * (target - x));
      ProductSign(k, target - x, k * (target - x));
      assert (e - k) * (target - x) == e * (target - x) - k * (target - x);
    } else if target < 0.0 {
      QuotientInUnit(x, x - target);
      ProductSign(e - k, x - target, (e - k) * (x - target));
      ProductSign(k, x - target, k * (x - target));
      assert (e - k) * (x - target) == e * (x - target) + k * (target - x);
      assert k * (x - target) == -(k * (target - x));
    } else {
      Between(x, target, k);
    }
  }

  lemma ExitTimeNonNegative(x: real, target: real)
    requires 0.0 <= x <= 1.0
    ensures 0.0 <= ExitTime(x, target)
  {
    if target > 1.0 { QuotientInUnit(1.0 - x, target - x); }
    else if target < 0.0 { QuotientInUnit(x, x - target); }
  }

  /** Walking from (s, t) towards a pair of parameters outside the unit square reaches its boundary without moving apart,
      when the difference vector at the target is `keep` (0 or 1) times the one at the start. */
  lemma WalkToBoundary(a: Pt, b: Pt, c: Pt, d: Pt, s: real, t: real, s1: real, t1: real, keep: real) returns (s': real, t': real)
    requires 0.0 <= s <= 1.0 && 0.0 <= t <= 1.0
    requires !(0.0 <= s1 <= 1.0 && 0.0 <= t1 <= 1.0)
    requires keep == 0.0 || keep == 1.0
    requires At(a, b, s1).x - At(c, d, t1).x == keep * (At(a, b, s).x - At(c, d, t).x)
    requires At(a, b, s1).y - At(c, d, t1).y == keep * (At(a, b, s).y - At(c, d, t).y)
    ensures 0.0 <= s' <= 1.0 && 0.0 <= t' <= 1.0
    ensures s' == 0.0 || s' == 1.0 || t' == 0.0 || t' == 1.0
    ensures DistanceSq(At(a, b, s'), At(c, d, t')) <= DistanceSq(At(a, b, s), At(c, d, t))
  {
    ExitTimeNonNegative(s, s1);
    ExitTimeNonNegative(t, t1);
    var es, et := ExitTime(s, s1), ExitTime(t, t1);
    ExitTimeLeaves(s, s1, es);
    ExitTimeLeaves(t, t1, et);
    var k := Min(es, et);
    if k == 1.0 { assert es == 1.0 && et == 1.0; }
    ExitTimeLeaves(s, s1, k);
    ExitTimeLeaves(t, t1, k);
    s', t' := s + k * (s1 - s), t + k * (t1 - t);
    if 0.0 <= s1 <= 1.0 { assert es == 1.0; assert k == et; }
    else if 0.0 <= t1 <= 1.0 { assert et == 1.0; assert k == es; }
    ScaledDistance(a, b, c, d, s, t, s1, t1, k, keep);
  }

  lemma ScaledDistance(a: Pt, b: Pt, c: Pt, d: Pt, s: real, t: real, s1: real, t1: real, k: real, keep: real)
    requires 0.0 <= k <= 1.0 && (keep == 0.0 || keep == 1.0)
    requires At(a, b, s1).x - At(c, d, t1).x == keep * (At(a, b, s).x - At(c, d, t).x)
    requires At(a, b, s1).y - At(c, d, t1).y == keep * (At(a, b, s).y - At(c, d, t).y)
    ensures DistanceSq(At(a, b, s + k * (s1 - s)), At(c, d, t + k * (t1 - t))) <= DistanceSq(At(a, b, s), At(c, d, t))
  {
    var f := 1.0 - k + k * keep;
    var x, y := At(a, b, s).x - At(c, d, t).x, At(a, b, s).y - At(c, d, t).y;
    ScaledDifference(a.x, b.x, c.x, d.x, s, t, s1, t1, k, keep, x, keep * x);
    ScaledDifference(a.y, b.y, c.y, d.y, s, t, s1, t1, k, keep, y, keep * y);
    SqScaled(f, x);
    SqScaled(f, y);
  }

  lemma LerpStep(a: real, b: real, s: real, s1: real, k: real)
    ensures Lerp(a, b, s + k * (s1 - s)) == Lerp(a, b, s) + k * (Lerp(a, b, s1) - Lerp(a, b, s))
  {
  }

  lemma ScaledDifference(a: real, b: real, c: real, d: real, s: real, t: real, s1: real, t1: real, k: real, keep: real, x: real, x1: real)
    requires x == Lerp(a, b, s) - Lerp(c, d, t) && x1 == keep * x
    requires Lerp(a, b, s1) - Lerp(c, d, t1) == x1
    ensures Lerp(a, b, s + k * (s1 - s)) - Lerp(c, d, t + k * (t1 - t)) == (1.0 - k + k * keep) * x
  {
    LerpStep(a, b, s, s1, k);
    LerpStep(c, d, t, t1, k);
    CombineSteps(k, Lerp(a, b, s), Lerp(a, b, s1), Lerp(c, d, t), Lerp(c, d, t1), x, x1);
    assert (1.0 - k + k * keep) * x == x - k * x + k * x1;
  }

  lemma CombineSteps(k: real, p0: real, p1: real, q0: real, q1: real, x: real, x1: real)
    requires x == p0 - q0 && x1 == p1 - q1
    ensures (p0 + k * (p1 - p0)) - (q0 + k * (q1 - q0)) == x - k * x + k * x1
  {
    assert k * (p1 - p0) - k * (q1 - q0) == k * ((p1 - p0) - (q1 - q0));
  }

  lemma DistanceSqSymmetric(a: Pt, b: Pt)
    ensures DistanceSq(a, b) == DistanceSq(b, a)
  {
    assert Sq(a.x - b.x) == Sq(-(a.x - b.x)) && Sq(a.y - b.y) == Sq(-(a.y - b.y));
  }

  lemma AtMostEachEndpoint(a: Pt, b: Pt, c: Pt, d: Pt)
    requires !SegmentsIntersect(a, b, c, d)
    ensures SegmentDistanceSq(a, b, c, d) <= DistanceSqToSegment(a, c, d)
    ensures SegmentDistanceSq(a, b, c, d) <= DistanceSqToSegment(b, c, d)
    ensures SegmentDistanceSq(a, b, c, d) <= DistanceSqToSegment(c, a, b)
    ensures SegmentDistanceSq(a, b, c, d) <= DistanceSqToSegment(d, a, b)
  {
  }

  lemma EndsOfSegment(a: Pt, b: Pt)
    ensures At(a, b, 0.0) == a && At(a, b, 1.0) == b
  {
  }

  lemma EndpointBound(a: Pt, b: Pt, c: Pt, d: Pt, s: real, t: real)
    requires 0.0 <= s <= 1.0 && 0.0 <= t <= 1.0 && !SegmentsIntersect(a, b, c, d)
    requires s == 0.0 || s == 1.0 || t == 0.0 || t == 1.0
    ensures SegmentDistanceSq(a, b, c, d) <= DistanceSq(At(a, b, s), At(c, d, t))
  {
    AtMostEachEndpoint(a, b, c, d);
    EndsOfSegment(a, b);
    EndsOfSegment(c, d);
    if s == 0.0 {
      NearestIsMinimum(a, c, d, t);
    } else if s == 1.0 {
      NearestIsMinimum(b, c, d, t);
    } else if t == 0.0 {
      NearestIsMinimum(c, a, b, s);
      DistanceSqSymmetric(c, At(a, b, s));
    } else {
      NearestIsMinimum(d, a, b, s);
      DistanceSqSymmetric(d, At(a, b, s));
    }
  }

  lemma ApartWhenLinesCross(a: Pt, b: Pt, c: Pt, d: Pt, s: real, t: real)
    requires 0.0 <= s <= 1.0 && 0.0 <= t <= 1.0 && !SegmentsIntersect(a, b, c, d) && Turn(a, b, c, d) != 0.0
    ensures SegmentDistanceSq(a, b, c, d) <= DistanceSq(At(a, b, s), At(c, d, t))
  {
    LinesMeet(a, b, c, d);
    var s1, t1 := Cross(c, d, a) / Turn(a, b, c, d), -Cross(a, b, c) / Turn(a, b, c, d);
    if 0.0 <= s1 <= 1.0 && 0.0 <= t1 <= 1.0 {
      SharedMeansIntersect(a, b, c, d, s1, t1);
    } else {
      var s', t' := WalkToBoundary(a, b, c, d, s, t, s1, t1, 0.0);
      EndpointBound(a, b, c, d, s', t');
    }
  }

  lemma ParallelStep(a: real, b: real, c: real, d: real, k: real, s: real, t: real)
    requires d - c == k * (b - a)
    ensures Lerp(a, b, s + 2.0 * k) - Lerp(c, d, t + 2.0) == Lerp(a, b, s) - Lerp(c, d, t)
  {
    assert (s + 2.0 * k) * (b - a) == s * (b - a) + 2.0 * (k * (b - a));
    assert (t + 2.0) * (d - c) == t * (d - c) + 2.0 * (d - c);
  }

  lemma ApartWhenParallel(a: Pt, b: Pt, c: Pt, d: Pt, s: real, t: real)
    requires 0.0 <= s <= 1.0 && 0.0 <= t <= 1.0 && !SegmentsIntersect(a, b, c, d) && Turn(a, b, c, d) == 0.0 && a != b
    ensures SegmentDistanceSq(a, b, c, d) <= DistanceSq(At(a, b, s), At(c, d, t))
  {
    var k := ParallelRatio(a, b, c, d);
    ParallelStep(a.x, b.x, c.x, d.x, k, s, t);
    ParallelStep(a.y, b.y, c.y, d.y, k, s, t);
    var s', t' := WalkToBoundary(a, b, c, d, s, t, s + 2.0 * k, t + 2.0, 1.0);
    EndpointBound(a, b, c, d, s', t');
  }

  /** No pair of points of the two segments is closer than segmentToSegmentDistance. */
  lemma SegmentDistanceIsLowerBound(a: Pt, b: Pt, c: Pt, d: Pt, s: real, t: real)
    requires 0.0 <= s <= 1.0 && 0.0 <= t <= 1.0
    ensures SegmentDistanceSq(a, b, c, d) <= DistanceSq(At(a, b, s), At(c, d, t))
  {
    if SegmentsIntersect(a, b, c, d) {
      DistanceSqNonNegative(At(a, b, s), At(c, d, t));
    } else if Turn(a, b, c, d) != 0.0 {
      ApartWhenLinesCross(a, b, c, d, s, t);
    } else if a == b {
      assert At(a, b, s) == At(a, b, 0.0);
      EndpointBound(a, b, c, d, 0.0, t);
    } else {
      ApartWhenParallel(a, b, c, d, s, t);
    }
  }

  lemma ParallelRatio(a: Pt, b: Pt, c: Pt, d: Pt) returns (k: real)
    requires Turn(a, b, c, d) == 0.0 && a != b
    ensures d.x - c.x == k * (b.x - a.x) && d.y - c.y == k * (b.y - a.y)
  {
    var ux, uy, vx, vy := b.x - a.x, b.y - a.y, d.x - c.x, d.y - c.y;
    if ux != 0.0 {
      k := vx / ux;
      LineOrdinate(ux, uy, vx, vy, k);
    } else {
      k := vy / uy;
      LineOrdinate(uy, ux, vy, vx, k);
    }
  }

  /** ... and some pair of points is exactly that close. */
  lemma SegmentDistanceIsAttained(a: Pt, b: Pt, c: Pt, d: Pt) returns (p: Pt, q: Pt)
    ensures OnSegment(a, b, p) && OnSegment(c, d, q)
    ensures DistanceSq(p, q) == SegmentDistanceSq(a, b, c, d)
  {
    if SegmentsIntersect(a, b, c, d) {
      var s, t := IntersectionIsShared(a, b, c, d);
      p, q := At(a, b, s), At(c, d, t);
    } else {
      assert At(a, b, 0.0) == a && At(a, b, 1.0) == b && At(c, d, 0.0) == c && At(c, d, 1.0) == d;
      NearestIsMinimum(a, c, d, 0.0);
      NearestIsMinimum(b, c, d, 0.0);
      NearestIsMinimum(c, a, b, 0.0);
      NearestIsMinimum(d, a, b, 0.0);
      var m := SegmentDistanceSq(a, b, c, d);
      if m == DistanceSqToSegment(a, c, d) { p, q := a, At(c, d, NearestParam(a, c, d)); }
      else if m == DistanceSqToSegment(b, c, d) { p, q := b, At(c, d, NearestParam(b, c, d)); }
      else if m == DistanceSqToSegment(c, a, b) { p, q := At(a, b, NearestParam(c, a, b)), c; }
      else { p, q := At(a, b, NearestParam(d, a, b)), d; }
    }
  }

  // ---------- boxes ----------

  datatype Box = Box(minX: real, minY: real, maxX: real, maxY: real)

  predicate InBox(b: Box, p: Pt) {
    b.minX <= p.x <= b.maxX && b.minY <= p.y <= b.maxY
  }

  function ExpandBox(b: Box, r: real): Box {
    Box(b.minX - r, b.minY - r, b.maxX + r, b.maxY + r)
  }

  predicate BoxesIntersect(a: Box, b: Box) {
    a.minX <= b.maxX && b.minX <= a.maxX && a.minY <= b.maxY && b.minY <= a.maxY
  }

  function SegmentBox(a: Pt, b: Pt): Box {
    Box(Min(a.x, b.x), Min(a.y, b.y), Max(a.x, b.x), Max(a.y, b.y))
  }

  /** Points of boxes that stay apart after growing one of them by r are more than r apart. */
  lemma ApartBoxes(a: Box, b: Box, r: real, p: Pt, q: Pt)
    requires r >= 0.0 && InBox(a, p) && InBox(b, q) && !BoxesIntersect(ExpandBox(a, r), b)
    ensures DistanceSq(p, q) > Sq(r)
  {
    var x, y := p.x - q.x, p.y - q.y;
    SqSign(x);
    SqSign(y);
    if x > r || -x > r { SqOver(x, r); } else { SqOver(y, r); }
  }

  lemma ConvexBox(b: Box, p: Pt, q: Pt, t: real)
    requires InBox(b, p) && InBox(b, q) && 0.0 <= t <= 1.0
    ensures InBox(b, At(p, q, t))
  {
    PointInBox(p, q, t);
  }

  /** Smallest axis-parallel box of a non-empty polyline, and None for the empty one. */
  datatype MaybeBox = NoBox | SomeBox(box: Box)

  method BoundingBox(points: seq<Pt>) returns (r: MaybeBox)
    ensures r.NoBox? <==> points == []
    ensures r.SomeBox? ==> forall i :: 0 <= i < |points| ==> InBox(r.box, points[i])
    ensures r.SomeBox? ==> exists i :: 0 <= i < |points| && points[i].x == r.box.minX
    ensures r.SomeBox? ==> exists i :: 0 <= i < |points| && points[i].y == r.box.minY
    ensures r.SomeBox? ==> exists i :: 0 <= i < |points| && points[i].x == r.box.maxX
    ensures r.SomeBox? ==> exists i :: 0 <= i < |points| && points[i].y == r.box.maxY
  {
    if points == [] { return NoBox; }
    var minX, minY, maxX, maxY := points[0].x, points[0].y, points[0].x, points[0].y;
    ghost var a, b, c, d := 0, 0, 0, 0;
    for k := 0 to |points|
      invariant forall i :: 0 <= i < k ==> InBox(Box(minX, minY, maxX, maxY), points[i])
      invariant 0 <= a < |points| && points[a].x == minX
      invariant 0 <= b < |points| && points[b].y == minY
      invariant 0 <= c < |points| && points[c].x == maxX
      invariant 0 <= d < |points| && points[d].y == maxY
    {
      var p := points[k];
      if p.x < minX { minX := p.x; a := k; }
      if p.y < minY { minY := p.y; b := k; }
      if p.x > maxX { maxX := p.x; c := k; }
      if p.y > maxY { maxY := p.y; d := k; }
    }
    r := SomeBox(Box(minX, minY, maxX, maxY));
  }
}
