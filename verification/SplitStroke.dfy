module SplitStroke {
  // The partial eraser: which parts of a stroke remain. Only eraser segments near the stroke are tested and each cut is
  // found by ten bisections; both are shown to be as good as testing the whole eraser path.

  import opened Geometry
  import opened HitTest
  import opened Fragments

  function LerpPoint(a: InkPoint, b: InkPoint, t: real): InkPoint {
    InkPoint(Lerp(a.x, b.x, t), Lerp(a.y, b.y, t), Lerp(a.p, b.p, t))
  }

  // ---------- densify ----------

  /** n is the ceiling of sqrt(distSq) / step. */
  predicate IsCeiling(n: nat, distSq: real, step: real) {
    Sq(n as real * step) >= distSq && (n > 0 ==> Sq((n - 1) as real * step) < distSq)
  }

  function Ceiling(distSq: real, step: real): (n: nat)
    requires distSq >= 0.0 && step > 0.0
    ensures IsCeiling(n, distSq, step)
  {
    var cap := Max(distSq, 1.0) / step;
    CapLargeEnough(distSq, step, cap);
    CeilingFrom(distSq, step, 0, cap.Floor + 1)
  }

  function CeilingFrom(distSq: real, step: real, n: nat, cap: nat): (r: nat)
    requires step > 0.0 && n <= cap && Sq(cap as real * step) >= distSq
    requires n > 0 ==> Sq((n - 1) as real * step) < distSq
    ensures IsCeiling(r, distSq, step)
    decreases cap - n
  {
    if Sq(n as real * step) >= distSq then n else CeilingFrom(distSq, step, n + 1, cap)
  }

  lemma CapLargeEnough(distSq: real, step: real, cap: real)
    requires distSq >= 0.0 && step > 0.0 && cap == Max(distSq, 1.0) / step
    ensures cap >= 0.0 && Sq((cap.Floor + 1) as real * step) >= distSq
  {
    var m, n := Max(distSq, 1.0), (cap.Floor + 1) as real;
    assert cap * step == m;
    if cap < 0.0 { ProductSign(-cap, step, -m); }
    ProductSign(n - cap, step, n * step - m);
    var x := n * step;
    ProductSign(x, x - 1.0, Sq(x) - x) by { assert Sq(x) - x == x * (x - 1.0); }
  }

  function SampleAt(a: InkPoint, b: InkPoint, steps: nat, s: nat): InkPoint
    requires 0 < s < steps
  {
    LerpPoint(a, b, s as real / steps as real)
  }

  /** The interpolated samples number 1 .. s - 1. */
  function SamplesBefore(a: InkPoint, b: InkPoint, steps: nat, s: nat): (r: seq<InkPoint>)
    requires 1 <= s && (s <= steps || s == 1)
    ensures |r| == s - 1
    ensures forall k :: 0 <= k < s - 1 ==> r[k] == SampleAt(a, b, steps, k + 1)
  {
    if s == 1 then [] else SamplesBefore(a, b, steps, s - 1) + [SampleAt(a, b, steps, s - 1)]
  }

  /** The samples after a on the way to b, ending with b itself. */
  function Samples(a: InkPoint, b: InkPoint, steps: nat): (r: seq<InkPoint>)
    ensures |r| >= 1 && r[|r| - 1] == b
  {
    SamplesBefore(a, b, steps, if steps > 1 then steps else 1) + [b]
  }

  function StepsBetween(a: InkPoint, b: InkPoint, maxStep: real): nat
    requires maxStep > 0.0
  {
    DistanceSqNonNegative(Pos(a), Pos(b));
    Ceiling(DistanceSq(Pos(a), Pos(b)), maxStep)
  }

  /** The first n points with interpolated samples in between. */
  function Dense(points: seq<InkPoint>, n: nat, maxStep: real): seq<InkPoint>
    requires n <= |points| && maxStep > 0.0
  {
    if n == 0 then []
    else if n == 1 then [points[0]]
    else Dense(points, n - 1, maxStep) + Samples(points[n - 2], points[n - 1], StepsBetween(points[n - 2], points[n - 1], maxStep))
  }

  /** c is t of the way from a to b, pressure included. */
  predicate IsBetween(a: InkPoint, b: InkPoint, t: real, c: InkPoint) {
    c.x == (1.0 - t) * a.x + t * b.x && c.y == (1.0 - t) * a.y + t * b.y && c.p == (1.0 - t) * a.p + t * b.p
  }

  /** From sample `from` on, the samples go to point b in n equal steps, no more of them than are needed. */
  ghost predicate GoesTo(dense: seq<InkPoint>, from: nat, n: nat, a: InkPoint, b: InkPoint, maxStep: real) {
    && n > 0 && from + n < |dense| && dense[from] == a && dense[from + n] == b
    && (forall s :: 0 < s < n ==> IsStep(dense, from, n, s, a, b))
    && (n > 1 ==> Sq((n - 1) as real * maxStep) < DistanceSq(Pos(a), Pos(b)))
  }

  predicate IsStep(dense: seq<InkPoint>, from: nat, n: nat, s: nat, a: InkPoint, b: InkPoint)
    requires 0 < s < n && from + n < |dense|
  {
    IsBetween(a, b, s as real / n as real, dense[from + s])
  }

  /** The samples follow the stroke: sample at[i] is its point i, and between two of its points they go straight in equal steps. */
  ghost predicate FollowsStroke(points: seq<InkPoint>, dense: seq<InkPoint>, maxStep: real, at: seq<nat>) {
    && |at| == |points| && (points == [] ==> dense == []) && (points != [] ==> at[0] == 0 && at[|at| - 1] == |dense| - 1 && dense[0] == points[0])
    && forall i :: 0 <= i < |points| - 1 ==> FollowsAt(points, dense, maxStep, at, i)
  }

  ghost predicate FollowsAt(points: seq<InkPoint>, dense: seq<InkPoint>, maxStep: real, at: seq<nat>, i: nat)
    requires i + 1 < |points| == |at|
  {
    at[i] < at[i + 1] && GoesTo(dense, at[i], at[i + 1] - at[i], points[i], points[i + 1], maxStep)
  }

  lemma LerpIsBetween(a: InkPoint, b: InkPoint, t: real)
    ensures IsBetween(a, b, t, LerpPoint(a, b, t))
  {
  }

  lemma SamplesGo(before: seq<InkPoint>, a: InkPoint, b: InkPoint, maxStep: real)
    requires before != [] && before[|before| - 1] == a && maxStep > 0.0
    ensures var all := Samples(a, b, StepsBetween(a, b, maxStep)); GoesTo(before + all, |before| - 1, |all|, a, b, maxStep)
  {
    var steps := StepsBetween(a, b, maxStep);
    var all := Samples(a, b, steps);
    var n := |all|;
    var dense, from := before + all, |before| - 1;
    forall s | 0 < s < n ensures IsStep(dense, from, n, s, a, b) {
      assert dense[from + s] == all[s - 1] == LerpPoint(a, b, s as real / steps as real);
      LerpIsBetween(a, b, s as real / steps as real);
    }
  }

  lemma GoesToLater(dense: seq<InkPoint>, more: seq<InkPoint>, from: nat, n: nat, a: InkPoint, b: InkPoint, maxStep: real)
    requires GoesTo(dense, from, n, a, b, maxStep)
    ensures GoesTo(dense + more, from, n, a, b, maxStep)
  {
    forall s | 0 < s < n ensures IsStep(dense + more, from, n, s, a, b) { assert IsStep(dense, from, n, s, a, b); }
  }

  /** The samples are the whole stroke and nothing else. */
  lemma {:induction false} DenseFollows(points: seq<InkPoint>, n: nat, maxStep: real) returns (at: seq<nat>)
    requires n <= |points| && maxStep > 0.0
    ensures FollowsStroke(points[..n], Dense(points, n, maxStep), maxStep, at)
  {
    if n == 0 {
      at := [];
    } else if n == 1 {
      at := [0];
    } else {
      var before := Dense(points, n - 1, maxStep);
      var more := Samples(points[n - 2], points[n - 1], StepsBetween(points[n - 2], points[n - 1], maxStep));
      var init := DenseFollows(points, n - 1, maxStep);
      DenseEndsAtPoint(points, n - 1, maxStep);
      SamplesGo(before, points[n - 2], points[n - 1], maxStep);
      at := init + [|before| + |more| - 1];
      assert points[..n][..n - 1] == points[..n - 1];
      FollowsOn(points[..n], before, more, maxStep, init);
    }
  }

  lemma FollowsOn(points: seq<InkPoint>, before: seq<InkPoint>, more: seq<InkPoint>, maxStep: real, at: seq<nat>)
    requires |points| >= 2 && FollowsStroke(points[..|points| - 1], before, maxStep, at) && more != []
    requires GoesTo(before + more, |before| - 1, |more|, points[|points| - 2], points[|points| - 1], maxStep)
    ensures FollowsStroke(points, before + more, maxStep, at + [|before| + |more| - 1])
  {
    var n := |points|;
    var all := at + [|before| + |more| - 1];
    forall i | 0 <= i < n - 1 ensures FollowsAt(points, before + more, maxStep, all, i) {
      if i < n - 2 {
        assert FollowsAt(points[..n - 1], before, maxStep, at, i);
        GoesToLater(before, more, at[i], at[i + 1] - at[i], points[i], points[i + 1], maxStep);
      }
    }
  }

  method Densify(points: seq<InkPoint>, maxStep: real) returns (out: seq<InkPoint>)
    ensures maxStep > 0.0 ==> exists at :: FollowsStroke(points, out, maxStep, at)
    ensures maxStep > 0.0 ==> out == Dense(points, |points|, maxStep)
    ensures maxStep <= 0.0 ==> out == points
  {
    if points == [] || maxStep <= 0.0 {
      assert points == [] ==> FollowsStroke(points, points, maxStep, []);
      return points;
    }
    out := [points[0]];
    for i := 1 to |points|
      invariant out == Dense(points, i, maxStep)
    {
      var between := Interpolate(points[i - 1], points[i], StepsBetween(points[i - 1], points[i], maxStep));
      out := out + between;
    }
    ghost var at := DenseFollows(points, |points|, maxStep);
    assert points[..|points|] == points;
  }

  /** The inner loop of densify: samples up to and including b. */
  method Interpolate(a: InkPoint, b: InkPoint, steps: nat) returns (out: seq<InkPoint>)
    ensures out == Samples(a, b, steps)
  {
    out := [];
    var s := 1;
    while s < steps
      invariant 1 <= s && (s <= steps || s == 1)
      invariant out == SamplesBefore(a, b, steps, s)
    {
      out := out + [LerpPoint(a, b, s as real / steps as real)];
      s := s + 1;
    }
    out := out + [b];
  }

  lemma LerpStaysInBox(box: Box, a: InkPoint, b: InkPoint, t: real)
    requires InBox(box, Pos(a)) && InBox(box, Pos(b)) && 0.0 <= t <= 1.0
    ensures InBox(box, Pos(LerpPoint(a, b, t)))
  {
    ConvexBox(box, Pos(a), Pos(b), t);
  }

  ghost predicate AllIn(box: Box, points: seq<InkPoint>) {
    forall i :: 0 <= i < |points| ==> InBox(box, Pos(points[i]))
  }

  lemma {:induction false} DenseStaysInBox(points: seq<InkPoint>, n: nat, maxStep: real, box: Box)
    requires n <= |points| && maxStep > 0.0 && AllIn(box, points)
    ensures AllIn(box, Dense(points, n, maxStep))
  {
    if n >= 2 {
      DenseStaysInBox(points, n - 1, maxStep, box);
      var a, b := points[n - 2], points[n - 1];
      var steps := StepsBetween(a, b, maxStep);
      var added := Samples(a, b, steps);
      forall k | 0 <= k < |added| ensures InBox(box, Pos(added[k])) {
        if k < |added| - 1 {
          QuotientInUnit((k + 1) as real, steps as real);
          LerpStaysInBox(box, a, b, (k + 1) as real / steps as real);
        }
      }
    }
  }

  /** Consecutive samples are at most maxStep apart. */
  lemma {:induction false} DenseIsFine(points: seq<InkPoint>, n: nat, maxStep: real, k: nat)
    requires n <= |points| && maxStep > 0.0 && k + 1 < |Dense(points, n, maxStep)|
    ensures DistanceSq(Pos(Dense(points, n, maxStep)[k]), Pos(Dense(points, n, maxStep)[k + 1])) <= Sq(maxStep)
  {
    var before := Dense(points, n - 1, maxStep);
    DenseEndsAtPoint(points, n - 1, maxStep);
    if k + 1 < |before| {
      DenseIsFine(points, n - 1, maxStep, k);
    } else {
      var a, b := points[n - 2], points[n - 1];
      var steps := StepsBetween(a, b, maxStep);
      var all := [a] + Samples(a, b, steps);
      var j := k + 1 - |before|;
      assert Dense(points, n, maxStep)[k] == all[j] && Dense(points, n, maxStep)[k + 1] == all[j + 1];
      SampleStep(a, b, steps, maxStep, j);
    }
  }

  lemma DenseEndsAtPoint(points: seq<InkPoint>, n: nat, maxStep: real)
    requires 1 <= n <= |points| && maxStep > 0.0
    ensures var d := Dense(points, n, maxStep); d != [] && d[|d| - 1] == points[n - 1]
  {
  }

  lemma SampleStep(a: InkPoint, b: InkPoint, steps: nat, maxStep: real, j: nat)
    requires maxStep > 0.0 && IsCeiling(steps, DistanceSq(Pos(a), Pos(b)), maxStep)
    requires j + 1 < |[a] + Samples(a, b, steps)|
    ensures DistanceSq(Pos(([a] + Samples(a, b, steps))[j]), Pos(([a] + Samples(a, b, steps))[j + 1])) <= Sq(maxStep)
  {
    if steps == 0 { SamePlace(Pos(a), Pos(b), maxStep); } else { PositiveSteps(a, b, steps, maxStep, j); }
  }

  lemma SamePlace(a: Pt, b: Pt, step: real)
    requires Sq(0.0 * step) >= DistanceSq(a, b)
    ensures DistanceSq(a, b) <= Sq(step)
  {
    assert 0.0 * step == 0.0;
    assert Sq(0.0) == 0.0;
    SqSign(step);
  }

  lemma PositiveSteps(a: InkPoint, b: InkPoint, steps: nat, maxStep: real, j: nat)
    requires steps > 0 && Sq(steps as real * maxStep) >= DistanceSq(Pos(a), Pos(b))
    requires j + 1 < |[a] + Samples(a, b, steps)|
    ensures DistanceSq(Pos(([a] + Samples(a, b, steps))[j]), Pos(([a] + Samples(a, b, steps))[j + 1])) <= Sq(maxStep)
  {
    SamplePlace(a, b, steps, j);
    SamplePlace(a, b, steps, j + 1);
    StepDistance(Pos(a), Pos(b), j as real, steps as real, maxStep);
  }

  lemma SamplePlace(a: InkPoint, b: InkPoint, steps: nat, j: nat)
    requires steps > 0 && j < |[a] + Samples(a, b, steps)|
    ensures Pos(([a] + Samples(a, b, steps))[j]) == At(Pos(a), Pos(b), j as real / steps as real)
  {
    if j == 0 || j == steps {
      EndsOfSegment(Pos(a), Pos(b));
      assert j == steps ==> j as real / steps as real == 1.0;
    }
  }

  lemma StepDistance(a: Pt, b: Pt, j: real, n: real, maxStep: real)
    requires n > 0.0 && DistanceSq(a, b) <= Sq(n * maxStep)
    ensures DistanceSq(At(a, b, j / n), At(a, b, (j + 1.0) / n)) <= Sq(maxStep)
  {
    SpanOfLerp(a.x, b.x, j, n);
    SpanOfLerp(a.y, b.y, j, n);
    DistanceSqSymmetric(a, b);
    DistanceSqSymmetric(At(a, b, j / n), At(a, b, (j + 1.0) / n));
    StepFits(b.x - a.x, b.y - a.y, n, maxStep);
  }

  lemma SpanOfLerp(u: real, v: real, j: real, n: real)
    requires n > 0.0
    ensures Lerp(u, v, (j + 1.0) / n) - Lerp(u, v, j / n) == (v - u) / n
  {
    assert (j + 1.0) / n == j / n + 1.0 / n;
    assert (1.0 / n) * (v - u) == (v - u) / n;
  }

  lemma StepFits(dx: real, dy: real, n: real, step: real)
    requires n > 0.0 && Sq(dx) + Sq(dy) <= Sq(n * step)
    ensures Sq(dx / n) + Sq(dy / n) <= Sq(step)
  {
    var x, y := dx / n, dy / n;
    assert dx == n * x && dy == n * y;
    SqProduct(n, x);
    SqProduct(n, y);
    SqProduct(n, step);
    SqSign(n);
    var excess := Sq(x) + Sq(y) - Sq(step);
    assert Sq(n) * excess == Sq(n) * Sq(x) + Sq(n) * Sq(y) - Sq(n) * Sq(step);
    if excess > 0.0 { ProductSign(Sq(n), excess, Sq(n) * excess); }
  }

  lemma SqProduct(a: real, b: real)
    ensures Sq(a * b) == Sq(a) * Sq(b)
  {
  }

  // ---------- inside the eraser ----------

  /** Within radius of some point of the whole eraser path. */
  ghost predicate Erased(eraser: seq<Pt>, radius: real, q: Pt) {
    radius >= 0.0 && exists e :: OnPolyline(eraser, e) && DistanceSq(q, e) <= Sq(radius)
  }

  predicate WithinSegment(s: (Pt, Pt), radius: real, q: Pt) {
    radius >= 0.0 && DistanceSqToSegment(q, s.0, s.1) <= Sq(radius)
  }

  predicate Inside(segments: seq<(Pt, Pt)>, radius: real, q: Pt) {
    exists i :: 0 <= i < |segments| && WithinSegment(segments[i], radius, q)
  }

  /** Eraser segments whose box meets the grown box of the stroke. */
  ghost predicate AreNearSegments(eraser: seq<Pt>, near: Box, segments: seq<(Pt, Pt)>) {
    && (|eraser| == 1 ==> (eraser[0], eraser[0]) in segments)
    && (forall i :: 1 <= i < |eraser| && BoxesIntersect(SegmentBox(eraser[i - 1], eraser[i]), near) ==> (eraser[i - 1], eraser[i]) in segments)
    && (forall s :: s in segments ==> (|eraser| == 1 && s == (eraser[0], eraser[0])) || exists i :: 1 <= i < |eraser| && s == (eraser[i - 1], eraser[i]))
  }

  method CollectNear(eraser: seq<Pt>, near: Box) returns (segments: seq<(Pt, Pt)>)
    ensures AreNearSegments(eraser, near, segments)
  {
    segments := [];
    if |eraser| == 1 { segments := [(eraser[0], eraser[0])]; }
    var i := 1;
    while i < |eraser|
      invariant 1 <= i
      invariant |eraser| == 1 ==> (eraser[0], eraser[0]) in segments
      invariant forall k :: 1 <= k < i && k < |eraser| && BoxesIntersect(SegmentBox(eraser[k - 1], eraser[k]), near) ==> (eraser[k - 1], eraser[k]) in segments
      invariant forall s :: s in segments ==> (|eraser| == 1 && s == (eraser[0], eraser[0])) || exists k :: 1 <= k < |eraser| && s == (eraser[k - 1], eraser[k])
    {
      if BoxesIntersect(SegmentBox(eraser[i - 1], eraser[i]), near) {
        segments := segments + [(eraser[i - 1], eraser[i])];
      }
      i := i + 1;
    }
  }

  lemma FarSegment(a: Pt, b: Pt, box: Box, radius: real, q: Pt, e: Pt)
    requires radius >= 0.0 && InBox(box, q) && OnSegment(a, b, e)
    requires !BoxesIntersect(SegmentBox(a, b), ExpandBox(box, radius))
    ensures DistanceSq(q, e) > Sq(radius)
  {
    OnSegmentInBox(a, b, e);
    ApartBoxes(box, SegmentBox(a, b), radius, q, e);
  }

  lemma InsideIsErased(eraser: seq<Pt>, near: Box, radius: real, segments: seq<(Pt, Pt)>, q: Pt)
    requires AreNearSegments(eraser, near, segments) && Inside(segments, radius, q)
    ensures Erased(eraser, radius, q)
  {
    var k :| 0 <= k < |segments| && WithinSegment(segments[k], radius, q);
    var s := segments[k];
    assert s in segments;
    NearestIsMinimum(q, s.0, s.1, 0.0);
    var e := At(s.0, s.1, NearestParam(q, s.0, s.1));
    OnSegmentInBox(s.0, s.1, e);
    assert OnPolyline(eraser, e);
  }

  lemma ErasedIsInside(eraser: seq<Pt>, box: Box, radius: real, segments: seq<(Pt, Pt)>, q: Pt)
    requires InBox(box, q) && AreNearSegments(eraser, ExpandBox(box, radius), segments) && Erased(eraser, radius, q)
    ensures Inside(segments, radius, q)
  {
    var e :| OnPolyline(eraser, e) && DistanceSq(q, e) <= Sq(radius);
    ErasedByPoint(eraser, box, radius, segments, q, e);
  }

  lemma ErasedByPoint(eraser: seq<Pt>, box: Box, radius: real, segments: seq<(Pt, Pt)>, q: Pt, e: Pt)
    requires InBox(box, q) && AreNearSegments(eraser, ExpandBox(box, radius), segments)
    requires radius >= 0.0 && OnPolyline(eraser, e) && DistanceSq(q, e) <= Sq(radius)
    ensures Inside(segments, radius, q)
  {
    if |eraser| == 1 && e == eraser[0] {
      SinglePointIsNear(eraser, ExpandBox(box, radius), segments);
      SegmentTestFinds(segments, (eraser[0], eraser[0]), radius, q, e);
    } else {
      var i := SegmentUnder(eraser, e);
      ErasedBySegment(eraser, box, radius, segments, q, i, e);
    }
  }

  lemma SinglePointIsNear(eraser: seq<Pt>, near: Box, segments: seq<(Pt, Pt)>)
    requires AreNearSegments(eraser, near, segments) && |eraser| == 1
    ensures (eraser[0], eraser[0]) in segments
  {
  }

  lemma SegmentUnder(eraser: seq<Pt>, e: Pt) returns (i: int)
    requires OnPolyline(eraser, e) && !(|eraser| == 1 && e == eraser[0])
    ensures 1 <= i < |eraser| && OnSegment(eraser[i - 1], eraser[i], e)
  {
    i :| 1 <= i < |eraser| && OnSegment(eraser[i - 1], eraser[i], e);
  }

  lemma ErasedBySegment(eraser: seq<Pt>, box: Box, radius: real, segments: seq<(Pt, Pt)>, q: Pt, i: int, e: Pt)
    requires InBox(box, q) && AreNearSegments(eraser, ExpandBox(box, radius), segments)
    requires radius >= 0.0 && 1 <= i < |eraser| && OnSegment(eraser[i - 1], eraser[i], e) && DistanceSq(q, e) <= Sq(radius)
    ensures Inside(segments, radius, q)
  {
    var a, b := eraser[i - 1], eraser[i];
    if BoxesIntersect(SegmentBox(a, b), ExpandBox(box, radius)) {
      SegmentTestFinds(segments, (a, b), radius, q, e);
    } else {
      FarSegment(a, b, box, radius, q, e);
    }
  }

  /** Testing the near segments only is testing the whole path, for every point of the stroke's box. */
  lemma NearSegmentsSuffice(eraser: seq<Pt>, box: Box, radius: real, segments: seq<(Pt, Pt)>, q: Pt)
    requires InBox(box, q) && AreNearSegments(eraser, ExpandBox(box, radius), segments)
    ensures Inside(segments, radius, q) <==> Erased(eraser, radius, q)
  {
    if Inside(segments, radius, q) { InsideIsErased(eraser, ExpandBox(box, radius), radius, segments, q); }
    if Erased(eraser, radius, q) { ErasedIsInside(eraser, box, radius, segments, q); }
  }

  lemma SegmentTestFinds(segments: seq<(Pt, Pt)>, s: (Pt, Pt), radius: real, q: Pt, e: Pt)
    requires s in segments && radius >= 0.0 && (OnSegment(s.0, s.1, e) || e == s.0) && DistanceSq(q, e) <= Sq(radius)
    ensures Inside(segments, radius, q)
  {
    if e == s.0 {
      EndsOfSegment(s.0, s.1);
      NearestIsMinimum(q, s.0, s.1, 0.0);
    } else {
      var t: real :| 0.0 <= t <= 1.0 && e == At(s.0, s.1, t);
      NearestIsMinimum(q, s.0, s.1, t);
    }
    var k :| 0 <= k < |segments| && segments[k] == s;
    assert WithinSegment(segments[k], radius, q);
  }

  // ---------- cuts ----------

  const BISECTION: real := 1.0 / 1024.0

  /** c is where the stroke leaves the eraser: outside, with a point of the eraser 1/1024 of the step further. */
  ghost predicate IsCut(eraser: seq<Pt>, radius: real, outside: InkPoint, inside: InkPoint, c: InkPoint) {
    exists lo: real :: 0.0 <= lo <= 1.0 - BISECTION && c == LerpPoint(outside, inside, lo)
      && !Erased(eraser, radius, Pos(c)) && Erased(eraser, radius, Pos(LerpPoint(outside, inside, lo + BISECTION)))
  }

  /** How close that eraser point is: 1/1024 of the distance between the two samples. */
  lemma CutIsClose(eraser: seq<Pt>, radius: real, outside: InkPoint, inside: InkPoint, c: InkPoint) returns (q: Pt)
    requires IsCut(eraser, radius, outside, inside, c)
    ensures Erased(eraser, radius, q)
    ensures Sq(1024.0) * DistanceSq(Pos(c), q) == DistanceSq(Pos(outside), Pos(inside))
  {
    var lo: real :| 0.0 <= lo <= 1.0 - BISECTION && c == LerpPoint(outside, inside, lo)
      && !Erased(eraser, radius, Pos(c)) && Erased(eraser, radius, Pos(LerpPoint(outside, inside, lo + BISECTION)));
    q := Pos(LerpPoint(outside, inside, lo + BISECTION));
    LerpGap(outside.x, inside.x, lo);
    LerpGap(outside.y, inside.y, lo);
    SqProduct(1024.0, c.x - q.x);
    SqProduct(1024.0, c.y - q.y);
  }

  lemma LerpGap(u: real, v: real, lo: real)
    ensures 1024.0 * (Lerp(u, v, lo) - Lerp(u, v, lo + BISECTION)) == u - v
  {
    assert (lo + BISECTION) * (v - u) == lo * (v - u) + BISECTION * (v - u);
  }

  method Boundary(segments: seq<(Pt, Pt)>, radius: real, outside: InkPoint, inside: InkPoint, ghost eraser: seq<Pt>, ghost box: Box) returns (c: InkPoint)
    requires InBox(box, Pos(outside)) && InBox(box, Pos(inside)) && AreNearSegments(eraser, ExpandBox(box, radius), segments)
    requires !Inside(segments, radius, Pos(outside)) && Inside(segments, radius, Pos(inside))
    ensures IsCut(eraser, radius, outside, inside, c)
    ensures InBox(box, Pos(c))
  {
    var lo, hi := 0.0, 1.0;
    ghost var width := 1024.0;
    assert LerpPoint(outside, inside, 0.0) == outside && LerpPoint(outside, inside, 1.0) == inside;
    for k := 0 to 10
      invariant 0.0 <= lo < hi <= 1.0 && hi - lo == width * BISECTION
      invariant width == Halved(k)
      invariant !Inside(segments, radius, Pos(LerpPoint(outside, inside, lo)))
      invariant Inside(segments, radius, Pos(LerpPoint(outside, inside, hi)))
    {
      var mid := (lo + hi) / 2.0;
      if Inside(segments, radius, Pos(LerpPoint(outside, inside, mid))) { hi := mid; } else { lo := mid; }
      width := width / 2.0;
    }
    HalvedTen();
    c := LerpPoint(outside, inside, lo);
    LerpStaysInBox(box, outside, inside, lo);
    LerpStaysInBox(box, outside, inside, hi);
    NearSegmentsSuffice(eraser, box, radius, segments, Pos(c));
    NearSegmentsSuffice(eraser, box, radius, segments, Pos(LerpPoint(outside, inside, hi)));
    assert hi == lo + BISECTION;
  }

  ghost function Halved(k: nat): real { if k == 0 then 1024.0 else Halved(k - 1) / 2.0 }

  lemma HalvedTen()
    ensures Halved(10) == 1.0
  {
    assert Halved(2) == 256.0;
    assert Halved(4) == 64.0;
    assert Halved(6) == 16.0;
    assert Halved(8) == 4.0;
  }

  // ---------- fragments ----------

  /** The cuts of this eraser, as a relation for the fragments. */
  ghost function CutRelation(eraser: seq<Pt>, radius: real): (InkPoint, InkPoint, InkPoint) -> bool {
    (outside, inside, c) => IsCut(eraser, radius, outside, inside, c)
  }

  /** The samples are flagged where they are inside the eraser, and isCut holds of every cut. */
  ghost predicate Flagged(dense: seq<InkPoint>, flags: seq<bool>, segments: seq<(Pt, Pt)>, radius: real, eraser: seq<Pt>, box: Box, isCut: (InkPoint, InkPoint, InkPoint) -> bool) {
    && |flags| == |dense| && AllIn(box, dense) && AreNearSegments(eraser, ExpandBox(box, radius), segments)
    && (forall i {:trigger Inside(segments, radius, Pos(dense[i]))} :: 0 <= i < |dense| ==> flags[i] == Inside(segments, radius, Pos(dense[i])))
    && (forall o, i, p {:trigger IsCut(eraser, radius, o, i, p)} :: IsCut(eraser, radius, o, i, p) ==> isCut(o, i, p))
  }

  datatype Scene = Scene(dense: seq<InkPoint>, flags: seq<bool>, segments: seq<(Pt, Pt)>, radius: real, eraser: seq<Pt>, box: Box, isCut: (InkPoint, InkPoint, InkPoint) -> bool)

  ghost predicate Consistent(s: Scene) {
    Flagged(s.dense, s.flags, s.segments, s.radius, s.eraser, s.box, s.isCut)
  }

  /** A stroke being cut: samples, flags and near segments that belong together. */
  type FlaggedScene = s: Scene | Consistent(s) ghost witness Scene([], [], [], 0.0, [], Box(0.0, 0.0, 0.0, 0.0), (o, i, p) => true)

  /** The cut between a sample outside and a neighbouring one inside. */
  method CutPoint(dense: seq<InkPoint>, flags: seq<bool>, outside: nat, inside: nat, segments: seq<(Pt, Pt)>, radius: real, ghost scene: FlaggedScene) returns (c: InkPoint)
    requires scene.dense == dense && scene.flags == flags && scene.segments == segments && scene.radius == radius
    requires |flags| == |dense| && outside < |dense| && inside < |dense| && !flags[outside] && flags[inside]
    ensures scene.isCut(dense[outside], dense[inside], c)
  {
    assert Consistent(scene);
    assert flags[outside] == Inside(segments, radius, Pos(dense[outside]));
    assert flags[inside] == Inside(segments, radius, Pos(dense[inside]));
    c := Boundary(segments, radius, dense[outside], dense[inside], scene.eraser, scene.box);
  }

  /** A sample inside the eraser ends the fragment being built. */
  method EraseSample(dense: seq<InkPoint>, flags: seq<bool>, i: nat, fragments: seq<seq<InkPoint>>, current: seq<InkPoint>, segments: seq<(Pt, Pt)>, radius: real,
                     ghost scene: FlaggedScene, ghost st: Cutting<InkPoint>)
    returns (closed: seq<seq<InkPoint>>, ghost next: Cutting<InkPoint>)
    requires scene.dense == dense && scene.flags == flags && scene.segments == segments && scene.radius == radius
    requires Progress(scene.isCut, dense, flags, i, st) && st.fragments == fragments && st.current == current && i < |dense| && flags[i]
    ensures Progress(scene.isCut, dense, flags, i + 1, next) && next.fragments == closed && next.current == []
  {
    if current != [] {
      var c := CutPoint(dense, flags, i - 1, i, segments, radius, scene);
      CloseStep(scene.isCut, dense, flags, i, st, c);
      closed := fragments + [current + [c]];
      next := Cutting(st.runs + [(st.start, i)], st.fragments + [st.current + [c]], i + 1, []);
    } else {
      SkipStep(scene.isCut, dense, flags, i, st);
      closed, next := fragments, st.(start := i + 1);
    }
  }

  /** A sample outside the eraser joins the fragment being built, after a cut when the previous sample is inside. */
  method KeepSample(dense: seq<InkPoint>, flags: seq<bool>, i: nat, current: seq<InkPoint>, segments: seq<(Pt, Pt)>, radius: real,
                    ghost scene: FlaggedScene, ghost st: Cutting<InkPoint>)
    returns (grown: seq<InkPoint>, ghost next: Cutting<InkPoint>)
    requires scene.dense == dense && scene.flags == flags && scene.segments == segments && scene.radius == radius
    requires Progress(scene.isCut, dense, flags, i, st) && st.current == current && i < |dense| && !flags[i]
    ensures Progress(scene.isCut, dense, flags, i + 1, next) && next.fragments == st.fragments && next.current == grown
  {
    grown := current;
    if i > 0 && flags[i - 1] {
      var c := CutPoint(dense, flags, i, i - 1, segments, radius, scene);
      grown := grown + [c];
    }
    if current == [] { StartStep(scene.isCut, dense, flags, i, st, grown); } else { GrowStep(scene.isCut, dense, flags, i, st); }
    grown := grown + [dense[i]];
    next := st.(current := grown);
  }

  /** One sample of the loop: it ends the fragment being built or joins it. */
  method CutSample(dense: seq<InkPoint>, flags: seq<bool>, i: nat, fragments: seq<seq<InkPoint>>, current: seq<InkPoint>, segments: seq<(Pt, Pt)>, radius: real,
                   ghost scene: FlaggedScene, ghost st: Cutting<InkPoint>)
    returns (closed: seq<seq<InkPoint>>, grown: seq<InkPoint>, ghost next: Cutting<InkPoint>)
    requires scene.dense == dense && scene.flags == flags && scene.segments == segments && scene.radius == radius
    requires Progress(scene.isCut, dense, flags, i, st) && st.fragments == fragments && st.current == current && i < |dense|
    ensures Progress(scene.isCut, dense, flags, i + 1, next) && next.fragments == closed && next.current == grown
  {
    if flags[i] {
      closed, next := EraseSample(dense, flags, i, fragments, current, segments, radius, scene, st);
      grown := [];
    } else {
      grown, next := KeepSample(dense, flags, i, current, segments, radius, scene, st);
      closed := fragments;
    }
  }

  /** After the last sample the fragment being built, if any, is complete. */
  method FinishFragments(ghost isCut: (InkPoint, InkPoint, InkPoint) -> bool, dense: seq<InkPoint>, flags: seq<bool>,
                         fragments: seq<seq<InkPoint>>, current: seq<InkPoint>, ghost st: Cutting<InkPoint>)
    returns (all: seq<seq<InkPoint>>, ghost runs: seq<(nat, nat)>)
    requires Progress(isCut, dense, flags, |dense|, st) && st.fragments == fragments && st.current == current
    ensures AreRuns(flags, |flags|, runs) && AreFragments(isCut, dense, runs, all)
  {
    FinishStep(isCut, dense, flags, st);
    all, runs := fragments, st.runs;
    if current != [] {
      all, runs := fragments + [current], st.runs + [(st.start, |dense|)];
    }
  }

  method CutFragments(dense: seq<InkPoint>, flags: seq<bool>, segments: seq<(Pt, Pt)>, radius: real, ghost scene: FlaggedScene)
    returns (fragments: seq<seq<InkPoint>>, ghost runs: seq<(nat, nat)>)
    requires scene.dense == dense && scene.flags == flags && scene.segments == segments && scene.radius == radius
    requires |flags| == |dense|
    ensures AreRuns(flags, |flags|, runs) && AreFragments(scene.isCut, dense, runs, fragments)
    ensures exists all :: AreRuns(flags, |flags|, all) && AreFragments(scene.isCut, dense, all, fragments)
  {
    fragments := [];
    var current: seq<InkPoint> := [];
    ghost var st := Cutting([], [], 0, []);
    assert Progress(scene.isCut, dense, flags, 0, st);
    for i := 0 to |dense|
      invariant Progress(scene.isCut, dense, flags, i, st) && st.fragments == fragments && st.current == current
    {
      fragments, current, st := CutSample(dense, flags, i, fragments, current, segments, radius, scene, st);
    }
    fragments, runs := FinishFragments(scene.isCut, dense, flags, fragments, current, st);
  }

  /** Consecutive samples at the same place are merged. */
  function Dedupe(points: seq<InkPoint>): seq<InkPoint> {
    if points == [] then []
    else
      var out := Dedupe(points[..|points| - 1]);
      var p := points[|points| - 1];
      if out == [] || out[|out| - 1].x != p.x || out[|out| - 1].y != p.y then out + [p] else out
  }

  /** Point i of the one sequence is in run at[i] of the other, which has one point per run of points at one place: its first. */
  ghost predicate IsDeduped(points: seq<InkPoint>, out: seq<InkPoint>, at: seq<nat>) {
    && |at| == |points| && (points == [] ==> out == []) && (points != [] ==> at[0] == 0 && at[|at| - 1] == |out| - 1 && out[0] == points[0])
    && (forall i :: 0 <= i < |points| - 1 ==> RunGoesOn(points, out, at, i))
    && (forall k :: 0 <= k < |out| - 1 ==> Pos(out[k]) != Pos(out[k + 1]))
  }

  ghost predicate RunGoesOn(points: seq<InkPoint>, out: seq<InkPoint>, at: seq<nat>, i: nat)
    requires i + 1 < |points| == |at|
  {
    && at[i] < |out| && at[i + 1] < |out| && Pos(points[i]) == Pos(out[at[i]]) && Pos(points[i + 1]) == Pos(out[at[i + 1]])
    && if Pos(points[i + 1]) == Pos(points[i]) then at[i + 1] == at[i] else at[i + 1] == at[i] + 1 && out[at[i + 1]] == points[i + 1]
  }

  lemma {:induction false} DedupeMerges(points: seq<InkPoint>) returns (at: seq<nat>)
    ensures IsDeduped(points, Dedupe(points), at) && (points != [] ==> Pos(points[|points| - 1]) == Pos(Dedupe(points)[at[|at| - 1]]))
  {
    if points == [] {
      at := [];
    } else {
      var n := |points| - 1;
      var init := DedupeMerges(points[..n]);
      var before, out := Dedupe(points[..n]), Dedupe(points);
      at := init + [|out| - 1];
      forall i | 0 <= i < n ensures RunGoesOn(points, out, at, i) {
        if i < n - 1 { assert RunGoesOn(points[..n], before, init, i); }
      }
    }
  }

  method DedupeLoop(points: seq<InkPoint>) returns (out: seq<InkPoint>)
    ensures out == Dedupe(points)
    ensures exists at :: IsDeduped(points, out, at)
  {
    out := [];
    for i := 0 to |points|
      invariant out == Dedupe(points[..i])
    {
      assert points[..i + 1][..i] == points[..i];
      var p := points[i];
      if out == [] || out[|out| - 1].x != p.x || out[|out| - 1].y != p.y { out := out + [p]; }
    }
    assert points[..|points|] == points;
    ghost var at := DedupeMerges(points);
  }

  /** Fragments of at least two points that the length test keeps, without repeated points. */
  function Remaining(fragments: seq<seq<InkPoint>>, longEnough: seq<InkPoint> -> bool): seq<seq<InkPoint>> {
    if fragments == [] then []
    else
      var f := fragments[|fragments| - 1];
      Remaining(fragments[..|fragments| - 1], longEnough) + if |f| >= 2 && longEnough(f) then [Dedupe(f)] else []
  }

  /** The parts are the fragments with two points or more that are long enough, in order, each without repeated points. */
  ghost predicate AreParts(fragments: seq<seq<InkPoint>>, longEnough: seq<InkPoint> -> bool, parts: seq<seq<InkPoint>>, picks: seq<nat>) {
    && |picks| == |parts|
    && (forall k, l :: 0 <= k < l < |picks| ==> picks[k] < picks[l])
    && (forall k :: 0 <= k < |picks| ==> picks[k] < |fragments| && IsMerged(fragments[picks[k]], parts[k]))
    && (forall i :: 0 <= i < |fragments| ==> (i in picks <==> |fragments[i]| >= 2 && longEnough(fragments[i])))
  }

  ghost predicate IsMerged(f: seq<InkPoint>, part: seq<InkPoint>) { exists at :: IsDeduped(f, part, at) }

  lemma {:induction false} RemainingAreParts(fragments: seq<seq<InkPoint>>, longEnough: seq<InkPoint> -> bool) returns (picks: seq<nat>)
    ensures AreParts(fragments, longEnough, Remaining(fragments, longEnough), picks)
  {
    if fragments == [] {
      picks := [];
    } else {
      var n := |fragments| - 1;
      var f := fragments[n];
      picks := RemainingAreParts(fragments[..n], longEnough);
      if |f| >= 2 && longEnough(f) {
        var at := DedupeMerges(f);
        PartAdded(fragments, longEnough, Remaining(fragments[..n], longEnough), picks, Dedupe(f));
        picks := picks + [n];
      } else {
        PartDropped(fragments, longEnough, Remaining(fragments[..n], longEnough), picks);
      }
    }
  }

  lemma PartAdded(fragments: seq<seq<InkPoint>>, longEnough: seq<InkPoint> -> bool, parts: seq<seq<InkPoint>>, picks: seq<nat>, last: seq<InkPoint>)
    requires fragments != [] && AreParts(fragments[..|fragments| - 1], longEnough, parts, picks)
    requires |fragments[|fragments| - 1]| >= 2 && longEnough(fragments[|fragments| - 1]) && IsMerged(fragments[|fragments| - 1], last)
    ensures AreParts(fragments, longEnough, parts + [last], picks + [|fragments| - 1])
  {
    var n := |fragments| - 1;
    var more := picks + [n];
    assert more[|picks|] == n;
    forall i | 0 <= i < |fragments| ensures i in more <==> |fragments[i]| >= 2 && longEnough(fragments[i]) {
      assert i in more <==> i in picks || i == n;
      if i < n { assert fragments[..n][i] == fragments[i]; }
    }
  }

  lemma PartDropped(fragments: seq<seq<InkPoint>>, longEnough: seq<InkPoint> -> bool, parts: seq<seq<InkPoint>>, picks: seq<nat>)
    requires fragments != [] && AreParts(fragments[..|fragments| - 1], longEnough, parts, picks)
    requires !(|fragments[|fragments| - 1]| >= 2 && longEnough(fragments[|fragments| - 1]))
    ensures AreParts(fragments, longEnough, parts, picks)
  {
    var n := |fragments| - 1;
    forall i | 0 <= i < |fragments| ensures i in picks <==> |fragments[i]| >= 2 && longEnough(fragments[i]) {
      if i < n { assert fragments[..n][i] == fragments[i]; }
    }
  }

  datatype Split = Untouched | Fragments(parts: seq<seq<InkPoint>>)

  /** Every vertex of every part is outside the whole eraser. */
  ghost predicate AllOutside(eraser: seq<Pt>, radius: real, parts: seq<seq<InkPoint>>) {
    forall k, j :: 0 <= k < |parts| && 0 <= j < |parts[k]| ==> !Erased(eraser, radius, Pos(parts[k][j]))
  }

  lemma {:induction false} DedupeSelects(points: seq<InkPoint>)
    ensures forall p :: p in Dedupe(points) ==> p in points
  {
    if points != [] {
      DedupeSelects(points[..|points| - 1]);
      assert points == points[..|points| - 1] + [points[|points| - 1]];
    }
  }

  lemma {:induction false} RemainingOutside(eraser: seq<Pt>, radius: real, fragments: seq<seq<InkPoint>>, longEnough: seq<InkPoint> -> bool)
    requires AllOutside(eraser, radius, fragments)
    ensures AllOutside(eraser, radius, Remaining(fragments, longEnough))
  {
    if fragments != [] {
      var n := |fragments| - 1;
      RemainingOutside(eraser, radius, fragments[..n], longEnough);
      DedupeSelects(fragments[n]);
      forall p | p in fragments[n] ensures !Erased(eraser, radius, Pos(p)) {
        var j :| 0 <= j < |fragments[n]| && fragments[n][j] == p;
      }
      forall j | 0 <= j < |Dedupe(fragments[n])| ensures !Erased(eraser, radius, Pos(Dedupe(fragments[n])[j])) {
        assert Dedupe(fragments[n])[j] in Dedupe(fragments[n]);
      }
    }
  }

  lemma FragmentOutside(eraser: seq<Pt>, radius: real, dense: seq<InkPoint>, l: nat, r: nat, f: seq<InkPoint>, j: nat)
    requires IsFragment(CutRelation(eraser, radius), dense, l, r, f) && j < |f|
    requires forall i :: l <= i < r ==> !Erased(eraser, radius, Pos(dense[i]))
    ensures !Erased(eraser, radius, Pos(f[j]))
  {
    var a := if l == 0 then 0 else 1;
    if a <= j < a + (r - l) {
      assert f[j] == f[a..a + (r - l)][j - a] == dense[l..r][j - a] == dense[l + j - a];
    }
  }

  // ---------- between the vertices ----------

  function Mix(t: real, a: real, b: real, l: real): real { (1.0 - t) * a + t * b - t * (1.0 - t) * l }

  /** A point of a segment, seen from e: between the distances of the ends, less at most a quarter of the squared length. */
  lemma DistanceAlong(u: Pt, v: Pt, t: real, e: Pt)
    ensures DistanceSq(e, At(u, v, t)) == Mix(t, DistanceSq(e, u), DistanceSq(e, v), LengthSq(u, v))
  {
    DistanceSqAlong(e, u, v, t);
    EndAlong(e, u, v);
    FromParabola(DistanceSq(e, u), DistanceSq(e, v), Dot(e, u, v), LengthSq(u, v), t, DistanceSq(e, At(u, v, t)));
  }

  lemma FromParabola(a: real, b: real, d: real, l: real, t: real, m: real)
    requires b == a + Parabola(d, l, 1.0) && m == a + Parabola(d, l, t)
    ensures m == Mix(t, a, b, l)
  {
    assert b == a + l - 2.0 * d;
  }

  lemma EndAlong(p: Pt, u: Pt, v: Pt)
    ensures DistanceSq(p, v) == DistanceSq(p, u) + Parabola(Dot(p, u, v), LengthSq(u, v), 1.0)
  {
    DistanceSqAlong(p, u, v, 1.0);
    EndsOfSegment(u, v);
  }

  lemma QuarterIsMost(t: real)
    ensures t * (1.0 - t) <= 0.25
  {
    SqSign(t - 0.5);
    assert Sq(t - 0.5) == 0.25 - t * (1.0 - t);
  }

  lemma MixExceeds(t: real, a: real, b: real, least: real)
    requires 0.0 <= t <= 1.0 && a > least && b > least
    ensures (1.0 - t) * a + t * b > least
  {
    if t == 0.0 {
      assert (1.0 - t) * a + t * b == a;
    } else {
      ProductSign(t, b - least, t * (b - least));
      ProductSign(1.0 - t, a - least, (1.0 - t) * (a - least));
      assert t * (b - least) + (1.0 - t) * (a - least) == (1.0 - t) * a + t * b - least;
      assert t * (b - least) != 0.0;
    }
  }

  lemma SagIsBounded(t: real, lengthSq: real, stepSq: real)
    requires 0.0 <= t <= 1.0 && 0.0 <= lengthSq <= stepSq
    ensures t * (1.0 - t) * lengthSq <= stepSq / 4.0
  {
    QuarterIsMost(t);
    ProductSign(0.25 - t * (1.0 - t), lengthSq, (0.25 - t * (1.0 - t)) * lengthSq);
    assert (0.25 - t * (1.0 - t)) * lengthSq == 0.25 * lengthSq - t * (1.0 - t) * lengthSq;
  }

  /** Between two points outside the eraser and at most a step apart, every point is almost outside. */
  lemma SegmentStaysClear(u: Pt, v: Pt, q: Pt, e: Pt, radius: real, step: real)
    requires OnSegment(u, v, q) && DistanceSq(u, v) <= Sq(step)
    requires DistanceSq(u, e) > Sq(radius) && DistanceSq(v, e) > Sq(radius)
    ensures DistanceSq(q, e) > Sq(radius) - Sq(step) / 4.0
  {
    var t: real :| 0.0 <= t <= 1.0 && q == At(u, v, t);
    DistanceAlong(u, v, t, e);
    DistanceSqSymmetric(u, e);
    DistanceSqSymmetric(v, e);
    DistanceSqSymmetric(q, e);
    DistanceSqSymmetric(u, v);
    DistanceSqNonNegative(u, v);
    MixStaysAbove(t, DistanceSq(e, u), DistanceSq(e, v), LengthSq(u, v), Sq(radius), Sq(step));
  }

  lemma MixStaysAbove(t: real, a: real, b: real, l: real, least: real, stepSq: real)
    requires 0.0 <= t <= 1.0 && a > least && b > least && 0.0 <= l <= stepSq
    ensures Mix(t, a, b, l) > least - stepSq / 4.0
  {
    MixExceeds(t, a, b, least);
    SagIsBounded(t, l, stepSq);
  }

  /** No two consecutive points are more than a step apart. */
  ghost predicate IsFine(f: seq<InkPoint>, step: real) { forall j :: 0 <= j < |f| - 1 ==> DistanceSq(Pos(f[j]), Pos(f[j + 1])) <= Sq(step) }

  ghost predicate AllFine(parts: seq<seq<InkPoint>>, step: real) { forall k :: 0 <= k < |parts| ==> IsFine(parts[k], step) }

  lemma OneMoreIsFine(f: seq<InkPoint>, p: InkPoint, step: real)
    requires f != [] && IsFine(f, step) && DistanceSq(Pos(f[|f| - 1]), Pos(p)) <= Sq(step)
    ensures IsFine(f + [p], step)
  {
  }

  /** Merging points at the same place keeps consecutive ones as near. */
  lemma {:induction false} DedupeIsFine(f: seq<InkPoint>, step: real)
    requires IsFine(f, step)
    ensures IsFine(Dedupe(f), step) && (f != [] ==> Dedupe(f) != [] && Pos(Dedupe(f)[|Dedupe(f)| - 1]) == Pos(f[|f| - 1]))
  {
    if f != [] {
      var n := |f| - 1;
      DedupeIsFine(f[..n], step);
      if n > 0 {
        assert DistanceSq(Pos(f[n - 1]), Pos(f[n - 1 + 1])) <= Sq(step);
        OneMoreIsFine(Dedupe(f[..n]), f[n], step);
      }
    }
  }

  lemma {:induction false} RemainingIsFine(fragments: seq<seq<InkPoint>>, longEnough: seq<InkPoint> -> bool, step: real)
    requires AllFine(fragments, step)
    ensures AllFine(Remaining(fragments, longEnough), step)
  {
    if fragments != [] {
      var n := |fragments| - 1;
      RemainingIsFine(fragments[..n], longEnough, step);
      DedupeIsFine(fragments[n], step);
    }
  }

  /** A cut is no farther from its sample than the other sample is. */
  lemma CutIsNear(eraser: seq<Pt>, radius: real, outside: InkPoint, inside: InkPoint, c: InkPoint)
    requires IsCut(eraser, radius, outside, inside, c)
    ensures DistanceSq(Pos(outside), Pos(c)) <= DistanceSq(Pos(outside), Pos(inside))
  {
    var lo: real :| 0.0 <= lo <= 1.0 - BISECTION && c == LerpPoint(outside, inside, lo)
      && !Erased(eraser, radius, Pos(c)) && Erased(eraser, radius, Pos(LerpPoint(outside, inside, lo + BISECTION)));
    PartIsShorter(outside.x, inside.x, lo);
    PartIsShorter(outside.y, inside.y, lo);
  }

  lemma PartIsShorter(u: real, v: real, t: real)
    requires 0.0 <= t <= 1.0
    ensures Sq(u - Lerp(u, v, t)) <= Sq(u - v)
  {
    var d := v - u;
    NegatedSq(d);
    NegatedSq(t * d);
    ShrunkSq(t, d);
    assert u - Lerp(u, v, t) == -(t * d) && u - v == -d;
  }

  lemma NegatedSq(x: real)
    ensures Sq(-x) == Sq(x)
  {
  }

  lemma ShrunkSq(t: real, d: real)
    requires 0.0 <= t <= 1.0
    ensures Sq(t * d) <= Sq(d)
  {
    SqProduct(t, d);
    SqSign(d);
    var rest := 1.0 - Sq(t);
    ProductSign(1.0 - t, 1.0 + t, (1.0 - t) * (1.0 + t));
    assert rest == (1.0 - t) * (1.0 + t);
    ProductSign(rest, Sq(d), rest * Sq(d));
    assert rest * Sq(d) == Sq(d) - Sq(t) * Sq(d);
  }

  lemma FragmentIsFine(eraser: seq<Pt>, radius: real, dense: seq<InkPoint>, l: nat, r: nat, f: seq<InkPoint>, step: real)
    requires IsFragment(CutRelation(eraser, radius), dense, l, r, f) && IsFine(dense, step)
    ensures IsFine(f, step)
  {
    var a := if l == 0 then 0 else 1;
    forall j | 0 <= j < |f| - 1 ensures DistanceSq(Pos(f[j]), Pos(f[j + 1])) <= Sq(step) {
      if j < a {
        CutIsNear(eraser, radius, dense[l], dense[l - 1], f[0]);
        assert f[1] == f[a..a + (r - l)][0] == dense[l];
        assert DistanceSq(Pos(dense[l - 1]), Pos(dense[l - 1 + 1])) <= Sq(step);
        DistanceSqSymmetric(Pos(dense[l - 1]), Pos(dense[l]));
        DistanceSqSymmetric(Pos(f[0]), Pos(f[1]));
      } else if j + 1 < a + (r - l) {
        assert f[j] == f[a..a + (r - l)][j - a] == dense[l..r][j - a] && f[j + 1] == f[a..a + (r - l)][j + 1 - a] == dense[l..r][j + 1 - a];
        assert DistanceSq(Pos(dense[l + j - a]), Pos(dense[l + j - a + 1])) <= Sq(step);
      } else {
        CutIsNear(eraser, radius, dense[r - 1], dense[r], f[j + 1]);
        assert f[j] == f[a..a + (r - l)][r - l - 1] == dense[l..r][r - l - 1];
        assert DistanceSq(Pos(dense[r - 1]), Pos(dense[r - 1 + 1])) <= Sq(step);
      }
    }
  }

  /** How finely the stroke is sampled. */
  function StepFor(radius: real): real { Max(radius / 2.0, 0.25) }

  /** Every point of every segment of every part, seen from every point of the eraser. */
  ghost predicate AllClear(eraser: seq<Pt>, radius: real, parts: seq<seq<InkPoint>>) {
    forall k, j, q, e :: 0 <= k < |parts| && 0 <= j < |parts[k]| - 1 && OnSegment(Pos(parts[k][j]), Pos(parts[k][j + 1]), q) && OnPolyline(eraser, e) ==>
      DistanceSq(q, e) > Sq(radius) - Sq(StepFor(radius)) / 4.0
  }

  lemma FineIsClear(eraser: seq<Pt>, radius: real, parts: seq<seq<InkPoint>>)
    requires radius >= 0.0 && AllOutside(eraser, radius, parts) && AllFine(parts, StepFor(radius))
    ensures AllClear(eraser, radius, parts)
  {
    forall k, j, q, e | 0 <= k < |parts| && 0 <= j < |parts[k]| - 1 && OnSegment(Pos(parts[k][j]), Pos(parts[k][j + 1]), q) && OnPolyline(eraser, e)
      ensures DistanceSq(q, e) > Sq(radius) - Sq(StepFor(radius)) / 4.0
    {
      assert IsFine(parts[k], StepFor(radius));
      assert !Erased(eraser, radius, Pos(parts[k][j])) && !Erased(eraser, radius, Pos(parts[k][j + 1]));
      SegmentStaysClear(Pos(parts[k][j]), Pos(parts[k][j + 1]), q, e, radius, StepFor(radius));
    }
  }

  /** What remains of a cut stroke is nowhere nearer to the eraser than the radius, but for the sag of one sample step. */
  lemma CutStrokeClear(points: seq<InkPoint>, eraser: seq<Pt>, radius: real, longEnough: seq<InkPoint> -> bool, flags: seq<bool>, runs: seq<(nat, nat)>, fragments: seq<seq<InkPoint>>)
    requires IsCutStroke(points, eraser, radius, flags, runs, fragments) && radius >= 0.0
    ensures AllClear(eraser, radius, Remaining(fragments, longEnough))
  {
    var dense := SamplesOf(points, radius);
    forall j | 0 <= j < |dense| - 1 ensures DistanceSq(Pos(dense[j]), Pos(dense[j + 1])) <= Sq(StepFor(radius)) {
      DenseIsFine(points, |points|, StepFor(radius), j);
    }
    forall k | 0 <= k < |fragments| ensures IsFine(fragments[k], StepFor(radius)) {
      FragmentIsFine(eraser, radius, dense, runs[k].0, runs[k].1, fragments[k], StepFor(radius));
    }
    RemainingIsFine(fragments, longEnough, StepFor(radius));
    CutStrokeOutside(points, eraser, radius, flags, runs, fragments);
    RemainingOutside(eraser, radius, fragments, longEnough);
    FineIsClear(eraser, radius, Remaining(fragments, longEnough));
  }

  /** The samples of the stroke, as splitStroke takes them. */
  function SamplesOf(points: seq<InkPoint>, radius: real): seq<InkPoint> {
    Dense(points, |points|, StepFor(radius))
  }

  /** The cut stroke before short pieces are dropped: one fragment per run of samples outside the eraser. */
  ghost predicate IsCutStroke(points: seq<InkPoint>, eraser: seq<Pt>, radius: real, flags: seq<bool>, runs: seq<(nat, nat)>, fragments: seq<seq<InkPoint>>) {
    var dense := SamplesOf(points, radius);
    && |flags| == |dense|
    && (forall i :: 0 <= i < |dense| ==> (flags[i] <==> Erased(eraser, radius, Pos(dense[i]))))
    && AreRuns(flags, |flags|, runs)
    && AreFragments(CutRelation(eraser, radius), dense, runs, fragments)
  }

  ghost predicate NothingErased(points: seq<InkPoint>, eraser: seq<Pt>, radius: real) {
    forall i :: 0 <= i < |SamplesOf(points, radius)| ==> !Erased(eraser, radius, Pos(SamplesOf(points, radius)[i]))
  }

  lemma SamplesInBox(points: seq<InkPoint>, radius: real, box: Box)
    requires AllIn(box, points)
    ensures AllIn(box, SamplesOf(points, radius))
  {
    DenseStaysInBox(points, |points|, StepFor(radius), box);
  }

  lemma FarBoxesEraseNothing(points: seq<InkPoint>, eraser: seq<Pt>, radius: real, sb: Box, eb: Box)
    requires AllIn(sb, points) && (forall i :: 0 <= i < |eraser| ==> InBox(eb, eraser[i])) && !BoxesIntersect(ExpandBox(sb, radius), eb)
    ensures NothingErased(points, eraser, radius)
  {
    SamplesInBox(points, radius, sb);
    var dense := SamplesOf(points, radius);
    forall i | 0 <= i < |dense| ensures !Erased(eraser, radius, Pos(dense[i])) {
      if radius >= 0.0 {
        forall e | OnPolyline(eraser, e) ensures DistanceSq(Pos(dense[i]), e) > Sq(radius) {
          PolylineInBox(eraser, eb, e);
          ApartBoxes(sb, eb, radius, Pos(dense[i]), e);
        }
      }
    }
  }

  lemma RunOutside(eraser: seq<Pt>, radius: real, dense: seq<InkPoint>, flags: seq<bool>, l: nat, r: nat, f: seq<InkPoint>)
    requires |flags| == |dense| && IsRun(flags, |flags|, l, r) && IsFragment(CutRelation(eraser, radius), dense, l, r, f)
    requires forall i :: 0 <= i < |dense| ==> (flags[i] <==> Erased(eraser, radius, Pos(dense[i])))
    ensures forall j :: 0 <= j < |f| ==> !Erased(eraser, radius, Pos(f[j]))
  {
    forall j | 0 <= j < |f| ensures !Erased(eraser, radius, Pos(f[j])) {
      FragmentOutside(eraser, radius, dense, l, r, f, j);
    }
  }

  lemma CutStrokeOutside(points: seq<InkPoint>, eraser: seq<Pt>, radius: real, flags: seq<bool>, runs: seq<(nat, nat)>, fragments: seq<seq<InkPoint>>)
    requires IsCutStroke(points, eraser, radius, flags, runs, fragments)
    ensures AllOutside(eraser, radius, fragments)
  {
    var dense := SamplesOf(points, radius);
    forall k | 0 <= k < |fragments| ensures forall j :: 0 <= j < |fragments[k]| ==> !Erased(eraser, radius, Pos(fragments[k][j])) {
      RunOutside(eraser, radius, dense, flags, runs[k].0, runs[k].1, fragments[k]);
    }
  }

  lemma FlagsAreErased(dense: seq<InkPoint>, flags: seq<bool>, eraser: seq<Pt>, box: Box, radius: real, segments: seq<(Pt, Pt)>)
    requires |flags| == |dense| && AllIn(box, dense) && AreNearSegments(eraser, ExpandBox(box, radius), segments)
    requires forall i :: 0 <= i < |dense| ==> flags[i] == Inside(segments, radius, Pos(dense[i]))
    ensures forall i :: 0 <= i < |dense| ==> (flags[i] <==> Erased(eraser, radius, Pos(dense[i])))
  {
    forall i | 0 <= i < |dense| ensures flags[i] <==> Erased(eraser, radius, Pos(dense[i])) {
      NearSegmentsSuffice(eraser, box, radius, segments, Pos(dense[i]));
    }
  }

  ghost predicate SplitMeans(points: seq<InkPoint>, eraser: seq<Pt>, radius: real, longEnough: seq<InkPoint> -> bool, r: Split,
                             flags: seq<bool>, runs: seq<(nat, nat)>, fragments: seq<seq<InkPoint>>) {
    && (r.Untouched? <==> NothingErased(points, eraser, radius))
    && (r.Fragments? && |points| == 1 ==> r.parts == [])
    && (r.Fragments? && |points| != 1 ==> IsCutStroke(points, eraser, radius, flags, runs, fragments) && exists picks :: AreParts(fragments, longEnough, r.parts, picks))
    && (r.Fragments? ==> AllOutside(eraser, radius, r.parts) && AllClear(eraser, radius, r.parts))
  }

  lemma InsideSamples(points: seq<InkPoint>, eraser: seq<Pt>, radius: real, box: Box, segments: seq<(Pt, Pt)>)
    requires AllIn(box, points) && AreNearSegments(eraser, ExpandBox(box, radius), segments)
    ensures forall i :: 0 <= i < |SamplesOf(points, radius)| ==>
      (Inside(segments, radius, Pos(SamplesOf(points, radius)[i])) <==> Erased(eraser, radius, Pos(SamplesOf(points, radius)[i])))
  {
    SamplesInBox(points, radius, box);
    var samples := SamplesOf(points, radius);
    forall i | 0 <= i < |samples| ensures Inside(segments, radius, Pos(samples[i])) <==> Erased(eraser, radius, Pos(samples[i])) {
      NearSegmentsSuffice(eraser, box, radius, segments, Pos(samples[i]));
    }
  }

  lemma MakeScene(dense: seq<InkPoint>, flags: seq<bool>, segments: seq<(Pt, Pt)>, radius: real, eraser: seq<Pt>, box: Box) returns (scene: FlaggedScene)
    requires |flags| == |dense| && AllIn(box, dense) && AreNearSegments(eraser, ExpandBox(box, radius), segments)
    requires forall i :: 0 <= i < |dense| ==> flags[i] == Inside(segments, radius, Pos(dense[i]))
    ensures scene == Scene(dense, flags, segments, radius, eraser, box, CutRelation(eraser, radius))
  {
    scene := Scene(dense, flags, segments, radius, eraser, box, CutRelation(eraser, radius));
  }

  lemma CutMeans(points: seq<InkPoint>, eraser: seq<Pt>, radius: real, longEnough: seq<InkPoint> -> bool, flags: seq<bool>, runs: seq<(nat, nat)>, fragments: seq<seq<InkPoint>>)
    requires IsCutStroke(points, eraser, radius, flags, runs, fragments) && true in flags && |points| != 1
    ensures SplitMeans(points, eraser, radius, longEnough, Fragments(Remaining(fragments, longEnough)), flags, runs, fragments)
  {
    CutStrokeOutside(points, eraser, radius, flags, runs, fragments);
    RemainingOutside(eraser, radius, fragments, longEnough);
    var i :| 0 <= i < |flags| && flags[i];
    assert Erased(eraser, radius, Pos(SamplesOf(points, radius)[i]));
    CutStrokeClear(points, eraser, radius, longEnough, flags, runs, fragments);
    var picks := RemainingAreParts(fragments, longEnough);
  }

  /** The part of splitStroke after the early exits. */
  method CutStroke(points: seq<InkPoint>, eraser: seq<Pt>, radius: real, segments: seq<(Pt, Pt)>, longEnough: seq<InkPoint> -> bool, ghost box: Box)
    returns (r: Split, ghost flags: seq<bool>, ghost runs: seq<(nat, nat)>, ghost fragments: seq<seq<InkPoint>>)
    requires |points| > 1 && AllIn(box, points) && AreNearSegments(eraser, ExpandBox(box, radius), segments)
    ensures SplitMeans(points, eraser, radius, longEnough, r, flags, runs, fragments)
  {
    SamplesInBox(points, radius, box);
    var dense := Densify(points, StepFor(radius));
    var insides := seq(|dense|, i requires 0 <= i < |dense| => Inside(segments, radius, Pos(dense[i])));
    FlagsAreErased(dense, insides, eraser, box, radius, segments);
    if true !in insides {
      assert forall i :: 0 <= i < |dense| ==> insides[i] in insides;
      return Untouched, [], [], [];
    }
    ghost var scene := MakeScene(dense, insides, segments, radius, eraser, box);
    var pieces;
    pieces, runs := CutFragments(dense, insides, segments, radius, scene);
    flags, fragments := insides, pieces;
    CutMeans(points, eraser, radius, longEnough, flags, runs, fragments);
    var parts := KeepLong(pieces, longEnough);
    r := Fragments(parts);
  }

  lemma EmptyPathErasesNothing(points: seq<InkPoint>, eraser: seq<Pt>, radius: real)
    requires points == [] || eraser == []
    ensures NothingErased(points, eraser, radius)
  {
  }

  lemma PlacesInBox(points: seq<InkPoint>, places: seq<Pt>, box: Box)
    requires |places| == |points| && (forall i :: 0 <= i < |points| ==> places[i] == Pos(points[i])) && forall i :: 0 <= i < |places| ==> InBox(box, places[i])
    ensures AllIn(box, points)
  {
    forall i | 0 <= i < |points| ensures InBox(box, Pos(points[i])) { assert InBox(box, places[i]); }
  }

  /**
   * `Untouched` exactly when no sample of the stroke is erased; otherwise the runs of samples outside the eraser, each ended
   * by cuts, without those the length test drops.
   */
  method SplitStroke(points: seq<InkPoint>, eraser: seq<Pt>, radius: real, longEnough: seq<InkPoint> -> bool)
    returns (r: Split, ghost flags: seq<bool>, ghost runs: seq<(nat, nat)>, ghost fragments: seq<seq<InkPoint>>)
    ensures r.Untouched? <==> NothingErased(points, eraser, radius)
    ensures r.Fragments? ==> AllOutside(eraser, radius, r.parts) && AllClear(eraser, radius, r.parts)
    ensures SplitMeans(points, eraser, radius, longEnough, r, flags, runs, fragments)
  {
    flags, runs, fragments := [], [], [];
    var places := seq(|points|, i requires 0 <= i < |points| => Pos(points[i]));
    var sb := BoundingBox(places);
    var eb := BoundingBox(eraser);
    if sb.NoBox? || eb.NoBox? {
      EmptyPathErasesNothing(points, eraser, radius);
      return Untouched, [], [], [];
    }
    PlacesInBox(points, places, sb.box);
    var near := ExpandBox(sb.box, radius);
    if !BoxesIntersect(near, eb.box) {
      FarBoxesEraseNothing(points, eraser, radius, sb.box, eb.box);
      return Untouched, [], [], [];
    }
    var segments := CollectNear(eraser, near);
    InsideSamples(points, eraser, radius, sb.box, segments);
    if segments == [] { return Untouched, [], [], []; }
    if |points| == 1 {
      OneSample(points, radius);
      if Inside(segments, radius, Pos(points[0])) { return Fragments([]), [], [], []; }
      return Untouched, [], [], [];
    }
    r, flags, runs, fragments := CutStroke(points, eraser, radius, segments, longEnough, sb.box);
  }

  lemma OneSample(points: seq<InkPoint>, radius: real)
    requires |points| == 1
    ensures SamplesOf(points, radius) == [points[0]] && SamplesOf(points, radius)[0] == points[0]
  {
  }

  method KeepLong(fragments: seq<seq<InkPoint>>, longEnough: seq<InkPoint> -> bool) returns (parts: seq<seq<InkPoint>>)
    ensures parts == Remaining(fragments, longEnough)
  {
    parts := [];
    for i := 0 to |fragments|
      invariant parts == Remaining(fragments[..i], longEnough)
    {
      assert fragments[..i + 1][..i] == fragments[..i];
      if |fragments[i]| >= 2 && longEnough(fragments[i]) {
        var f := DedupeLoop(fragments[i]);
        parts := parts + [f];
      }
    }
    assert fragments[..|fragments|] == fragments;
  }
}
