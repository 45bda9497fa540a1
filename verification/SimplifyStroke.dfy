module SimplifyStroke {
  // Ramer–Douglas–Peucker with pressure, as the source runs it: a keep array and an explicit stack. The iterative form is
  // proved equal to the recursive definition of the algorithm (Keeps), about which the guarantees are then shown. Scores are
  // compared through their squares.

  import opened Geometry

  /** The two tolerances: distance and pressure. */
  datatype Tolerance = Tolerance(epsilon: real, pressure: real)

  predicate Positive(tol: Tolerance) { tol.epsilon > 0.0 && tol.pressure > 0.0 }

  function IndexParam(s: nat, e: nat, i: nat): real
    requires s < e
  {
    (i - s) as real / (e - s) as real
  }

  /** Pressure interpolated by index between points s and e. */
  function PressureAt(points: seq<InkPoint>, s: nat, e: nat, i: nat): real
    requires s < e < |points|
  {
    Lerp(points[s].p, points[e].p, IndexParam(s, e, i))
  }

  function ScoreSq(points: seq<InkPoint>, s: nat, e: nat, i: nat, tol: Tolerance): real
    requires s < e < |points| && i < |points| && Positive(tol)
  {
    SqSign(tol.epsilon);
    SqSign(tol.pressure);
    Max(DistanceSqToSegment(Pos(points[i]), Pos(points[s]), Pos(points[e])) / Sq(tol.epsilon),
        Sq(points[i].p - PressureAt(points, s, e, i)) / Sq(tol.pressure))
  }

  /** Point i may be dropped between its kept neighbours s and e. */
  ghost predicate Negligible(points: seq<InkPoint>, s: nat, e: nat, i: nat, tol: Tolerance)
    requires s < e < |points| && i < |points|
  {
    && DistanceSqToSegment(Pos(points[i]), Pos(points[s]), Pos(points[e])) <= Sq(tol.epsilon)
    && -tol.pressure <= points[i].p - PressureAt(points, s, e, i) <= tol.pressure
  }

  lemma QuotientAtMostOne(n: real, d: real)
    requires d > 0.0
    ensures n / d <= 1.0 <==> n <= d
  {
    var q := n / d;
    assert q * d == n;
    if q > 1.0 { ProductSign(q - 1.0, d, n - d); }
    if q <= 1.0 { ProductSign(1.0 - q, d, d - n); }
  }

  lemma SqWithin(x: real, r: real)
    requires -r <= x <= r
    ensures Sq(x) <= Sq(r)
  {
    ProductSign(r - x, r + x, (r - x) * (r + x));
    DifferenceOfSquares(r, x);
  }

  lemma DifferenceOfSquares(r: real, x: real)
    ensures (r - x) * (r + x) == Sq(r) - Sq(x)
  {
  }

  lemma SqAtMost(x: real, r: real)
    requires r > 0.0
    ensures Sq(x) <= Sq(r) <==> -r <= x <= r
  {
    if x > r || -x > r { SqOver(x, r); } else { SqWithin(x, r); }
  }

  lemma LowScoreIsNegligible(points: seq<InkPoint>, s: nat, e: nat, i: nat, tol: Tolerance)
    requires s < e < |points| && i < |points| && Positive(tol)
    ensures ScoreSq(points, s, e, i, tol) <= 1.0 <==> Negligible(points, s, e, i, tol)
  {
    SqSign(tol.epsilon);
    SqSign(tol.pressure);
    var dp := points[i].p - PressureAt(points, s, e, i);
    QuotientAtMostOne(DistanceSqToSegment(Pos(points[i]), Pos(points[s]), Pos(points[e])), Sq(tol.epsilon));
    QuotientAtMostOne(Sq(dp), Sq(tol.pressure));
    SqAtMost(dp, tol.pressure);
  }

  // ---------- the recursive algorithm ----------

  /** Best candidate among the points strictly between s and k: the first one with the largest positive score, or -1. */
  function Farthest(points: seq<InkPoint>, s: nat, e: nat, k: nat, tol: Tolerance): (best: (int, real))
    requires s < k <= e < |points| && Positive(tol)
    ensures best.0 == -1 || s < best.0 < k
    ensures best.0 == -1 ==> best.1 == 0.0
    ensures best.0 != -1 ==> best.1 == ScoreSq(points, s, e, best.0, tol)
    ensures forall i :: s < i < k ==> ScoreSq(points, s, e, i, tol) <= best.1
  {
    if k == s + 1 then (-1, 0.0)
    else
      var best := Farthest(points, s, e, k - 1, tol);
      var score := ScoreSq(points, s, e, k - 1, tol);
      if score > best.1 then (k - 1, score) else best
  }

  predicate Splits(points: seq<InkPoint>, s: nat, e: nat, tol: Tolerance)
    requires s < e < |points| && Positive(tol)
  {
    var (index, score) := Farthest(points, s, e, e, tol);
    index != -1 && score > 1.0
  }

  /** Does the recursive algorithm keep point i strictly inside (s, e)? */
  predicate Keeps(points: seq<InkPoint>, s: nat, e: nat, i: nat, tol: Tolerance)
    requires s < e < |points| && Positive(tol)
    decreases e - s
  {
    if !(s < i < e) || !Splits(points, s, e, tol) then false
    else
      var index := Farthest(points, s, e, e, tol).0;
      i == index || (if i < index then Keeps(points, s, index, i, tol) else Keeps(points, index, e, i, tol))
  }

  predicate Survives(points: seq<InkPoint>, i: nat, tol: Tolerance)
    requires |points| > 2 && i < |points| && Positive(tol)
  {
    i == 0 || i == |points| - 1 || Keeps(points, 0, |points| - 1, i, tol)
  }

  /** Between two kept points with nothing kept in between, everything is negligible. */
  lemma {:induction false} GapsAreNegligible(points: seq<InkPoint>, s: nat, e: nat, l: nat, r: nat, i: nat, tol: Tolerance)
    requires s <= l < i < r <= e < |points| && Positive(tol)
    requires l == s || Keeps(points, s, e, l, tol)
    requires r == e || Keeps(points, s, e, r, tol)
    requires forall k :: l < k < r ==> !Keeps(points, s, e, k, tol)
    ensures Negligible(points, l, r, i, tol)
    decreases e - s
  {
    if !Splits(points, s, e, tol) {
      LowScoreIsNegligible(points, s, e, i, tol);
    } else {
      var index := Farthest(points, s, e, e, tol).0;
      assert Keeps(points, s, e, index, tol);
      if r <= index {
        assert forall k :: l < k < r ==> Keeps(points, s, e, k, tol) == Keeps(points, s, index, k, tol);
        GapsAreNegligible(points, s, index, l, r, i, tol);
      } else {
        assert index <= l;
        assert forall k :: l < k < r ==> Keeps(points, s, e, k, tol) == Keeps(points, index, e, k, tol);
        GapsAreNegligible(points, index, e, l, r, i, tol);
      }
    }
  }

  /** Point i stands out between s and e: it is not negligible there, and no point scores higher, none before it as high. */
  ghost predicate StandsOut(points: seq<InkPoint>, s: nat, e: nat, i: nat, tol: Tolerance)
    requires s < i < e < |points| && Positive(tol)
  {
    && !Negligible(points, s, e, i, tol)
    && forall k :: s < k < e ==> ScoreSq(points, s, e, k, tol) <= ScoreSq(points, s, e, i, tol) && (k < i ==> ScoreSq(points, s, e, k, tol) < ScoreSq(points, s, e, i, tol))
  }

  lemma {:induction false} FarthestIsFirst(points: seq<InkPoint>, s: nat, e: nat, k: nat, tol: Tolerance)
    requires s < k <= e < |points| && Positive(tol)
    ensures var best := Farthest(points, s, e, k, tol); forall i :: s < i < best.0 ==> ScoreSq(points, s, e, i, tol) < best.1
    decreases k
  {
    if k > s + 1 { FarthestIsFirst(points, s, e, k - 1, tol); }
  }

  /** A point is only kept because it stands out between two other kept points. */
  lemma {:induction false} KeptStandsOut(points: seq<InkPoint>, s: nat, e: nat, i: nat, tol: Tolerance) returns (l: nat, r: nat)
    requires s < e < |points| && Positive(tol) && Keeps(points, s, e, i, tol)
    ensures s <= l < i < r <= e && (l == s || Keeps(points, s, e, l, tol)) && (r == e || Keeps(points, s, e, r, tol))
    ensures StandsOut(points, l, r, i, tol)
    decreases e - s
  {
    var index := Farthest(points, s, e, e, tol).0;
    if i == index {
      l, r := s, e;
      LowScoreIsNegligible(points, s, e, i, tol);
      FarthestIsFirst(points, s, e, e, tol);
    } else if i < index {
      l, r := KeptStandsOut(points, s, index, i, tol);
    } else {
      l, r := KeptStandsOut(points, index, e, i, tol);
    }
  }

  // ---------- the iterative algorithm ----------

  method FarthestPoint(points: seq<InkPoint>, s: nat, e: nat, tol: Tolerance) returns (index: int, maxScore: real)
    requires s < e < |points| && Positive(tol)
    ensures (index, maxScore) == Farthest(points, s, e, e, tol)
  {
    maxScore := 0.0;
    index := -1;
    for i := s + 1 to e
      invariant (index, maxScore) == Farthest(points, s, e, i, tol)
    {
      var score := ScoreSq(points, s, e, i, tol);
      if score > maxScore {
        maxScore := score;
        index := i;
      }
    }
  }

  /** The points whose flag is set, in order; `kept` are their indices. */
  method Filter(points: seq<InkPoint>, keep: array<bool>) returns (out: seq<InkPoint>, ghost kept: seq<nat>)
    requires keep.Length == |points|
    ensures Selects(points, out, kept)
    ensures forall i :: 0 <= i < |points| ==> (keep[i] <==> i in kept)
  {
    out, kept := [], [];
    for i := 0 to |points|
      invariant Selects(points, out, kept)
      invariant forall j :: 0 <= j < |kept| ==> kept[j] < i
      invariant forall k :: 0 <= k < i ==> (keep[k] <==> k in kept)
    {
      if keep[i] {
        ghost var was := kept;
        out, kept := out + [points[i]], kept + [i];
        assert kept[|kept| - 1] == i;
        assert forall k :: k in kept <==> k in was || k == i;
      }
    }
  }

  /** `out` is the subsequence of `points` at the strictly increasing indices `kept`. */
  ghost predicate Selects(points: seq<InkPoint>, out: seq<InkPoint>, kept: seq<nat>) {
    && |out| == |kept|
    && (forall j :: 0 <= j < |kept| ==> kept[j] < |points| && out[j] == points[kept[j]])
    && (forall j, k :: 0 <= j < k < |kept| ==> kept[j] < kept[k])
  }

  ghost predicate KeepsEnds(points: seq<InkPoint>, kept: seq<nat>) {
    points != [] ==> kept != [] && kept[0] == 0 && kept[|kept| - 1] == |points| - 1
  }

  ghost predicate GapNegligible(points: seq<InkPoint>, s: nat, e: nat, tol: Tolerance)
    requires s < e < |points|
  {
    forall i :: s < i < e ==> Negligible(points, s, e, i, tol)
  }

  /** A subsequence with both ends, in which everything skipped is negligible between its kept neighbours. */
  ghost predicate IsSimplification(points: seq<InkPoint>, out: seq<InkPoint>, kept: seq<nat>, tol: Tolerance) {
    && Selects(points, out, kept)
    && KeepsEnds(points, kept)
    && (forall j :: 0 <= j < |kept| - 1 ==> GapNegligible(points, kept[j], kept[j + 1], tol))
  }

  /** Work left: each interval on the stack counts for the pops it can still cause. */
  ghost function Work(stack: seq<(nat, nat)>): int {
    if stack == [] then 0
    else var (s, e) := stack[|stack| - 1]; Work(stack[..|stack| - 1]) + 2 * (e as int - s as int) - 1
  }

  lemma WorkNonNegative(stack: seq<(nat, nat)>)
    requires forall k :: 0 <= k < |stack| ==> stack[k].0 < stack[k].1
    ensures Work(stack) >= 0
  {
  }

  lemma WorkSplit(rest: seq<(nat, nat)>, s: nat, index: nat, e: nat)
    ensures Work(rest + [(s, e)]) == Work(rest) + 2 * (e - s) - 1
    ensures Work(rest + [(s, index), (index, e)]) == Work(rest) + 2 * (e - s) - 2
  {
    assert (rest + [(s, e)])[..|rest|] == rest;
    var two := rest + [(s, index), (index, e)];
    assert two[..|two| - 1] == rest + [(s, index)];
    assert (rest + [(s, index)])[..|rest|] == rest;
  }

  ghost predicate Waiting(points: seq<InkPoint>, stack: seq<(nat, nat)>, i: nat, tol: Tolerance)
    requires Positive(tol) && forall k :: 0 <= k < |stack| ==> stack[k].0 < stack[k].1 < |points|
  {
    exists k :: 0 <= k < |stack| && Keeps(points, stack[k].0, stack[k].1, i, tol)
  }

  lemma WaitingPush(points: seq<InkPoint>, rest: seq<(nat, nat)>, s: nat, e: nat, i: nat, tol: Tolerance)
    requires Positive(tol) && (forall k :: 0 <= k < |rest| ==> rest[k].0 < rest[k].1 < |points|) && s < e < |points|
    ensures Waiting(points, rest + [(s, e)], i, tol) <==> Waiting(points, rest, i, tol) || Keeps(points, s, e, i, tol)
  {
    var stack := rest + [(s, e)];
    assert forall k :: 0 <= k < |rest| ==> stack[k] == rest[k];
    assert stack[|rest|] == (s, e);
    if Waiting(points, rest, i, tol) {
      var k :| 0 <= k < |rest| && Keeps(points, rest[k].0, rest[k].1, i, tol);
      assert Keeps(points, stack[k].0, stack[k].1, i, tol);
    }
    if Keeps(points, s, e, i, tol) { assert Keeps(points, stack[|rest|].0, stack[|rest|].1, i, tol); }
  }

  lemma WaitingSplit(points: seq<InkPoint>, rest: seq<(nat, nat)>, s: nat, e: nat, i: nat, tol: Tolerance)
    requires Positive(tol) && (forall k :: 0 <= k < |rest| ==> rest[k].0 < rest[k].1 < |points|) && s < e < |points|
    ensures Splits(points, s, e, tol) ==>
      var index := Farthest(points, s, e, e, tol).0;
      (Waiting(points, rest + [(s, e)], i, tol) <==> i == index || Waiting(points, rest + [(s, index), (index, e)], i, tol))
    ensures !Splits(points, s, e, tol) ==> (Waiting(points, rest + [(s, e)], i, tol) <==> Waiting(points, rest, i, tol))
  {
    WaitingPush(points, rest, s, e, i, tol);
    if Splits(points, s, e, tol) {
      var index := Farthest(points, s, e, e, tol).0;
      WaitingPush(points, rest, s, index, i, tol);
      WaitingPush(points, rest + [(s, index)], index, e, i, tol);
      assert rest + [(s, index)] + [(index, e)] == rest + [(s, index), (index, e)];
    }
  }

  /** The iterative form keeps exactly the points the recursive algorithm keeps. */
  method MarkKept(points: seq<InkPoint>, tol: Tolerance) returns (keep: array<bool>)
    requires |points| > 2 && Positive(tol)
    ensures fresh(keep) && keep.Length == |points|
    ensures forall i :: 0 <= i < |points| ==> (keep[i] <==> Survives(points, i, tol))
  {
    var n := |points|;
    keep := new bool[n](_ => false);
    keep[0], keep[n - 1] := true, true;
    var stack: seq<(nat, nat)> := [(0, n - 1)];
    forall i: nat | i < n ensures Waiting(points, stack, i, tol) <==> Keeps(points, 0, n - 1, i, tol) {
      WaitingPush(points, [], 0, n - 1, i, tol);
      assert [] + [(0, n - 1)] == stack;
    }
    while stack != []
      invariant forall k :: 0 <= k < |stack| ==> stack[k].0 < stack[k].1 < n
      invariant forall i :: 0 <= i < n ==> (keep[i] || Waiting(points, stack, i, tol) <==> Survives(points, i, tol))
      decreases Work(stack)
    {
      var (s, e) := stack[|stack| - 1];
      var rest := stack[..|stack| - 1];
      assert stack == rest + [(s, e)];
      forall i: nat { WaitingSplit(points, rest, s, e, i, tol); }
      var index, maxScore := FarthestPoint(points, s, e, tol);
      WorkNonNegative(rest);
      if index != -1 && maxScore > 1.0 {
        WorkSplit(rest, s, index, e);
        keep[index] := true;
        stack := rest + [(s, index), (index, e)];
      } else {
        WorkSplit(rest, s, s, e);
        stack := rest;
      }
    }
  }

  lemma NothingBetween(kept: seq<nat>, j: nat, k: nat)
    requires j + 1 < |kept| && kept[j] < k < kept[j + 1]
    requires forall i, m :: 0 <= i < m < |kept| ==> kept[i] < kept[m]
    ensures k !in kept
  {
  }

  lemma SurvivorGap(points: seq<InkPoint>, kept: seq<nat>, j: nat, tol: Tolerance)
    requires |points| > 2 && Positive(tol) && j + 1 < |kept|
    requires forall i :: 0 <= i < |kept| ==> kept[i] < |points|
    requires forall i, k :: 0 <= i < k < |kept| ==> kept[i] < kept[k]
    requires forall i :: 0 <= i < |points| ==> (i in kept <==> Survives(points, i, tol))
    ensures GapNegligible(points, kept[j], kept[j + 1], tol)
  {
    var last, l, r := |points| - 1, kept[j], kept[j + 1];
    assert l in kept && r in kept;
    forall k | l < k < r ensures !Keeps(points, 0, last, k, tol) {
      NothingBetween(kept, j, k);
    }
    forall i | l < i < r ensures Negligible(points, l, r, i, tol) {
      GapsAreNegligible(points, 0, last, l, r, i, tol);
    }
  }

  /** Every kept point but the ends stands out between two kept ones: nothing more could have been dropped between these. */
  ghost predicate NoneIsIdle(points: seq<InkPoint>, kept: seq<nat>, tol: Tolerance)
    requires Positive(tol)
  {
    forall i :: i in kept && 0 < i < |points| - 1 ==> IsNeeded(points, kept, i, tol)
  }

  ghost predicate IsNeeded(points: seq<InkPoint>, kept: seq<nat>, i: nat, tol: Tolerance)
    requires Positive(tol)
  {
    exists l, r :: l in kept && r in kept && l < i < r < |points| && StandsOut(points, l, r, i, tol)
  }

  lemma SurvivorsAreNeeded(points: seq<InkPoint>, kept: seq<nat>, tol: Tolerance)
    requires |points| > 2 && Positive(tol) && forall i :: 0 <= i < |points| ==> (i in kept <==> Survives(points, i, tol))
    ensures NoneIsIdle(points, kept, tol)
  {
    forall i | i in kept && 0 < i < |points| - 1 ensures IsNeeded(points, kept, i, tol) {
      var l, r := KeptStandsOut(points, 0, |points| - 1, i, tol);
      assert l in kept && r in kept;
    }
  }

  lemma SurvivorsSimplify(points: seq<InkPoint>, out: seq<InkPoint>, kept: seq<nat>, tol: Tolerance)
    requires |points| > 2 && Positive(tol) && Selects(points, out, kept)
    requires forall i :: 0 <= i < |points| ==> (i in kept <==> Survives(points, i, tol))
    ensures IsSimplification(points, out, kept, tol)
  {
    assert 0 in kept && |points| - 1 in kept;
    var first :| 0 <= first < |kept| && kept[first] == 0;
    var last :| 0 <= last < |kept| && kept[last] == |points| - 1;
    forall j | 0 <= j < |kept| - 1 ensures GapNegligible(points, kept[j], kept[j + 1], tol) {
      SurvivorGap(points, kept, j, tol);
    }
  }

  /** What simplifyStroke returns: everything when there is nothing to simplify, else exactly the surviving points. */
  ghost predicate Simplified(points: seq<InkPoint>, out: seq<InkPoint>, kept: seq<nat>, tol: Tolerance)
    requires tol.pressure > 0.0
  {
    && Selects(points, out, kept)
    && forall i :: 0 <= i < |points| ==> (i in kept <==> |points| <= 2 || tol.epsilon <= 0.0 || Survives(points, i, tol))
  }

  lemma KeepAll(points: seq<InkPoint>, tol: Tolerance) returns (kept: seq<nat>)
    requires tol.pressure > 0.0 && (|points| <= 2 || tol.epsilon <= 0.0)
    ensures Simplified(points, points, kept, tol) && IsSimplification(points, points, kept, tol)
  {
    kept := seq(|points|, i => i);
    forall i | 0 <= i < |points| ensures i in kept { assert kept[i] == i; }
  }

  method Simplify(points: seq<InkPoint>, epsilon: real, pressureEpsilon: real := 0.05) returns (out: seq<InkPoint>, ghost kept: seq<nat>)
    requires pressureEpsilon > 0.0
    ensures Simplified(points, out, kept, Tolerance(epsilon, pressureEpsilon))
    ensures IsSimplification(points, out, kept, Tolerance(epsilon, pressureEpsilon))
    ensures |points| <= 2 || epsilon <= 0.0 ==> out == points
    ensures |points| > 2 && epsilon > 0.0 ==> NoneIsIdle(points, kept, Tolerance(epsilon, pressureEpsilon))
  {
    if |points| <= 2 || epsilon <= 0.0 {
      kept := KeepAll(points, Tolerance(epsilon, pressureEpsilon));
      return points, kept;
    }
    var tol := Tolerance(epsilon, pressureEpsilon);
    var keep := MarkKept(points, tol);
    out, kept := Filter(points, keep);
    SurvivorsSimplify(points, out, kept, tol);
    SurvivorsAreNeeded(points, kept, tol);
  }

  // ---------- point cap ----------

  /** All points lie within a square of side `size`. */
  ghost predicate Fits(points: seq<InkPoint>, size: real) {
    forall i, j :: 0 <= i < |points| && 0 <= j < |points| ==>
      -size <= points[i].x - points[j].x <= size && -size <= points[i].y - points[j].y <= size
  }

  ghost predicate PressuresInUnit(points: seq<InkPoint>) {
    forall i :: 0 <= i < |points| ==> 0.0 <= points[i].p <= 1.0
  }

  ghost function Abs(x: real): (r: real)
    ensures r >= 0.0 && r >= x && r >= -x
  {
    if x >= 0.0 then x else -x
  }

  /** A bound on all coordinates. */
  ghost function Reach(points: seq<InkPoint>): (r: real)
    ensures r >= 0.0
    ensures forall i :: 0 <= i < |points| ==> -r <= points[i].x <= r && -r <= points[i].y <= r
  {
    if points == [] then 0.0 else
      var rest := Reach(points[1..]);
      assert forall i :: 1 <= i < |points| ==> points[i] == points[1..][i - 1];
      rest + Abs(points[0].x) + Abs(points[0].y)
  }

  lemma SqDouble(x: real)
    ensures Sq(2.0 * x) == 4.0 * Sq(x)
  {
  }

  lemma CloseToFirst(q: Pt, a: Pt, b: Pt, size: real, epsilon: real)
    requires -size <= q.x - a.x <= size && -size <= q.y - a.y <= size && epsilon >= 2.0 * size >= 0.0
    ensures DistanceSqToSegment(q, a, b) <= Sq(epsilon)
  {
    NearestIsMinimum(q, a, b, 0.0);
    EndsOfSegment(a, b);
    SqWithin(q.x - a.x, size);
    SqWithin(q.y - a.y, size);
    SqWithin(2.0 * size, epsilon);
    SqDouble(size);
    SqSign(size);
  }

  lemma IndexParamInUnit(s: nat, e: nat, i: nat)
    requires s <= i <= e && s < e
    ensures 0.0 <= IndexParam(s, e, i) <= 1.0
  {
    QuotientInUnit((i - s) as real, (e - s) as real);
  }

  /** With epsilon past twice the size, nothing scores above 1 when the pressure tolerance is 1: only the ends survive. */
  lemma LargeEpsilonKeepsEnds(points: seq<InkPoint>, i: nat, size: real, epsilon: real)
    requires 0 < i < |points| - 1 && Fits(points, size) && PressuresInUnit(points)
    requires epsilon > 0.0 && epsilon >= 2.0 * size >= 0.0
    ensures !Survives(points, i, Tolerance(epsilon, 1.0))
  {
    var tol, e := Tolerance(epsilon, 1.0), |points| - 1;
    var index := Farthest(points, 0, e, e, tol).0;
    if index != -1 {
      CloseToFirst(Pos(points[index]), Pos(points[0]), Pos(points[e]), size, epsilon);
      IndexParamInUnit(0, e, index);
      Between(points[0].p, points[e].p, IndexParam(0, e, index));
      LowScoreIsNegligible(points, 0, e, index, tol);
    }
  }

  /** The value of eps after n rounds of doubling. */
  ghost function Doubled(eps: real, n: nat): real
    decreases n
  {
    if n == 0 then eps else Doubled(eps * 2.0, n - 1) }

  lemma {:induction false} DoubledGrows(eps: real, n: nat)
    requires eps > 0.0
    ensures Doubled(eps, n) >= eps * (n + 1) as real
    decreases n
  {
    if n > 0 {
      DoubledGrows(eps * 2.0, n - 1);
      ProductSign(eps, (n - 1) as real, eps * (n - 1) as real);
      TwiceAsMany(eps, n);
    }
  }

  lemma TwiceAsMany(eps: real, n: nat)
    requires n > 0
    ensures eps * 2.0 * n as real == eps * (n + 1) as real + eps * (n - 1) as real
  {
    assert (n + 1) as real + (n - 1) as real == 2.0 * n as real;
  }

  /** Doubling a positive number often enough passes any bound. */
  lemma DoublingPasses(start: real, bound: real) returns (n: nat)
    requires start > 0.0
    ensures n >= 1 && Doubled(start, n) >= bound
  {
    var q := bound / start;
    n := if q <= 0.0 then 1 else q.Floor + 1;
    DoubledGrows(start, n);
    assert q * start == bound;
    ProductSign((n + 1) as real - q, start, start * (n + 1) as real - bound);
  }

  lemma LargeEpsilonLeavesTwo(points: seq<InkPoint>, out: seq<InkPoint>, kept: seq<nat>, size: real, epsilon: real)
    requires Simplified(points, out, kept, Tolerance(epsilon, 1.0))
    requires Fits(points, size) && PressuresInUnit(points) && epsilon > 0.0 && epsilon >= 2.0 * size >= 0.0
    ensures |out| <= 2
  {
    if |points| <= 2 {
      SelectionBound(points, out, kept);
    } else {
      if |kept| > 2 {
        assert kept[0] < kept[1] < kept[2];
        assert kept[1] in kept;
        LargeEpsilonKeepsEnds(points, kept[1], size, epsilon);
      }
    }
  }

  lemma {:induction false} IndexAtLeast(kept: seq<nat>, j: nat)
    requires j < |kept|
    requires forall i, k :: 0 <= i < k < |kept| ==> kept[i] < kept[k]
    ensures kept[j] >= j
  {
    if j > 0 { IndexAtLeast(kept, j - 1); }
  }

  lemma SelectionBound(points: seq<InkPoint>, out: seq<InkPoint>, kept: seq<nat>)
    requires Selects(points, out, kept)
    ensures |out| <= |points|
  {
    if kept != [] { IndexAtLeast(kept, |kept| - 1); }
  }

  /** Why the cap cannot go below two: a simplification of two or more points always has two or more. */
  lemma EndsAlwaysSurvive(points: seq<InkPoint>, out: seq<InkPoint>, kept: seq<nat>, tol: Tolerance)
    requires IsSimplification(points, out, kept, tol)
    ensures |points| >= 2 ==> |out| >= 2
    ensures |points| <= 1 ==> |out| == |points|
  {
    SelectionBound(points, out, kept);
  }

  /** `out` is a subsequence of `points` with the same ends. */
  ghost predicate Thinned(points: seq<InkPoint>, out: seq<InkPoint>) {
    exists kept :: Selects(points, out, kept) && KeepsEnds(points, kept)
  }

  lemma SelectsCompose(points: seq<InkPoint>, mid: seq<InkPoint>, out: seq<InkPoint>, k1: seq<nat>, k2: seq<nat>) returns (kept: seq<nat>)
    requires Selects(points, mid, k1) && Selects(mid, out, k2)
    ensures Selects(points, out, kept) && |kept| == |k2|
    ensures forall j :: 0 <= j < |k2| ==> kept[j] == k1[k2[j]]
  {
    kept := seq(|k2|, j requires 0 <= j < |k2| => k1[k2[j]]);
    forall j, k | 0 <= j < k < |kept| ensures kept[j] < kept[k] {
      assert k2[j] < k2[k];
    }
  }

  lemma ThinnedTransitive(points: seq<InkPoint>, mid: seq<InkPoint>, out: seq<InkPoint>)
    requires Thinned(points, mid) && Thinned(mid, out)
    ensures Thinned(points, out)
  {
    var k1 :| Selects(points, mid, k1) && KeepsEnds(points, k1);
    var k2 :| Selects(mid, out, k2) && KeepsEnds(mid, k2);
    var kept := SelectsCompose(points, mid, out, k1, k2);
    assert points != [] ==> kept[0] == k1[0] && kept[|kept| - 1] == k1[|k1| - 1];
  }

  lemma ThinnedKeepsShape(points: seq<InkPoint>, out: seq<InkPoint>, size: real)
    requires Thinned(points, out)
    ensures Fits(points, size) ==> Fits(out, size)
    ensures PressuresInUnit(points) ==> PressuresInUnit(out)
  {
  }

  /** One simplification after the other, each with twice the epsilon of the one before, all but the last with too many points. */
  ghost predicate Rounds(points: seq<InkPoint>, stages: seq<seq<InkPoint>>, epsilon: real, maxPoints: nat) {
    && stages != []
    && IsSimplified(points, stages[0], Tolerance(epsilon, 0.05))
    && (forall k :: 0 <= k < |stages| - 1 ==> NextRound(stages, epsilon, maxPoints, k))
  }

  ghost predicate IsSimplified(points: seq<InkPoint>, out: seq<InkPoint>, tol: Tolerance)
    requires tol.pressure > 0.0
  {
    exists kept :: Simplified(points, out, kept, tol)
  }

  ghost predicate NextRound(stages: seq<seq<InkPoint>>, epsilon: real, maxPoints: nat, k: nat)
    requires k + 1 < |stages|
  {
    |stages[k]| > maxPoints && IsSimplified(stages[k], stages[k + 1], Tolerance(Doubled(epsilon, k + 1), 1.0))
  }

  lemma {:induction false} DoubledOnce(epsilon: real, n: nat)
    ensures Doubled(epsilon, n + 1) == Doubled(epsilon, n) * 2.0
    decreases n
  {
    if n > 0 { DoubledOnce(epsilon * 2.0, n - 1); }
  }

  lemma RoundAdded(points: seq<InkPoint>, stages: seq<seq<InkPoint>>, out: seq<InkPoint>, kept: seq<nat>, epsilon: real, eps: real, maxPoints: nat)
    requires Rounds(points, stages, epsilon, maxPoints) && |stages[|stages| - 1]| > maxPoints && eps == Doubled(epsilon, |stages|)
    requires Simplified(stages[|stages| - 1], out, kept, Tolerance(eps, 1.0))
    ensures Rounds(points, stages + [out], epsilon, maxPoints)
  {
    var all := stages + [out];
    assert IsSimplified(stages[|stages| - 1], out, Tolerance(eps, 1.0));
    forall k | 0 <= k < |all| - 1 ensures NextRound(all, epsilon, maxPoints, k) {
      if k < |stages| - 1 { assert NextRound(stages, epsilon, maxPoints, k); }
    }
  }

  /**
   * Doubles epsilon until the stroke is small enough. Reaching the cap needs maxPoints >= 2 (or a stroke that already
   * fits): below that, EndsAlwaysSurvive shows that no epsilon can.
   */
  method CapPointCount(points: seq<InkPoint>, maxPoints: nat, epsilon: real) returns (out: seq<InkPoint>, ghost stages: seq<seq<InkPoint>>)
    requires PressuresInUnit(points)
    requires maxPoints >= 2 || |points| <= maxPoints
    ensures |out| <= maxPoints
    ensures Thinned(points, out)
    ensures Rounds(points, stages, Max(epsilon, 0.000001), maxPoints) && out == stages[|stages| - 1]
  {
    var eps := Max(epsilon, 0.000001);
    ghost var kept;
    out, kept := Simplify(points, eps);
    stages := [out];
    ghost var first := eps;
    ghost var size, rounds := CapStarts(points, out, kept, maxPoints, eps);
    while |out| > maxPoints
      invariant eps > 0.0 && CapOk(points, out, maxPoints, size, eps, rounds) && Staged(points, stages, out, maxPoints, first, eps)
      decreases rounds
    {
      ghost var before := out;
      eps := eps * 2.0;
      assert eps / 2.0 * 2.0 == eps;
      out, kept := Simplify(out, eps, 1.0);
      CapRound(points, before, out, kept, maxPoints, size, eps, rounds);
      StageAdded(points, stages, before, out, kept, maxPoints, first, eps);
      stages := stages + [out];
      rounds := rounds - 1;
    }
  }

  lemma CapStarts(points: seq<InkPoint>, out: seq<InkPoint>, kept: seq<nat>, maxPoints: nat, eps: real) returns (size: real, rounds: nat)
    requires eps > 0.0 && Simplified(points, out, kept, Tolerance(eps, 0.05)) && IsSimplification(points, out, kept, Tolerance(eps, 0.05))
    ensures size >= 0.0 && Fits(points, size) && CapOk(points, out, maxPoints, size, eps, rounds) && Staged(points, [out], out, maxPoints, eps, eps)
  {
    size := 2.0 * Reach(points);
    assert Thinned(points, out);
    SelectionBound(points, out, kept);
    rounds := DoublingPasses(eps, 2.0 * size);
  }

  /** A thinning that is small enough after so many more rounds. */
  ghost predicate CapOk(points: seq<InkPoint>, out: seq<InkPoint>, maxPoints: nat, size: real, eps: real, rounds: nat) {
    Thinned(points, out) && Doubled(eps, rounds) >= 2.0 * size && (rounds == 0 || |points| <= maxPoints ==> |out| <= maxPoints)
  }

  ghost predicate Staged(points: seq<InkPoint>, stages: seq<seq<InkPoint>>, out: seq<InkPoint>, maxPoints: nat, first: real, eps: real) {
    Rounds(points, stages, first, maxPoints) && out == stages[|stages| - 1] && eps == Doubled(first, |stages| - 1)
  }

  lemma StageAdded(points: seq<InkPoint>, stages: seq<seq<InkPoint>>, before: seq<InkPoint>, out: seq<InkPoint>, kept: seq<nat>, maxPoints: nat, first: real, eps: real)
    requires Staged(points, stages, before, maxPoints, first, eps / 2.0) && |before| > maxPoints && Simplified(before, out, kept, Tolerance(eps, 1.0))
    ensures Staged(points, stages + [out], out, maxPoints, first, eps)
  {
    DoubledOnce(first, |stages| - 1);
    RoundAdded(points, stages, out, kept, first, eps, maxPoints);
  }

  lemma CapRound(points: seq<InkPoint>, before: seq<InkPoint>, out: seq<InkPoint>, kept: seq<nat>, maxPoints: nat, size: real, eps: real, rounds: nat)
    requires PressuresInUnit(points) && Fits(points, size) && size >= 0.0 && (maxPoints >= 2 || |points| <= maxPoints)
    requires eps > 0.0 && CapOk(points, before, maxPoints, size, eps / 2.0, rounds) && |before| > maxPoints
    requires Simplified(before, out, kept, Tolerance(eps, 1.0)) && IsSimplification(before, out, kept, Tolerance(eps, 1.0))
    ensures rounds > 0 && CapOk(points, out, maxPoints, size, eps, rounds - 1)
  {
    assert Thinned(before, out);
    ThinnedTransitive(points, before, out);
    if rounds == 1 { LastRound(points, before, out, kept, size, eps); }
  }

  lemma LastRound(points: seq<InkPoint>, before: seq<InkPoint>, out: seq<InkPoint>, kept: seq<nat>, size: real, eps: real)
    requires PressuresInUnit(points) && Fits(points, size) && Thinned(points, before)
    requires Simplified(before, out, kept, Tolerance(eps, 1.0)) && eps > 0.0 && eps >= 2.0 * size >= 0.0
    ensures |out| <= 2
  {
    ThinnedKeepsShape(points, before, size);
    LargeEpsilonLeavesTwo(before, out, kept, size, eps);
  }
}
