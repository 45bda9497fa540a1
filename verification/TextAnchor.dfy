module TextAnchor {
  // Strokes over text: a stroke is stored in em relative to the word it was drawn on (or stretched between two words on
  // different lines) and comes back to the same place while the layout is unchanged.

  import opened Options
  import opened Geometry

  /** A measured word. */
  datatype WordBox = WordBox(left: real, top: real, width: real, height: real, blockIndex: int, charOffset: int, fontSize: real)

  datatype TextLayout = TextLayout(words: seq<WordBox>, blocks: map<int, seq<WordBox>>)

  // ---------- the layout ----------

  function OfBlock(words: seq<WordBox>, b: int): (r: seq<WordBox>)
    ensures forall w :: w in r <==> w in words && w.blockIndex == b
  {
    if words == [] then []
    else if words[0].blockIndex == b then [words[0]] + OfBlock(words[1..], b)
    else OfBlock(words[1..], b)
  }

  ghost predicate SortedByOffset(words: seq<WordBox>) {
    forall i, j :: 0 <= i < j < |words| ==> words[i].charOffset <= words[j].charOffset
  }

  function Insert(words: seq<WordBox>, w: WordBox): (r: seq<WordBox>)
    requires SortedByOffset(words)
    ensures SortedByOffset(r) && forall x :: x in r <==> x == w || x in words
  {
    if words == [] then [w]
    else if words[|words| - 1].charOffset <= w.charOffset then words + [w]
    else
      var n := |words| - 1;
      assert words == words[..n] + [words[n]];
      assert forall x :: x in words[..n] ==> x.charOffset <= words[n].charOffset;
      SortedAppend(Insert(words[..n], w), words[n]);
      Insert(words[..n], w) + [words[n]]
  }

  lemma SortedAppend(words: seq<WordBox>, w: WordBox)
    requires SortedByOffset(words) && forall x :: x in words ==> x.charOffset <= w.charOffset
    ensures SortedByOffset(words + [w])
  {
  }

  function SortByOffset(words: seq<WordBox>): (r: seq<WordBox>)
    ensures SortedByOffset(r) && forall x :: x in r <==> x in words
  {
    if words == [] then []
    else
      assert words == words[..|words| - 1] + [words[|words| - 1]];
      Insert(SortByOffset(words[..|words| - 1]), words[|words| - 1])
  }

  /** The words of each listed block, sorted by offset. */
  function BuildLayout(listed: set<int>, words: seq<WordBox>): TextLayout {
    TextLayout(words, map b | b in listed :: SortByOffset(OfBlock(words, b)))
  }

  function FirstAt(words: seq<WordBox>, offset: int): Option<WordBox> {
    if words == [] then None else if words[0].charOffset == offset then Some(words[0]) else FirstAt(words[1..], offset)
  }

  function LastBefore(words: seq<WordBox>, offset: int): Option<WordBox> {
    if words == [] then None
    else
      var n := |words| - 1;
      if words[n].charOffset < offset then Some(words[n]) else LastBefore(words[..n], offset)
  }

  /** The word at the offset, else the last one before it, else the first of the block. */
  function FindWordBox(layout: TextLayout, b: int, offset: int): Option<WordBox> {
    if b !in layout.blocks || layout.blocks[b] == [] then None
    else
      var words := layout.blocks[b];
      if FirstAt(words, offset).Some? then FirstAt(words, offset)
      else if LastBefore(words, offset).Some? then LastBefore(words, offset)
      else Some(words[0])
  }

  method FindWordBoxLoop(layout: TextLayout, b: int, offset: int) returns (r: Option<WordBox>)
    ensures r == FindWordBox(layout, b, offset)
  {
    if b !in layout.blocks || layout.blocks[b] == [] { return None; }
    var words := layout.blocks[b];
    var before: Option<WordBox> := None;
    for i := 0 to |words|
      invariant FirstAt(words, offset) == FirstAt(words[i..], offset)
      invariant before == LastBefore(words[..i], offset)
    {
      assert words[i..][1..] == words[i + 1..];
      assert words[..i + 1][..i] == words[..i];
      if words[i].charOffset == offset { return Some(words[i]); }
      if words[i].charOffset < offset { before := Some(words[i]); }
    }
    assert words[..|words|] == words;
    r := if before.Some? then before else Some(words[0]);
  }

  lemma {:induction false} FirstAtFinds(words: seq<WordBox>, offset: int)
    ensures FirstAt(words, offset).Some? <==> exists w :: w in words && w.charOffset == offset
    ensures FirstAt(words, offset).Some? ==> FirstAt(words, offset).value in words && FirstAt(words, offset).value.charOffset == offset
  {
    if words != [] {
      FirstAtFinds(words[1..], offset);
      assert words == [words[0]] + words[1..];
    }
  }

  lemma {:induction false} LastBeforeIsNearest(words: seq<WordBox>, offset: int)
    requires SortedByOffset(words)
    ensures LastBefore(words, offset).None? ==> forall w :: w in words ==> w.charOffset >= offset
    ensures LastBefore(words, offset).Some? ==>
      var r := LastBefore(words, offset).value;
      r in words && r.charOffset < offset && forall w :: w in words && w.charOffset < offset ==> w.charOffset <= r.charOffset
  {
    if words != [] {
      var n := |words| - 1;
      LastBeforeIsNearest(words[..n], offset);
      assert words == words[..n] + [words[n]];
    }
  }

  /** What findWordBox finds in a layout: the word itself, or the word the offset falls in or after, or the first. */
  lemma FoundWord(listed: set<int>, words: seq<WordBox>, b: int, offset: int)
    requires b in listed && exists w :: w in words && w.blockIndex == b
    ensures var r := FindWordBox(BuildLayout(listed, words), b, offset);
      && r.Some? && r.value in words && r.value.blockIndex == b
      && ((exists w :: w in words && w.blockIndex == b && w.charOffset == offset) ==> r.value.charOffset == offset)
      && (forall w :: w in words && w.blockIndex == b && r.value.charOffset < w.charOffset ==> w.charOffset > offset)
      && (r.value.charOffset > offset ==> forall w :: w in words && w.blockIndex == b ==> r.value.charOffset <= w.charOffset)
  {
    var sorted := SortByOffset(OfBlock(words, b));
    assert BuildLayout(listed, words).blocks[b] == sorted;
    var w :| w in words && w.blockIndex == b;
    assert w in sorted;
    FirstAtFinds(sorted, offset);
    LastBeforeIsNearest(sorted, offset);
    assert sorted[0] in sorted;
  }

  // ---------- nearest words ----------

  function Positive(x: real): real { if x > 0.0 then x else 0.0 }

  function RectDistanceSq(p: Pt, w: WordBox): real {
    Sq(Positive(Max(w.left - p.x, p.x - (w.left + w.width)))) + Sq(Positive(Max(w.top - p.y, p.y - (w.top + w.height))))
  }

  predicate InWord(w: WordBox, q: Pt) { w.left <= q.x <= w.left + w.width && w.top <= q.y <= w.top + w.height }

  /** The distance to a word is that to the nearest point of its box. */
  lemma RectDistanceIsNearest(p: Pt, w: WordBox)
    requires w.width >= 0.0 && w.height >= 0.0
    ensures forall q :: InWord(w, q) ==> RectDistanceSq(p, w) <= DistanceSq(p, q)
    ensures exists q :: InWord(w, q) && RectDistanceSq(p, w) == DistanceSq(p, q)
  {
    forall q | InWord(w, q) ensures RectDistanceSq(p, w) <= DistanceSq(p, q) {
      SpanIsNearer(p.x, w.left, w.left + w.width, q.x);
      SpanIsNearer(p.y, w.top, w.top + w.height, q.y);
    }
    var q := Pt(Max(w.left, Min(w.left + w.width, p.x)), Max(w.top, Min(w.top + w.height, p.y)));
    SpanIsReached(p.x, w.left, w.left + w.width);
    SpanIsReached(p.y, w.top, w.top + w.height);
    assert InWord(w, q);
  }

  lemma SpanIsNearer(x: real, low: real, high: real, y: real)
    requires low <= y <= high
    ensures Sq(Positive(Max(low - x, x - high))) <= Sq(x - y)
  {
    var d := Positive(Max(low - x, x - high));
    if x >= y {
      ProductSign(x - y - d, x - y + d, (x - y - d) * (x - y + d));
      assert (x - y - d) * (x - y + d) == Sq(x - y) - Sq(d);
    } else {
      ProductSign(y - x - d, y - x + d, (y - x - d) * (y - x + d));
      assert (y - x - d) * (y - x + d) == Sq(x - y) - Sq(d);
    }
  }

  lemma SpanIsReached(x: real, low: real, high: real)
    requires low <= high
    ensures var y := Max(low, Min(high, x)); low <= y <= high && Sq(Positive(Max(low - x, x - high))) == Sq(x - y)
  {
    var y, d := Max(low, Min(high, x)), Positive(Max(low - x, x - high));
    assert x - y == d || x - y == -d;
  }

  /** The nearest word box, the first of equally near ones. */
  function NearestWord(words: seq<WordBox>, p: Pt): Option<WordBox> {
    if words == [] then None
    else
      var n := |words| - 1;
      var best := NearestWord(words[..n], p);
      if best.None? || RectDistanceSq(p, words[n]) < RectDistanceSq(p, best.value) then Some(words[n]) else best
  }

  lemma {:induction false} NearestWordIsNearest(words: seq<WordBox>, p: Pt)
    ensures NearestWord(words, p).None? <==> words == []
    ensures words != [] ==>
      NearestWord(words, p).value in words && forall w :: w in words ==> RectDistanceSq(p, NearestWord(words, p).value) <= RectDistanceSq(p, w)
  {
    if words != [] {
      var n := |words| - 1;
      NearestWordIsNearest(words[..n], p);
      forall w | w in words ensures RectDistanceSq(p, NearestWord(words, p).value) <= RectDistanceSq(p, w) {
        assert w in words[..n] || w == words[n];
      }
    }
  }

  /** Once a word contains the point, no later one replaces it. */
  lemma {:induction false} InsideStays(words: seq<WordBox>, p: Pt, i: nat)
    requires i <= |words| && NearestWord(words[..i], p).Some? && RectDistanceSq(p, NearestWord(words[..i], p).value) == 0.0
    ensures NearestWord(words, p) == NearestWord(words[..i], p)
  {
    if i < |words| {
      var n := |words| - 1;
      assert words[..n][..i] == words[..i];
      InsideStays(words[..n], p, i);
      SqSign(Positive(Max(words[n].left - p.x, p.x - (words[n].left + words[n].width))));
      SqSign(Positive(Max(words[n].top - p.y, p.y - (words[n].top + words[n].height))));
    } else {
      assert words[..i] == words;
    }
  }

  method NearestWordLoop(words: seq<WordBox>, p: Pt) returns (best: Option<WordBox>)
    ensures best == NearestWord(words, p)
  {
    best := None;
    for i := 0 to |words|
      invariant best == NearestWord(words[..i], p)
    {
      assert words[..i + 1][..i] == words[..i];
      var d := RectDistanceSq(p, words[i]);
      if best.None? || d < RectDistanceSq(p, best.value) {
        best := Some(words[i]);
        if d == 0.0 {
          InsideStays(words, p, i + 1);
          return;
        }
      }
    }
    assert words[..|words|] == words;
  }

  predicate SameLine(a: WordBox, b: WordBox) {
    var d := a.top + a.height / 2.0 - (b.top + b.height / 2.0);
    (if d < 0.0 then -d else d) < 0.5 * Max(a.height, b.height)
  }

  // ---------- rounding ----------

  function RoundEm(v: real): real { (v * 10000.0 + 0.5).Floor as real / 10000.0 }

  function RoundPressure(v: real): real { (v * 1000.0 + 0.5).Floor as real / 1000.0 }

  predicate Within(a: real, b: real, error: real) { a - b <= error && b - a <= error }

  lemma RoundEmError(v: real)
    ensures Within(RoundEm(v), v, 0.00005)
  {
  }

  lemma RoundPressureError(v: real)
    ensures Within(RoundPressure(v), v, 0.0005)
  {
  }

  // ---------- frames ----------

  datatype Frame = Frame(x: real, y: real, s: real)

  /** Where point i of a stroke of count points lies between the two anchors. */
  function StrokeT(i: nat, count: nat): real { if count <= 1 then 0.0 else i as real / (count - 1) as real }

  function FrameAt(a: WordBox, b: Option<WordBox>, t: real): Frame {
    if b.None? || t == 0.0 then Frame(a.left, a.top, a.fontSize)
    else Frame(Lerp(a.left, b.value.left, t), Lerp(a.top, b.value.top, t), Lerp(a.fontSize, b.value.fontSize, t))
  }

  function ToFrame(p: InkPoint, f: Frame): InkPoint
    requires f.s != 0.0
  {
    InkPoint(RoundEm((p.x - f.x) / f.s), RoundEm((p.y - f.y) / f.s), RoundPressure(p.p))
  }

  function FromFrame(p: InkPoint, f: Frame): InkPoint { InkPoint(f.x + p.x * f.s, f.y + p.y * f.s, p.p) }

  /** A stored stroke: its anchor word and, for several lines, the word of its last point. */
  datatype AnchoredStroke = AnchoredStroke(
    blockIndex: int, charOffset: int, hash: string, context: string, endAnchor: Option<(int, int)>, points: seq<InkPoint>, width: real)

  ghost predicate GoodSizes(words: seq<WordBox>) { forall w :: w in words ==> w.fontSize > 0.0 }

  lemma StrokeTInUnit(i: nat, count: nat)
    requires i < count
    ensures 0.0 <= StrokeT(i, count) <= 1.0
  {
    if count > 1 { QuotientInUnit(i as real, (count - 1) as real); }
  }

  lemma LerpPositive(u: real, v: real, t: real)
    requires u > 0.0 && v > 0.0 && 0.0 <= t <= 1.0
    ensures Lerp(u, v, t) > 0.0
  {
    if u <= v {
      ProductSign(t, v - u, t * (v - u));
    } else {
      ProductSign(1.0 - t, u - v, (1.0 - t) * (u - v));
      assert u + t * (v - u) == v + (1.0 - t) * (u - v);
    }
  }

  lemma FramePositive(a: WordBox, b: Option<WordBox>, i: nat, count: nat)
    requires a.fontSize > 0.0 && (b.Some? ==> b.value.fontSize > 0.0) && i < count
    ensures FrameAt(a, b, StrokeT(i, count)).s > 0.0
  {
    StrokeTInUnit(i, count);
    if b.Some? { LerpPositive(a.fontSize, b.value.fontSize, StrokeT(i, count)); }
  }

  lemma FramesPositive(a: WordBox, b: Option<WordBox>, count: nat)
    requires a.fontSize > 0.0 && (b.Some? ==> b.value.fontSize > 0.0)
    ensures forall i :: 0 <= i < count ==> FrameAt(a, b, StrokeT(i, count)).s > 0.0
  {
    forall i | 0 <= i < count ensures FrameAt(a, b, StrokeT(i, count)).s > 0.0 { FramePositive(a, b, i, count); }
  }

  lemma ScaledBack(x: real, fx: real, s: real)
    requires s > 0.0
    ensures Within(fx + RoundEm((x - fx) / s) * s, x, 0.00005 * s)
  {
    var u := (x - fx) / s;
    RoundEmError(u);
    var e := RoundEm(u) - u;
    assert u * s == x - fx;
    assert (u + e) * s == u * s + e * s;
    ProductSign(0.00005 - e, s, (0.00005 - e) * s);
    ProductSign(0.00005 + e, s, (0.00005 + e) * s);
  }

  /** Width of an anchored stroke, in em of its anchor word. */
  function AnchoredPoints(points: seq<InkPoint>, a: WordBox, b: Option<WordBox>): (r: seq<InkPoint>)
    requires a.fontSize > 0.0 && (b.Some? ==> b.value.fontSize > 0.0)
    ensures |r| == |points|
    ensures forall i :: 0 <= i < |points| ==> FrameAt(a, b, StrokeT(i, |points|)).s > 0.0 && r[i] == ToFrame(points[i], FrameAt(a, b, StrokeT(i, |points|)))
  {
    FramesPositive(a, b, |points|);
    seq(|points|, i requires 0 <= i < |points| => ToFrame(points[i], FrameAt(a, b, StrokeT(i, |points|))))
  }

  function EndOf(b: Option<WordBox>): Option<(int, int)> { if b.Some? then Some((b.value.blockIndex, b.value.charOffset)) else None }

  /** The stroke is stored relative to word a, stretched to word b. */
  ghost predicate StoredFor(points: seq<InkPoint>, width: real, a: WordBox, b: Option<WordBox>, s: AnchoredStroke) {
    && a.fontSize > 0.0 && (b.Some? ==> b.value.fontSize > 0.0)
    && s.blockIndex == a.blockIndex && s.charOffset == a.charOffset && s.endAnchor == EndOf(b)
    && s.points == AnchoredPoints(points, a, b) && s.width == RoundEm(width / a.fontSize)
  }

  ghost predicate StoredSomewhere(points: seq<InkPoint>, width: real, words: seq<WordBox>, s: AnchoredStroke) {
    exists a, b :: StoredFor(points, width, a, b, s) && a in words && (b.Some? ==> b.value in words)
  }

  function BoxCenter(box: Box): Pt { Pt((box.minX + box.maxX) / 2.0, (box.minY + box.maxY) / 2.0) }

  /** The smallest box around the points: all are inside and every side touches one. */
  ghost predicate IsTightBox(points: seq<InkPoint>, box: Box) {
    && (forall i :: 0 <= i < |points| ==> InBox(box, Pos(points[i])))
    && (exists i :: 0 <= i < |points| && points[i].x == box.minX) && (exists i :: 0 <= i < |points| && points[i].y == box.minY)
    && (exists i :: 0 <= i < |points| && points[i].x == box.maxX) && (exists i :: 0 <= i < |points| && points[i].y == box.maxY)
  }

  lemma TightBox(points: seq<InkPoint>, places: seq<Pt>, box: Box)
    requires |places| == |points| && (forall i :: 0 <= i < |points| ==> places[i] == Pos(points[i]))
    requires forall i :: 0 <= i < |places| ==> InBox(box, places[i])
    requires (exists i :: 0 <= i < |places| && places[i].x == box.minX) && (exists i :: 0 <= i < |places| && places[i].y == box.minY)
    requires (exists i :: 0 <= i < |places| && places[i].x == box.maxX) && (exists i :: 0 <= i < |places| && places[i].y == box.maxY)
    ensures IsTightBox(points, box)
  {
    forall i | 0 <= i < |points| ensures InBox(box, Pos(points[i])) { assert InBox(box, places[i]); }
    var i :| 0 <= i < |places| && places[i].x == box.minX;
    assert points[i].x == box.minX;
    var j :| 0 <= j < |places| && places[j].y == box.minY;
    assert points[j].y == box.minY;
    var k :| 0 <= k < |places| && places[k].x == box.maxX;
    assert points[k].x == box.maxX;
    var l :| 0 <= l < |places| && places[l].y == box.maxY;
    assert points[l].y == box.maxY;
  }

  method StrokeBox(points: seq<InkPoint>) returns (box: MaybeBox)
    ensures (box.NoBox? <==> points == []) && (box.SomeBox? ==> IsTightBox(points, box.box))
  {
    var places := seq(|points|, i requires 0 <= i < |points| => Pos(points[i]));
    box := BoundingBox(places);
    if box.SomeBox? { TightBox(points, places, box.box); }
  }

  /** Stores a stroke; nothing without points, without words, or when the anchor block has no hash. */
  method AnchorStrokeToText(points: seq<InkPoint>, width: real, layout: TextLayout, hashOf: int -> Option<string>, contextOf: (int, int) -> string)
    returns (r: Option<AnchoredStroke>, ghost a: Option<WordBox>, ghost b: Option<WordBox>)
    requires GoodSizes(layout.words)
    ensures points == [] || layout.words == [] ==> r.None?
    ensures r.Some? ==> StoredSomewhere(points, width, layout.words, r.value)
    ensures a.None? <==> points == [] || layout.words == []
    ensures a.Some? ==> a.value in layout.words && (b.Some? ==> b.value in layout.words)
    ensures a.Some? ==> (r.None? <==> hashOf(a.value.blockIndex).None?)
    ensures r.Some? ==> a.Some? && hashOf(a.value.blockIndex) == Some(r.value.hash) && r.value.context == contextOf(a.value.blockIndex, a.value.charOffset)
    ensures a.Some? && b.None? ==> exists box :: IsTightBox(points, box) && a == NearestWord(layout.words, BoxCenter(box))
    ensures a.Some? ==>
      var first, last := NearestWord(layout.words, Pos(points[0])), NearestWord(layout.words, Pos(points[|points| - 1]));
      && first.Some? && last.Some?
      && (b.Some? <==> |points| >= 2 && !SameLine(first.value, last.value))
      && (b.Some? ==> a == first && b == last)
    ensures r.Some? ==> a.Some? && StoredFor(points, width, a.value, b, r.value)
  {
    r, a, b := None, None, None;
    var box := StrokeBox(points);
    NearestWordsExist(layout.words);
    if box.NoBox? || layout.words == [] { return; }
    var first := NearestWordLoop(layout.words, Pos(points[0]));
    var last := NearestWordLoop(layout.words, Pos(points[|points| - 1]));
    var multiLine := |points| >= 2 && !SameLine(first.value, last.value);
    var anchor := first;
    if !multiLine { anchor := NearestWordLoop(layout.words, BoxCenter(box.box)); }
    var end := if multiLine then last else None;
    a, b := anchor, end;
    var hash := hashOf(anchor.value.blockIndex);
    if hash.None? { return; }
    r := Some(AnchoredStroke(anchor.value.blockIndex, anchor.value.charOffset, hash.value, contextOf(anchor.value.blockIndex, anchor.value.charOffset),
                             EndOf(end), AnchoredPoints(points, anchor.value, end), RoundEm(width / anchor.value.fontSize)));
    assert StoredFor(points, width, anchor.value, end, r.value);
  }

  lemma NearestWordsExist(words: seq<WordBox>)
    ensures forall p :: words != [] ==> NearestWord(words, p).Some? && NearestWord(words, p).value in words
  {
    forall p | words != [] ensures NearestWord(words, p).Some? && NearestWord(words, p).value in words { NearestWordIsNearest(words, p); }
  }

  datatype Resolved = Resolved(points: seq<InkPoint>, width: real)

  /** The stroke in the current layout; nothing when its anchor block is not rendered. */
  function ResolveTextStroke(s: AnchoredStroke, layout: TextLayout): Option<Resolved> {
    var a := FindWordBox(layout, s.blockIndex, s.charOffset);
    if a.None? then None
    else
      Some(Resolved(FramedBack(s.points, a.value, EndWord(s, layout, a)), Scaled(s.width, a.value.fontSize)))
  }

  function Scaled(width: real, size: real): real { width * size }

  /** The word of the end anchor; without one in the layout, the anchor word. */
  function EndWord(s: AnchoredStroke, layout: TextLayout, a: Option<WordBox>): Option<WordBox> {
    if s.endAnchor.None? then None
    else
      var end := FindWordBox(layout, s.endAnchor.value.0, s.endAnchor.value.1);
      if end.Some? then end else a
  }

  function FramedBack(points: seq<InkPoint>, a: WordBox, b: Option<WordBox>): (r: seq<InkPoint>)
    ensures |r| == |points|
    ensures forall i :: 0 <= i < |points| ==> r[i] == FromFrame(points[i], FrameAt(a, b, StrokeT(i, |points|)))
  {
    seq(|points|, i requires 0 <= i < |points| => FromFrame(points[i], FrameAt(a, b, StrokeT(i, |points|))))
  }

  // ---------- the round trip ----------

  /** No two words of a block start at the same offset, and every word is in a listed block. */
  ghost predicate DistinctOffsets(words: seq<WordBox>, listed: set<int>) {
    && (forall u, w :: u in words && w in words && u.blockIndex == w.blockIndex && u.charOffset == w.charOffset ==> u == w)
    && (forall w :: w in words ==> w.blockIndex in listed)
  }

  lemma OwnWordIsFound(words: seq<WordBox>, listed: set<int>, w: WordBox)
    requires DistinctOffsets(words, listed) && w in words
    ensures FindWordBox(BuildLayout(listed, words), w.blockIndex, w.charOffset) == Some(w)
  {
    FoundWord(listed, words, w.blockIndex, w.charOffset);
  }

  /** A point comes back within 0.00005 of the local font size, its pressure within 0.0005. */
  ghost predicate ComesBack(p: InkPoint, back: InkPoint, s: real) {
    Within(back.x, p.x, 0.00005 * s) && Within(back.y, p.y, 0.00005 * s) && Within(back.p, p.p, 0.0005)
  }

  lemma PointComesBack(p: InkPoint, f: Frame)
    requires f.s > 0.0
    ensures ComesBack(p, FromFrame(ToFrame(p, f), f), f.s)
  {
    ScaledBack(p.x, f.x, f.s);
    ScaledBack(p.y, f.y, f.s);
    RoundPressureError(p.p);
  }

  /** Point by point, what came back is what was drawn. */
  ghost predicate AllComeBack(points: seq<InkPoint>, back: seq<InkPoint>, a: WordBox, b: Option<WordBox>) {
    |back| == |points| && forall i :: 0 <= i < |points| ==> ComesBack(points[i], back[i], FrameAt(a, b, StrokeT(i, |points|)).s)
  }

  /** The layout has these words under their own block and offset. */
  ghost predicate Finds(layout: TextLayout, a: WordBox, b: Option<WordBox>) {
    FindWordBox(layout, a.blockIndex, a.charOffset) == Some(a) && (b.Some? ==> FindWordBox(layout, b.value.blockIndex, b.value.charOffset) == b)
  }

  lemma ResolvesWith(layout: TextLayout, a: WordBox, b: Option<WordBox>, s: AnchoredStroke)
    requires Finds(layout, a, b)
    requires s.blockIndex == a.blockIndex && s.charOffset == a.charOffset && s.endAnchor == EndOf(b)
    ensures ResolveTextStroke(s, layout) == Some(Resolved(FramedBack(s.points, a, b), Scaled(s.width, a.fontSize)))
  {
    if b.Some? {
      assert s.endAnchor.value == (b.value.blockIndex, b.value.charOffset);
      assert EndWord(s, layout, Some(a)) == b;
    }
  }

  lemma WidthComesBack(width: real, size: real)
    requires size > 0.0
    ensures Within(Scaled(RoundEm(width / size), size), width, 0.00005 * size)
  {
    ScaledBack(width, 0.0, size);
  }

  ghost predicate IsBack(points: seq<InkPoint>, width: real, a: WordBox, b: Option<WordBox>, r: Option<Resolved>) {
    r.Some? && AllComeBack(points, r.value.points, a, b) && Within(r.value.width, width, 0.00005 * a.fontSize)
  }

  lemma ComesBackIn(layout: TextLayout, points: seq<InkPoint>, width: real, a: WordBox, b: Option<WordBox>, s: AnchoredStroke)
    requires Finds(layout, a, b) && StoredFor(points, width, a, b, s)
    ensures IsBack(points, width, a, b, ResolveTextStroke(s, layout))
  {
    ResolvesWith(layout, a, b, s);
    PointsComeBack(points, a, b);
    WidthComesBack(width, a.fontSize);
  }

  /** With the layout unchanged, a stored stroke comes back where it was drawn, one line or several. */
  lemma StrokeComesBack(listed: set<int>, words: seq<WordBox>, points: seq<InkPoint>, width: real, a: WordBox, b: Option<WordBox>, s: AnchoredStroke)
    requires DistinctOffsets(words, listed) && a in words && (b.Some? ==> b.value in words)
    requires StoredFor(points, width, a, b, s)
    ensures IsBack(points, width, a, b, ResolveTextStroke(s, BuildLayout(listed, words)))
  {
    OwnWordIsFound(words, listed, a);
    if b.Some? { OwnWordIsFound(words, listed, b.value); }
    ComesBackIn(BuildLayout(listed, words), points, width, a, b, s);
  }

  /** Storing a stroke and showing it in the same layout: it is back whenever there is a word to store it with and a hash of its block. */
  method AnchorAndResolve(points: seq<InkPoint>, width: real, listed: set<int>, words: seq<WordBox>, hashOf: int -> Option<string>, contextOf: (int, int) -> string)
    returns (back: Option<Resolved>, ghost a: Option<WordBox>, ghost b: Option<WordBox>)
    requires GoodSizes(words) && DistinctOffsets(words, listed)
    ensures a.None? <==> points == [] || words == []
    ensures a.Some? ==> a.value in words && (b.Some? ==> b.value in words)
    ensures back.Some? <==> a.Some? && hashOf(a.value.blockIndex).Some?
    ensures back.Some? ==> IsBack(points, width, a.value, b, back)
  {
    var layout := BuildLayout(listed, words);
    var stored;
    stored, a, b := AnchorStrokeToText(points, width, layout, hashOf, contextOf);
    back := None;
    if stored.Some? {
      back := ResolveTextStroke(stored.value, layout);
      StrokeComesBack(listed, words, points, width, a.value, b, stored.value);
    }
  }

  lemma PointsComeBack(points: seq<InkPoint>, a: WordBox, b: Option<WordBox>)
    requires a.fontSize > 0.0 && (b.Some? ==> b.value.fontSize > 0.0)
    ensures AllComeBack(points, FramedBack(AnchoredPoints(points, a, b), a, b), a, b)
  {
    var back := FramedBack(AnchoredPoints(points, a, b), a, b);
    forall i | 0 <= i < |points| ensures ComesBack(points[i], back[i], FrameAt(a, b, StrokeT(i, |points|)).s) {
      PointComesBack(points[i], FrameAt(a, b, StrokeT(i, |points|)));
    }
  }

  ghost predicate AllFound(layout: TextLayout, words: seq<WordBox>) {
    forall w :: w in words ==> FindWordBox(layout, w.blockIndex, w.charOffset) == Some(w)
  }

  lemma FoundAreDistinct(listed: set<int>, words: seq<WordBox>)
    requires AllFound(BuildLayout(listed, words), words)
    ensures DistinctOffsets(words, listed)
  {
    forall u, w | u in words && w in words && u.blockIndex == w.blockIndex && u.charOffset == w.charOffset ensures u == w {
      assert FindWordBox(BuildLayout(listed, words), u.blockIndex, u.charOffset) == Some(u);
    }
  }

  /** Every word is found under its own block and offset exactly when offsets are distinct and all blocks are listed. */
  lemma OwnWordsAreFoundIff(listed: set<int>, words: seq<WordBox>)
    ensures AllFound(BuildLayout(listed, words), words) <==> DistinctOffsets(words, listed)
  {
    if DistinctOffsets(words, listed) {
      forall w | w in words ensures FindWordBox(BuildLayout(listed, words), w.blockIndex, w.charOffset) == Some(w) { OwnWordIsFound(words, listed, w); }
    }
    if AllFound(BuildLayout(listed, words), words) { FoundAreDistinct(listed, words); }
  }
}
