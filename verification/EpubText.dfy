// Splitting a long text of an imported book into pieces, at sentence ends where possible, otherwise between words, and never
// inside a surrogate pair.
module EpubText {
  import opened Utf16

  type Range = (nat, nat)

  // ---------- ranges of words ----------

  /** The first position from s that is not white space, or `end`. */
  function SkipSpace(text: Text, s: nat, end: nat): (r: nat)
    requires s <= end <= |text|
    ensures s <= r <= end && (r < end ==> !IsSpace(text[r])) && forall i :: s <= i < r ==> IsSpace(text[i])
    decreases end - s
  {
    if s < end && IsSpace(text[s]) then SkipSpace(text, s + 1, end) else s
  }

  /** The last space at or before position i, -1 without one. */
  function LastSpace(text: Text, i: int): (r: int)
    requires i < |text|
    ensures -1 <= r && (r >= 0 ==> r <= i && text[r] == SPACE) && forall j :: r < j <= i && j >= 0 ==> text[j] != SPACE
    decreases i + 1
  {
    if i < 0 then -1 else if text[i] == SPACE then i else LastSpace(text, i - 1)
  }

  /** Where a range that starts at s is cut: at a space, otherwise after `limit` units, one less inside a pair. */
  function NextCut(text: Text, s: nat, limit: nat): int
    requires s + limit < |text|
  {
    var space := LastSpace(text, s + limit);
    if space > s then space
    else if IsLow(text[s + limit]) then s + limit - 1
    else s + limit
  }

  function WordRanges(text: Text, start: nat, end: nat, limit: nat): seq<Range>
    requires start <= end <= |text| && limit >= 2
    decreases end - start
  {
    var s := SkipSpace(text, start, end);
    if s >= end then []
    else if end - s <= limit then [(s, end)]
    else
      var cut := NextCut(text, s, limit);
      [(s, cut)] + WordRanges(text, cut, end, limit)
  }

  method SkipSpaceLoop(text: Text, start: nat, end: nat) returns (s: nat)
    requires start <= end <= |text|
    ensures s == SkipSpace(text, start, end)
  {
    s := start;
    while s < end && IsSpace(text[s])
      invariant s <= end && SkipSpace(text, s, end) == SkipSpace(text, start, end)
    {
      s := s + 1;
    }
  }

  lemma NextCutBounds(text: Text, s: nat, limit: nat)
    requires s + limit < |text| && limit >= 2
    ensures s < NextCut(text, s, limit) <= s + limit
  {
  }

  lemma CutOff(text: Text, start: nat, end: nat, limit: nat, before: seq<Range>)
    requires start <= end <= |text| && limit >= 2 && end - SkipSpace(text, start, end) > limit
    ensures var s := SkipSpace(text, start, end); var cut := NextCut(text, s, limit);
      s < cut <= end && before + WordRanges(text, start, end, limit) == (before + [(s, cut)]) + WordRanges(text, cut, end, limit)
  {
    var s := SkipSpace(text, start, end);
    NextCutBounds(text, s, limit);
    var cut := NextCut(text, s, limit);
    assert before + ([(s, cut)] + WordRanges(text, cut, end, limit)) == (before + [(s, cut)]) + WordRanges(text, cut, end, limit);
  }

  method WordRangesLoop(text: Text, start: nat, end: nat, limit: nat) returns (ranges: seq<Range>)
    requires start <= end <= |text| && limit >= 2
    ensures ranges == WordRanges(text, start, end, limit)
  {
    ranges := [];
    var s := start;
    while s < end
      invariant s <= end && ranges + WordRanges(text, s, end, limit) == WordRanges(text, start, end, limit)
    {
      var before := s;
      s := SkipSpaceLoop(text, s, end);
      if s >= end { break; }
      if end - s <= limit {
        ranges := ranges + [(s, end)];
        return;
      }
      var cut := NextCut(text, s, limit);
      CutOff(text, before, end, limit, ranges);
      ranges := ranges + [(s, cut)];
      s := cut;
    }
    assert WordRanges(text, s, end, limit) == [];
  }

  /**
   * A range that starts at a character ends with the whole stretch if that fits; otherwise at the last space within reach, and
   * with none at the limit, or one before it if a low surrogate would start the next range.
   */
  predicate IsCutWell(text: Text, r: Range, end: nat, limit: nat) {
    && r.0 < r.1 <= end <= |text| && !IsSpace(text[r.0])
    && if end - r.0 <= limit then r.1 == end
       else if exists j :: r.0 < j <= r.0 + limit && text[j] == SPACE then
         r.1 <= r.0 + limit && text[r.1] == SPACE && forall j :: r.1 < j <= r.0 + limit ==> text[j] != SPACE
       else r.1 == if IsLow(text[r.0 + limit]) then r.0 + limit - 1 else r.0 + limit
  }

  lemma {:induction false} WordRangesAreCutWell(text: Text, start: nat, end: nat, limit: nat)
    requires start <= end <= |text| && limit >= 2
    ensures forall k :: 0 <= k < |WordRanges(text, start, end, limit)| ==>
      IsCutWell(text, WordRanges(text, start, end, limit)[k], end, limit) && start <= WordRanges(text, start, end, limit)[k].0
    decreases end - start
  {
    var s := SkipSpace(text, start, end);
    if s < end && end - s > limit {
      NextCutBounds(text, s, limit);
      var cut := NextCut(text, s, limit);
      assert IsCutWell(text, (s, cut), end, limit);
      WordRangesAreCutWell(text, cut, end, limit);
    }
  }

  /** A cut advances exactly when the limit leaves room for a surrogate pair, or there is none in the way. */
  lemma CutAdvancesIff(text: Text, s: nat, limit: nat)
    requires s + limit < |text|
    ensures NextCut(text, s, limit) > s <==> limit >= 2 || (limit == 1 && !IsLow(text[s + 1]))
  {
  }

  /** Non-empty ranges of at most `limit` units, in order, from start to end. */
  ghost predicate RangesFit(ranges: seq<Range>, start: nat, end: nat, limit: nat) {
    && (forall k :: 0 <= k < |ranges| ==> start <= ranges[k].0 < ranges[k].1 <= end && ranges[k].1 - ranges[k].0 <= limit)
    && (forall k, l :: 0 <= k < l < |ranges| ==> ranges[k].1 <= ranges[l].0)
  }

  lemma {:induction false} WordRangesFit(text: Text, start: nat, end: nat, limit: nat)
    requires start <= end <= |text| && limit >= 2
    ensures RangesFit(WordRanges(text, start, end, limit), start, end, limit)
    decreases end - start
  {
    var s := SkipSpace(text, start, end);
    if s < end && end - s > limit {
      var cut := NextCut(text, s, limit);
      NextCutBounds(text, s, limit);
      WordRangesFit(text, cut, end, limit);
      ConsFits((s, cut), WordRanges(text, cut, end, limit), start, cut, end, limit);
    }
  }

  lemma ConsFits(r: Range, rest: seq<Range>, start: nat, mid: nat, end: nat, limit: nat)
    requires start <= r.0 < r.1 <= mid <= end && r.1 - r.0 <= limit && RangesFit(rest, mid, end, limit)
    ensures RangesFit([r] + rest, start, end, limit)
  {
  }

  /** No range starts or ends inside a surrogate pair. */
  ghost predicate RangesWhole(text: Text, ranges: seq<Range>) {
    forall k :: 0 <= k < |ranges| ==> !SplitsPair(text, ranges[k].0) && !SplitsPair(text, ranges[k].1)
  }

  /** A lone low surrogate right after a pair. */
  predicate LowAfterPair(text: Text, i: nat) { 2 <= i < |text| && IsHigh(text[i - 2]) && IsLow(text[i - 1]) && IsLow(text[i]) }

  /** Texts that every cut leaves whole: well-formed ones, and all others without a lone low surrogate after a pair. */
  ghost predicate Cuttable(text: Text) { forall i: nat :: !LowAfterPair(text, i) }

  lemma WellFormedIsCuttable(text: Text)
    requires WellFormedText(text)
    ensures Cuttable(text)
  {
    forall i: nat | 2 <= i < |text| && IsLow(text[i]) ensures !LowAfterPair(text, i) { assert IsHigh(text[i - 1]); }
  }

  lemma NextCutWhole(text: Text, s: nat, limit: nat)
    requires s + limit < |text| && limit >= 2 && Cuttable(text)
    ensures !SplitsPair(text, NextCut(text, s, limit))
  {
    assert !LowAfterPair(text, s + limit);
  }

  ghost predicate CutsWhole(text: Text, s: nat, limit: nat) {
    limit >= 2 && s + limit < |text| ==> !SplitsPair(text, NextCut(text, s, limit))
  }

  /** No cut, wherever it starts and whatever the limit, splits a surrogate pair exactly when no low surrogate follows one. */
  lemma CutsWholeIff(text: Text)
    ensures (forall s: nat, limit: nat :: CutsWhole(text, s, limit)) <==> Cuttable(text)
  {
    if Cuttable(text) {
      forall s: nat, limit: nat ensures CutsWhole(text, s, limit) {
        if limit >= 2 && s + limit < |text| { NextCutWhole(text, s, limit); }
      }
    } else {
      var i: nat :| LowAfterPair(text, i);
      NoSpaceInPair(text, i);
      assert !CutsWhole(text, i - 2, 2);
    }
  }

  lemma NoSpaceInPair(text: Text, i: nat)
    requires LowAfterPair(text, i)
    ensures LastSpace(text, i) <= i - 2
  {
    assert LastSpace(text, i) == LastSpace(text, i - 1) == LastSpace(text, i - 2);
  }

  lemma {:induction false} WordRangesWhole(text: Text, start: nat, end: nat, limit: nat)
    requires start <= end <= |text| && limit >= 2 && Cuttable(text) && !SplitsPair(text, start) && !SplitsPair(text, end)
    ensures RangesWhole(text, WordRanges(text, start, end, limit))
    decreases end - start
  {
    var s := SkipSpace(text, start, end);
    if s < end {
      assert s > start ==> IsSpace(text[s - 1]);
      if end - s > limit {
        var cut := NextCut(text, s, limit);
        NextCutWhole(text, s, limit);
        WordRangesWhole(text, cut, end, limit);
      }
    }
  }

  /** The characters of ranges, one range after the other, without white space. */
  function Content(text: Text, ranges: seq<Range>): Text { ContentUpTo(text, ranges, |ranges|) }

  function ContentUpTo(text: Text, ranges: seq<Range>, n: nat): Text
    requires n <= |ranges|
  {
    if n == 0 then [] else ContentUpTo(text, ranges, n - 1) + CharsOf(text, ranges[n - 1])
  }

  function CharsOf(text: Text, r: Range): Text { if r.0 <= r.1 <= |text| then Chars(text, r.0, r.1) else [] }

  /** The characters from a to b that are not white space. */
  function Chars(text: Text, a: nat, b: nat): Text
    requires b <= |text|
    decreases b
  {
    if a >= b then [] else Chars(text, a, b - 1) + (if IsSpace(text[b - 1]) then [] else [text[b - 1]])
  }

  lemma {:induction false} ContentSame(text: Text, a: seq<Range>, b: seq<Range>, n: nat)
    requires n <= |a| && n <= |b| && forall k :: 0 <= k < n ==> a[k] == b[k]
    ensures ContentUpTo(text, a, n) == ContentUpTo(text, b, n)
  {
    if n > 0 { ContentSame(text, a, b, n - 1); }
  }

  lemma ContentStep(text: Text, ranges: seq<Range>, n: nat)
    requires 0 < n <= |ranges|
    ensures ContentUpTo(text, ranges, n) == ContentUpTo(text, ranges, n - 1) + CharsOf(text, ranges[n - 1])
  {
  }

  lemma ContentLast(text: Text, ranges: seq<Range>, r: Range)
    ensures Content(text, ranges + [r]) == Content(text, ranges) + CharsOf(text, r)
  {
    ContentSame(text, ranges + [r], ranges, |ranges|);
  }

  lemma ContentOne(text: Text, r: Range)
    ensures Content(text, [r]) == CharsOf(text, r)
  {
    assert ContentUpTo(text, [r], 0) == [];
  }

  lemma Associative(a: Text, b: Text, c: Text)
    ensures a + (b + c) == (a + b) + c
  {
  }

  lemma {:induction false} ContentJoined(text: Text, a: seq<Range>, b: seq<Range>, n: nat)
    requires n <= |b|
    ensures ContentUpTo(text, a + b, |a| + n) == Content(text, a) + ContentUpTo(text, b, n)
  {
    if n == 0 {
      ContentSame(text, a + b, a, |a|);
    } else {
      ContentJoined(text, a, b, n - 1);
      ContentStep(text, a + b, |a| + n);
      ContentStep(text, b, n);
      Associative(Content(text, a), ContentUpTo(text, b, n - 1), CharsOf(text, b[n - 1]));
    }
  }

  lemma ContentConcat(text: Text, a: seq<Range>, b: seq<Range>)
    ensures Content(text, a + b) == Content(text, a) + Content(text, b)
  {
    ContentJoined(text, a, b, |b|);
  }

  lemma {:induction false} CharsSplit(text: Text, a: nat, b: nat, c: nat)
    requires a <= b <= c <= |text|
    ensures Chars(text, a, c) == Chars(text, a, b) + Chars(text, b, c)
    decreases c
  {
    if b < c {
      CharsSplit(text, a, b, c - 1);
      Associative(Chars(text, a, b), Chars(text, b, c - 1), if IsSpace(text[c - 1]) then [] else [text[c - 1]]);
    }
  }

  lemma {:induction false} CharsOfSpaces(text: Text, a: nat, b: nat)
    requires a <= b <= |text| && forall i :: a <= i < b ==> IsSpace(text[i])
    ensures Chars(text, a, b) == []
    decreases b
  {
    if a < b { CharsOfSpaces(text, a, b - 1); }
  }

  /** The same characters as those of the cut-out text. */
  lemma {:induction false} CharsAreNonSpace(text: Text, a: nat, b: nat)
    requires a <= b <= |text|
    ensures Chars(text, a, b) == NonSpace(text[a..b])
    decreases b
  {
    if a < b {
      CharsAreNonSpace(text, a, b - 1);
      assert text[a..b] == text[a..b - 1] + [text[b - 1]];
      NonSpaceConcat(text[a..b - 1], [text[b - 1]]);
      assert [text[b - 1]][1..] == [];
    }
  }

  /** Only white space is left out. */
  lemma {:induction false} WordRangesKeepText(text: Text, start: nat, end: nat, limit: nat)
    requires start <= end <= |text| && limit >= 2
    ensures Content(text, WordRanges(text, start, end, limit)) == Chars(text, start, end)
    decreases end - start
  {
    var s := SkipSpace(text, start, end);
    CharsSplit(text, start, s, end);
    CharsOfSpaces(text, start, s);
    if s >= end {
    } else if end - s <= limit {
      ContentOne(text, (s, end));
    } else {
      var cut := NextCut(text, s, limit);
      NextCutBounds(text, s, limit);
      WordRangesKeepText(text, cut, end, limit);
      CharsSplit(text, s, cut, end);
      ContentOne(text, (s, cut));
      ContentConcat(text, [(s, cut)], WordRanges(text, cut, end, limit));
    }
  }

  // ---------- units ----------

  ghost predicate SpansIn(text: Text, spans: seq<Range>) { forall k :: 0 <= k < |spans| ==> spans[k].0 < spans[k].1 <= |text| }

  /** Sentences: non-empty, in order, nothing but white space outside them, boundaries between characters. */
  ghost predicate IsSegmentation(text: Text, spans: seq<Range>) {
    && SpansIn(text, spans)
    && (forall k, l :: 0 <= k < l < |spans| ==> spans[k].1 <= spans[l].0)
    && RangesWhole(text, spans)
    && Content(text, spans) == Chars(text, 0, |text|)
  }

  ghost predicate LawfulSegmenter(segment: Text -> seq<Range>) { forall t :: IsSegmentation(t, segment(t)) }

  /** The simplest segmenter: the whole text is one sentence. */
  function WholeText(t: Text): seq<Range> { if t == [] then [] else [(0, |t|)] }

  lemma WholeTextIsLawful()
    ensures LawfulSegmenter(WholeText)
  {
    forall t: Text ensures IsSegmentation(t, WholeText(t)) {
      if t != [] { ContentOne(t, (0, |t|)); }
    }
  }

  /** A sentence, or its word ranges when it is too long. */
  function UnitsOf(text: Text, span: Range, target: nat, max: nat): seq<Range>
    requires span.0 <= span.1 <= |text| && target >= 2
  {
    if span.1 - span.0 > max then WordRanges(text, span.0, span.1, target) else [span]
  }

  function Units(text: Text, spans: seq<Range>, target: nat, max: nat): seq<Range>
    requires SpansIn(text, spans)
    requires target >= 2
  {
    if spans == [] then []
    else Units(text, spans[..|spans| - 1], target, max) + UnitsOf(text, spans[|spans| - 1], target, max)
  }

  lemma FitWider(ranges: seq<Range>, start: nat, end: nat, limit: nat, start2: nat, end2: nat, limit2: nat)
    requires RangesFit(ranges, start, end, limit) && start2 <= start && end <= end2 && limit <= limit2
    ensures RangesFit(ranges, start2, end2, limit2)
  {
  }

  lemma FitConcat(a: seq<Range>, b: seq<Range>, start: nat, mid: nat, mid2: nat, end: nat, limit: nat)
    requires RangesFit(a, start, mid, limit) && RangesFit(b, mid2, end, limit) && start <= mid <= mid2 <= end
    ensures RangesFit(a + b, start, end, limit)
  {
  }

  lemma {:induction false} UnitsFit(text: Text, spans: seq<Range>, target: nat, max: nat)
    requires SpansIn(text, spans) && (forall k, l :: 0 <= k < l < |spans| ==> spans[k].1 <= spans[l].0)
    requires 2 <= target <= max
    ensures RangesFit(Units(text, spans, target, max), 0, if spans == [] then 0 else spans[|spans| - 1].1, max)
  {
    if spans != [] {
      var n := |spans| - 1;
      var span := spans[n];
      UnitsFit(text, spans[..n], target, max);
      WordRangesFit(text, span.0, span.1, target);
      FitWider(WordRanges(text, span.0, span.1, target), span.0, span.1, target, span.0, span.1, max);
      FitConcat(Units(text, spans[..n], target, max), UnitsOf(text, span, target, max), 0, if n == 0 then 0 else spans[n - 1].1, span.0, span.1, max);
    }
  }

  lemma {:induction false} UnitsWhole(text: Text, spans: seq<Range>, target: nat, max: nat)
    requires SpansIn(text, spans) && target >= 2
    requires Cuttable(text) && RangesWhole(text, spans)
    ensures RangesWhole(text, Units(text, spans, target, max))
  {
    if spans != [] {
      var n := |spans| - 1;
      UnitsWhole(text, spans[..n], target, max);
      UnitsOfWhole(text, spans[n], target, max);
      WholeConcat(text, Units(text, spans[..n], target, max), UnitsOf(text, spans[n], target, max));
    }
  }

  lemma UnitsOfWhole(text: Text, span: Range, target: nat, max: nat)
    requires span.0 <= span.1 <= |text| && target >= 2
    requires Cuttable(text) && !SplitsPair(text, span.0) && !SplitsPair(text, span.1)
    ensures RangesWhole(text, UnitsOf(text, span, target, max))
  {
    if span.1 - span.0 > max { WordRangesWhole(text, span.0, span.1, target); }
  }

  lemma WholeConcat(text: Text, a: seq<Range>, b: seq<Range>)
    requires RangesWhole(text, a) && RangesWhole(text, b)
    ensures RangesWhole(text, a + b)
  {
  }

  lemma UnitsOfKeepText(text: Text, span: Range, target: nat, max: nat)
    requires span.0 <= span.1 <= |text| && target >= 2
    ensures Content(text, UnitsOf(text, span, target, max)) == Content(text, [span])
  {
    ContentOne(text, span);
    if span.1 - span.0 > max { WordRangesKeepText(text, span.0, span.1, target); }
  }

  lemma UnitsStep(text: Text, spans: seq<Range>, target: nat, max: nat)
    requires SpansIn(text, spans) && target >= 2 && spans != []
    ensures Content(text, Units(text, spans, target, max))
      == Content(text, Units(text, spans[..|spans| - 1], target, max)) + Content(text, UnitsOf(text, spans[|spans| - 1], target, max))
  {
    ContentConcat(text, Units(text, spans[..|spans| - 1], target, max), UnitsOf(text, spans[|spans| - 1], target, max));
  }

  lemma {:induction false} UnitsKeepText(text: Text, spans: seq<Range>, target: nat, max: nat)
    requires SpansIn(text, spans) && target >= 2
    ensures Content(text, Units(text, spans, target, max)) == Content(text, spans)
  {
    if spans != [] {
      var init, span := spans[..|spans| - 1], spans[|spans| - 1];
      UnitsKeepText(text, init, target, max);
      UnitsStep(text, spans, target, max);
      SpansStep(text, init, span, target, max);
      SplitLast(spans);
    }
  }

  lemma SplitLast(spans: seq<Range>)
    requires spans != []
    ensures spans == spans[..|spans| - 1] + [spans[|spans| - 1]]
  {
  }

  lemma SpansStep(text: Text, init: seq<Range>, span: Range, target: nat, max: nat)
    requires span.0 <= span.1 <= |text| && target >= 2
    ensures Content(text, init + [span]) == Content(text, init) + Content(text, UnitsOf(text, span, target, max))
  {
    UnitsOfKeepText(text, span, target, max);
    ContentConcat(text, init, [span]);
  }

  /** Unit j comes of sentence k: the sentence itself, or one of its ranges if it is too long. */
  predicate IsUnitOf(text: Text, span: Range, target: nat, max: nat, unit: Range) {
    if span.1 - span.0 <= max then unit == span else span.0 <= unit.0 && IsCutWell(text, unit, span.1, target)
  }

  /** The units of sentence k are those from at[k] to at[k + 1] - 1. */
  ghost predicate AreUnits(text: Text, spans: seq<Range>, target: nat, max: nat, units: seq<Range>, at: seq<nat>) {
    && |at| == |spans| + 1 && at[0] == 0 && at[|spans|] == |units|
    && (forall k :: 0 <= k < |spans| ==> AreUnitsOf(text, spans[k], target, max, units, at[k], at[k + 1]))
  }

  ghost predicate AreUnitsOf(text: Text, span: Range, target: nat, max: nat, units: seq<Range>, a: nat, b: nat) {
    && a <= b <= |units| && (span.1 - span.0 <= max ==> b == a + 1)
    && forall j :: a <= j < b ==> IsUnitOf(text, span, target, max, units[j])
  }

  lemma {:induction false} UnitsAreSentences(text: Text, spans: seq<Range>, target: nat, max: nat) returns (at: seq<nat>)
    requires SpansIn(text, spans) && target >= 2
    ensures AreUnits(text, spans, target, max, Units(text, spans, target, max), at)
  {
    if spans == [] {
      at := [0];
    } else {
      var n := |spans| - 1;
      var before, more := Units(text, spans[..n], target, max), UnitsOf(text, spans[n], target, max);
      var init := UnitsAreSentences(text, spans[..n], target, max);
      at := init + [|before| + |more|];
      if spans[n].1 - spans[n].0 > max { WordRangesAreCutWell(text, spans[n].0, spans[n].1, target); }
      forall k | 0 <= k < |spans| ensures AreUnitsOf(text, spans[k], target, max, before + more, at[k], at[k + 1]) {
        if k < n { assert AreUnitsOf(text, spans[..n][k], target, max, before, init[k], init[k + 1]); }
      }
    }
  }

  // ---------- chunks ----------

  /** A unit joins the last chunk while the chunk stays within the target, otherwise it starts one. */
  function Joined(chunks: seq<Range>, unit: Range, target: nat): seq<Range> {
    if chunks != [] && unit.1 - chunks[|chunks| - 1].0 <= target then chunks[..|chunks| - 1] + [(chunks[|chunks| - 1].0, unit.1)]
    else chunks + [unit]
  }

  function Chunks(units: seq<Range>, target: nat): seq<Range> {
    if units == [] then [] else Joined(Chunks(units[..|units| - 1], target), units[|units| - 1], target)
  }

  /**
   * Chunk k is units cut[k] to cut[k + 1] - 1: every unit in one chunk, in order; more than one only within the target; and the
   * next unit would have taken it past the target.
   */
  ghost predicate IsChunking(units: seq<Range>, target: nat, chunks: seq<Range>, cut: seq<nat>) {
    && |cut| == |chunks| + 1 && cut[0] == 0 && cut[|chunks|] == |units|
    && (forall k :: 0 <= k < |chunks| ==> IsChunkOf(units, target, chunks, cut, k))
  }

  ghost predicate IsChunkOf(units: seq<Range>, target: nat, chunks: seq<Range>, cut: seq<nat>, k: nat)
    requires k < |chunks| && |cut| == |chunks| + 1
  {
    && cut[k] < cut[k + 1] <= |units|
    && chunks[k] == (units[cut[k]].0, units[cut[k + 1] - 1].1)
    && (cut[k + 1] - cut[k] > 1 ==> chunks[k].1 - chunks[k].0 <= target)
    && (k + 1 < |chunks| ==> cut[k + 1] < |units| && units[cut[k + 1]].1 - chunks[k].0 > target)
  }

  lemma {:induction false} ChunksAreGreedy(units: seq<Range>, target: nat) returns (cut: seq<nat>)
    ensures IsChunking(units, target, Chunks(units, target), cut)
  {
    if units == [] {
      cut := [0];
    } else {
      var n := |units| - 1;
      var before := Chunks(units[..n], target);
      var init := ChunksAreGreedy(units[..n], target);
      var joins := before != [] && units[n].1 - before[|before| - 1].0 <= target;
      cut := (if joins then init[..|before|] else init) + [n + 1];
      if joins { ChunkJoined(units, target, before, init, cut); } else { ChunkStarted(units, target, before, init, cut); }
    }
  }

  lemma ChunkJoined(units: seq<Range>, target: nat, before: seq<Range>, init: seq<nat>, cut: seq<nat>)
    requires units != [] && IsChunking(units[..|units| - 1], target, before, init) && before != []
    requires units[|units| - 1].1 - before[|before| - 1].0 <= target && cut == init[..|before|] + [|units|]
    ensures IsChunking(units, target, before[..|before| - 1] + [(before[|before| - 1].0, units[|units| - 1].1)], cut)
  {
    var chunks := before[..|before| - 1] + [(before[|before| - 1].0, units[|units| - 1].1)];
    forall k | 0 <= k < |chunks| ensures IsChunkOf(units, target, chunks, cut, k) { assert IsChunkOf(units[..|units| - 1], target, before, init, k); }
  }

  lemma ChunkStarted(units: seq<Range>, target: nat, before: seq<Range>, init: seq<nat>, cut: seq<nat>)
    requires units != [] && IsChunking(units[..|units| - 1], target, before, init)
    requires (before != [] ==> units[|units| - 1].1 - before[|before| - 1].0 > target) && cut == init + [|units|]
    ensures IsChunking(units, target, before + [units[|units| - 1]], cut)
  {
    var chunks := before + [units[|units| - 1]];
    forall k | 0 <= k < |chunks| ensures IsChunkOf(units, target, chunks, cut, k) {
      if k < |before| { assert IsChunkOf(units[..|units| - 1], target, before, init, k); }
    }
  }

  lemma {:induction false} ChunksFit(units: seq<Range>, end: nat, target: nat, max: nat)
    requires RangesFit(units, 0, end, max) && target <= max
    ensures RangesFit(Chunks(units, target), 0, end, max)
    ensures units != [] ==> Chunks(units, target) != [] && Chunks(units, target)[|Chunks(units, target)| - 1].1 == units[|units| - 1].1
  {
    if units != [] {
      var n := |units| - 1;
      ChunksFit(units[..n], end, target, max);
      JoinedFits(Chunks(units[..n], target), units[n], if n == 0 then 0 else units[n - 1].1, end, target, max);
    }
  }

  lemma JoinedFits(chunks: seq<Range>, unit: Range, last: nat, end: nat, target: nat, max: nat)
    requires RangesFit(chunks, 0, end, max) && target <= max && last <= unit.0 < unit.1 <= end && unit.1 - unit.0 <= max
    requires chunks != [] ==> chunks[|chunks| - 1].1 == last
    ensures RangesFit(Joined(chunks, unit, target), 0, end, max)
    ensures Joined(chunks, unit, target) != [] && Joined(chunks, unit, target)[|Joined(chunks, unit, target)| - 1].1 == unit.1
  {
    if chunks != [] && unit.1 - chunks[|chunks| - 1].0 <= target {
      AppendedFits(chunks[..|chunks| - 1], (chunks[|chunks| - 1].0, unit.1), end, max);
    } else {
      AppendedFits(chunks, unit, end, max);
    }
  }

  lemma AppendedFits(chunks: seq<Range>, r: Range, end: nat, max: nat)
    requires RangesFit(chunks, 0, end, max) && r.0 < r.1 <= end && r.1 - r.0 <= max
    requires chunks != [] ==> chunks[|chunks| - 1].1 <= r.0
    ensures RangesFit(chunks + [r], 0, end, max)
  {
  }

  lemma {:induction false} ChunksWhole(text: Text, units: seq<Range>, target: nat)
    requires RangesWhole(text, units)
    ensures RangesWhole(text, Chunks(units, target))
  {
    if units != [] { ChunksWhole(text, units[..|units| - 1], target); }
  }

  /** Between two units there is only white space. */
  ghost predicate GapsAreSpace(text: Text, units: seq<Range>) {
    forall k :: 0 <= k < |units| ==> GapIsSpace(text, units, k)
  }

  /** The gap before unit k, if another one precedes it. */
  ghost predicate GapIsSpace(text: Text, units: seq<Range>, k: nat)
    requires k < |units|
  {
    k > 0 ==> units[k - 1].1 <= units[k].0 <= |text| && Chars(text, units[k - 1].1, units[k].0) == []
  }

  lemma GapsBefore(text: Text, units: seq<Range>)
    requires units != [] && GapsAreSpace(text, units)
    ensures GapsAreSpace(text, units[..|units| - 1]) && GapIsSpace(text, units, |units| - 1)
  {
    var init := units[..|units| - 1];
    forall k | 0 <= k < |init| ensures GapIsSpace(text, init, k) { assert GapIsSpace(text, units, k); }
  }

  lemma {:induction false} ChunksKeepText(text: Text, units: seq<Range>, target: nat)
    requires RangesFit(units, 0, |text|, |text|) && GapsAreSpace(text, units)
    ensures Content(text, Chunks(units, target)) == Content(text, units)
  {
    if units != [] {
      var before, unit := units[..|units| - 1], units[|units| - 1];
      GapsBefore(text, units);
      ChunksKeepText(text, before, target);
      if before != [] {
        FitAreInPlace(before, |text|, |text|);
        ChunkEnds(before, target);
        GapBeforeUnit(text, units);
      }
      JoinedKeepsText(text, Chunks(before, target), unit, if before == [] then 0 else before[|before| - 1].1, target);
      SplitLast(units);
      ContentLast(text, before, unit);
    }
  }

  lemma GapBeforeUnit(text: Text, units: seq<Range>)
    requires |units| > 1 && GapsAreSpace(text, units)
    ensures var before := units[..|units| - 1]; var last, unit := before[|before| - 1], units[|units| - 1];
      last.1 <= unit.0 <= |text| && Chars(text, last.1, unit.0) == []
  {
    assert GapIsSpace(text, units, |units| - 1);
  }

  lemma JoinedKeepsText(text: Text, chunks: seq<Range>, unit: Range, end: nat, target: nat)
    requires unit.0 <= unit.1 <= |text|
    requires chunks != [] ==> EndsAt(chunks, end) && end <= unit.0 && Chars(text, end, unit.0) == []
    ensures Content(text, Joined(chunks, unit, target)) == Content(text, chunks) + CharsOf(text, unit)
  {
    if chunks != [] && unit.1 - chunks[|chunks| - 1].0 <= target {
      JoinKeepsText(text, chunks[..|chunks| - 1], chunks[|chunks| - 1], unit);
      SplitLast(chunks);
    } else {
      ContentLast(text, chunks, unit);
    }
  }

  /** Unit k is not empty and begins after the one before. */
  ghost predicate InPlace(units: seq<Range>, k: nat)
    requires k < |units|
  {
    units[k].0 < units[k].1 && (k > 0 ==> units[k - 1].1 <= units[k].0)
  }

  ghost predicate AllInPlace(units: seq<Range>) { forall k :: 0 <= k < |units| ==> InPlace(units, k) }

  lemma FitAreInPlace(units: seq<Range>, end: nat, limit: nat)
    requires RangesFit(units, 0, end, limit)
    ensures AllInPlace(units)
  {
  }

  lemma {:induction false} ChunkEnds(units: seq<Range>, target: nat)
    requires AllInPlace(units) && units != []
    ensures EndsAt(Chunks(units, target), units[|units| - 1].1)
  {
    var n := |units| - 1;
    var before := units[..n];
    assert InPlace(units, n);
    if n > 0 {
      forall k | 0 <= k < n ensures InPlace(before, k) { assert InPlace(units, k); }
      ChunkEnds(before, target);
      assert units[n - 1] == before[n - 1];
    }
    JoinedEnds(Chunks(before, target), units[n], if n == 0 then 0 else units[n - 1].1, target);
  }

  /** The last chunk is not empty and ends here. */
  predicate EndsAt(chunks: seq<Range>, end: nat) { chunks != [] && chunks[|chunks| - 1].0 < chunks[|chunks| - 1].1 == end }

  lemma JoinedEnds(chunks: seq<Range>, unit: Range, last: nat, target: nat)
    requires (chunks != [] ==> EndsAt(chunks, last)) && last <= unit.0 < unit.1
    ensures EndsAt(Joined(chunks, unit, target), unit.1)
  {
  }

  lemma JoinKeepsText(text: Text, init: seq<Range>, last: Range, unit: Range)
    requires last.0 <= last.1 <= unit.0 <= unit.1 <= |text| && Chars(text, last.1, unit.0) == []
    ensures Content(text, init + [(last.0, unit.1)]) == Content(text, init + [last]) + Chars(text, unit.0, unit.1)
  {
    ContentLast(text, init, (last.0, unit.1));
    ContentLast(text, init, last);
    StretchKeepsText(text, last.0, last.1, unit.0, unit.1);
    Associative(Content(text, init), Chars(text, last.0, last.1), Chars(text, unit.0, unit.1));
  }

  lemma StretchKeepsText(text: Text, a: nat, b: nat, c: nat, d: nat)
    requires a <= b <= c <= d <= |text| && Chars(text, b, c) == []
    ensures Chars(text, a, d) == Chars(text, a, b) + Chars(text, c, d)
  {
    CharsSplit(text, a, b, d);
    CharsSplit(text, b, c, d);
    assert [] + Chars(text, c, d) == Chars(text, c, d);
  }

  /** Where the units leave only white space out, so do the gaps between them. */
  lemma {:induction false} NothingLostNoGaps(text: Text, units: seq<Range>, end: nat)
    requires RangesFit(units, 0, end, end) && end <= |text|
    ensures |Content(text, units)| <= |Chars(text, 0, end)|
    ensures Content(text, units) == Chars(text, 0, end) ==> GapsAreSpace(text, units)
  {
    if units != [] {
      var n := |units| - 1;
      var m := if n == 0 then 0 else units[n - 1].1;
      NothingLostNoGaps(text, units[..n], m);
      OneUnitMore(text, units, end, m);
    }
  }

  lemma OneUnitMore(text: Text, units: seq<Range>, end: nat, m: nat)
    requires RangesFit(units, 0, end, end) && end <= |text| && units != [] && m == (if |units| == 1 then 0 else units[|units| - 2].1)
    requires |Content(text, units[..|units| - 1])| <= |Chars(text, 0, m)|
    requires Content(text, units[..|units| - 1]) == Chars(text, 0, m) ==> GapsAreSpace(text, units[..|units| - 1])
    ensures |Content(text, units)| <= |Chars(text, 0, end)|
    ensures Content(text, units) == Chars(text, 0, end) ==> GapsAreSpace(text, units)
  {
    Decomposed(text, m, units[|units| - 1], end);
    ContentInit(text, units);
    GapsFromLengths(text, units, end, m);
  }

  lemma ContentInit(text: Text, units: seq<Range>)
    requires units != [] && units[|units| - 1].0 <= units[|units| - 1].1 <= |text|
    ensures var u := units[|units| - 1]; Content(text, units) == Content(text, units[..|units| - 1]) + Chars(text, u.0, u.1)
  {
    var n := |units| - 1;
    assert units == units[..n] + [units[n]];
    ContentLast(text, units[..n], units[n]);
  }

  lemma Decomposed(text: Text, m: nat, u: Range, end: nat)
    requires m <= u.0 <= u.1 <= end <= |text|
    ensures Chars(text, 0, end) == Chars(text, 0, m) + (Chars(text, m, u.0) + (Chars(text, u.0, u.1) + Chars(text, u.1, end)))
  {
    CharsSplit(text, 0, m, end);
    CharsSplit(text, m, u.0, end);
    CharsSplit(text, u.0, u.1, end);
  }

  lemma GapsFromLengths(text: Text, units: seq<Range>, end: nat, m: nat)
    requires RangesFit(units, 0, end, end) && end <= |text| && units != [] && m == (if |units| == 1 then 0 else units[|units| - 2].1)
    requires var u := units[|units| - 1];
      && Chars(text, 0, end) == Chars(text, 0, m) + (Chars(text, m, u.0) + (Chars(text, u.0, u.1) + Chars(text, u.1, end)))
      && Content(text, units) == Content(text, units[..|units| - 1]) + Chars(text, u.0, u.1)
    requires |Content(text, units[..|units| - 1])| <= |Chars(text, 0, m)|
    requires Content(text, units[..|units| - 1]) == Chars(text, 0, m) ==> GapsAreSpace(text, units[..|units| - 1])
    ensures Content(text, units) == Chars(text, 0, end) ==> GapsAreSpace(text, units)
  {
    var n := |units| - 1;
    var u := units[n];
    if Content(text, units) == Chars(text, 0, end) {
      var a, b, c := Content(text, units[..n]), Chars(text, 0, m), Chars(text, u.0, u.1);
      var gap, rest := Chars(text, m, u.0), Chars(text, u.1, end);
      assert |a| + |c| == |b| + (|gap| + (|c| + |rest|));
      assert gap == [] && |a| == |b|;
      assert a == (a + c)[..|a|] && b == (b + (gap + (c + rest)))[..|b|];
      forall k | 0 <= k <= n ensures GapIsSpace(text, units, k) {
        if k < n { assert GapIsSpace(text, units[..n], k); }
      }
    }
  }

  // ---------- pieces ----------

  /** A range without the white space at its ends. */
  function TrimStart(text: Text, r: Range): (t: Range)
    requires r.0 <= r.1 <= |text|
    ensures r.0 <= t.0 <= t.1 == r.1 && (t.0 < t.1 ==> !IsSpace(text[t.0])) && forall i :: r.0 <= i < t.0 ==> IsSpace(text[i])
    decreases r.1 - r.0
  {
    if r.0 < r.1 && IsSpace(text[r.0]) then TrimStart(text, (r.0 + 1, r.1)) else r
  }

  function TrimEnd(text: Text, r: Range): (t: Range)
    requires r.0 <= r.1 <= |text|
    ensures r.0 == t.0 <= t.1 <= r.1 && (t.0 < t.1 ==> !IsSpace(text[t.1 - 1])) && forall i :: t.1 <= i < r.1 ==> IsSpace(text[i])
    decreases r.1 - r.0
  {
    if r.0 < r.1 && IsSpace(text[r.1 - 1]) then TrimEnd(text, (r.0, r.1 - 1)) else r
  }

  function Trimmed(text: Text, r: Range): Range
    requires r.0 <= r.1 <= |text|
  {
    TrimEnd(text, TrimStart(text, r))
  }

  lemma TrimmedKeepsText(text: Text, r: Range)
    requires r.0 <= r.1 <= |text|
    ensures var t := Trimmed(text, r); r.0 <= t.0 <= t.1 <= r.1 && Chars(text, t.0, t.1) == Chars(text, r.0, r.1)
  {
    var t := Trimmed(text, r);
    CharsSplit(text, r.0, t.0, r.1);
    CharsSplit(text, t.0, t.1, r.1);
    CharsOfSpaces(text, r.0, t.0);
    CharsOfSpaces(text, t.1, r.1);
  }

  lemma TrimmedWhole(text: Text, r: Range)
    requires r.0 <= r.1 <= |text| && !SplitsPair(text, r.0) && !SplitsPair(text, r.1)
    ensures var t := Trimmed(text, r); !SplitsPair(text, t.0) && !SplitsPair(text, t.1)
  {
    var t := Trimmed(text, r);
    if t.0 > r.0 { assert IsSpace(text[t.0 - 1]); }
    if t.1 < r.1 { assert IsSpace(text[t.1]); }
  }

  ghost predicate InText(text: Text, ranges: seq<Range>) { forall k :: 0 <= k < |ranges| ==> ranges[k].0 <= ranges[k].1 <= |text| }

  /** The trimmed chunks that are not empty. */
  function PieceRanges(text: Text, chunks: seq<Range>): seq<Range>
    requires InText(text, chunks)
  {
    if chunks == [] then []
    else
      var t := Trimmed(text, chunks[|chunks| - 1]);
      PieceRanges(text, chunks[..|chunks| - 1]) + Kept(t)
  }

  function Kept(t: Range): seq<Range> { if t.0 < t.1 then [t] else [] }

  /** The piece is the chunk without the white space around it. */
  predicate IsTrimOf(text: Text, c: Range, p: Range) {
    && c.0 <= p.0 < p.1 <= c.1 <= |text| && !IsSpace(text[p.0]) && !IsSpace(text[p.1 - 1])
    && (forall i :: c.0 <= i < p.0 ==> IsSpace(text[i])) && (forall i :: p.1 <= i < c.1 ==> IsSpace(text[i]))
  }

  /** The pieces are the chunks without white space around them, in order; only chunks of nothing else are missing. */
  ghost predicate ArePieces(text: Text, chunks: seq<Range>, pieces: seq<Range>, picks: seq<nat>) {
    && |picks| == |pieces|
    && (forall k, l :: 0 <= k < l < |picks| ==> picks[k] < picks[l])
    && (forall k :: 0 <= k < |picks| ==> picks[k] < |chunks| && IsTrimOf(text, chunks[picks[k]], pieces[k]))
    && (forall i :: 0 <= i < |chunks| && i !in picks ==> IsBlank(text, chunks[i]))
  }

  predicate IsBlank(text: Text, c: Range) { c.0 <= c.1 <= |text| && forall i :: c.0 <= i < c.1 ==> IsSpace(text[i]) }

  lemma TrimmedIsTrim(text: Text, c: Range)
    requires c.0 <= c.1 <= |text|
    ensures var t := Trimmed(text, c); if t.0 < t.1 then IsTrimOf(text, c, t) else IsBlank(text, c)
  {
  }

  lemma {:induction false} PiecesAreTrimmed(text: Text, chunks: seq<Range>) returns (picks: seq<nat>)
    requires InText(text, chunks)
    ensures ArePieces(text, chunks, PieceRanges(text, chunks), picks)
  {
    if chunks == [] {
      picks := [];
    } else {
      var n := |chunks| - 1;
      picks := PiecesAreTrimmed(text, chunks[..n]);
      TrimmedIsTrim(text, chunks[n]);
      var more := if Trimmed(text, chunks[n]).0 < Trimmed(text, chunks[n]).1 then picks + [n] else picks;
      PieceTaken(text, chunks, PieceRanges(text, chunks[..n]), picks, Trimmed(text, chunks[n]), more);
      picks := more;
    }
  }

  lemma PieceTaken(text: Text, chunks: seq<Range>, pieces: seq<Range>, picks: seq<nat>, t: Range, more: seq<nat>)
    requires chunks != [] && ArePieces(text, chunks[..|chunks| - 1], pieces, picks)
    requires if t.0 < t.1 then IsTrimOf(text, chunks[|chunks| - 1], t) && more == picks + [|chunks| - 1] else IsBlank(text, chunks[|chunks| - 1]) && more == picks
    ensures ArePieces(text, chunks, pieces + Kept(t), more)
  {
    var n := |chunks| - 1;
    assert t.0 < t.1 ==> more[|picks|] == n;
    forall i | 0 <= i < |chunks| && i !in more ensures IsBlank(text, chunks[i]) {
      if i < n { assert i !in picks && chunks[..n][i] == chunks[i]; }
    }
    forall k | 0 <= k < |more| ensures more[k] < |chunks| && IsTrimOf(text, chunks[more[k]], (pieces + Kept(t))[k]) {
      if k < |picks| { assert chunks[..n][picks[k]] == chunks[picks[k]]; }
    }
  }

  lemma {:induction false} PiecesFitChunks(text: Text, chunks: seq<Range>, end: nat, max: nat)
    requires RangesFit(chunks, 0, end, max) && end <= |text|
    ensures RangesFit(PieceRanges(text, chunks), 0, if chunks == [] then 0 else chunks[|chunks| - 1].1, max)
  {
    if chunks != [] {
      var n := |chunks| - 1;
      var c, t := chunks[n], Trimmed(text, chunks[n]);
      PiecesFitChunks(text, chunks[..n], end, max);
      TrimmedKeepsText(text, c);
      FitConcat(PieceRanges(text, chunks[..n]), Kept(t), 0, if n == 0 then 0 else chunks[n - 1].1, c.0, c.1, max);
    }
  }

  lemma PiecesStep(text: Text, chunks: seq<Range>)
    requires InText(text, chunks) && chunks != []
    ensures Content(text, PieceRanges(text, chunks))
      == Content(text, PieceRanges(text, chunks[..|chunks| - 1])) + Content(text, Kept(Trimmed(text, chunks[|chunks| - 1])))
  {
    ContentConcat(text, PieceRanges(text, chunks[..|chunks| - 1]), Kept(Trimmed(text, chunks[|chunks| - 1])));
  }

  lemma {:induction false} PiecesKeepText(text: Text, chunks: seq<Range>)
    requires InText(text, chunks)
    ensures Content(text, PieceRanges(text, chunks)) == Content(text, chunks)
  {
    if chunks != [] {
      var n := |chunks| - 1;
      var c, t := chunks[n], Trimmed(text, chunks[n]);
      PiecesKeepText(text, chunks[..n]);
      TrimmedKeepsText(text, c);
      KeptText(text, t);
      PiecesStep(text, chunks);
      ContentInit(text, chunks);
    }
  }

  lemma KeptText(text: Text, t: Range)
    requires t.0 <= t.1 <= |text|
    ensures Content(text, Kept(t)) == Chars(text, t.0, t.1)
  {
    if t.0 < t.1 { ContentOne(text, t); }
  }

  lemma {:induction false} PiecesWhole(text: Text, chunks: seq<Range>)
    requires InText(text, chunks) && RangesWhole(text, chunks)
    ensures RangesWhole(text, PieceRanges(text, chunks))
  {
    if chunks != [] {
      PiecesWhole(text, chunks[..|chunks| - 1]);
      TrimmedWhole(text, chunks[|chunks| - 1]);
    }
  }

  /** The pieces a text is split into, as ranges of it. */
  function SplitRanges(text: Text, spans: seq<Range>, target: nat, max: nat): seq<Range>
    requires SpansIn(text, spans) && (forall k, l :: 0 <= k < l < |spans| ==> spans[k].1 <= spans[l].0)
    requires 2 <= target <= max
  {
    if |text| <= max then [(0, |text|)]
    else
      var chunks := Chunks(Units(text, spans, target, max), target);
      ChunksInText(text, spans, target, max);
      PieceRanges(text, chunks)
  }

  lemma ChunksInText(text: Text, spans: seq<Range>, target: nat, max: nat)
    requires SpansIn(text, spans) && (forall k, l :: 0 <= k < l < |spans| ==> spans[k].1 <= spans[l].0)
    requires 2 <= target <= max
    ensures var chunks := Chunks(Units(text, spans, target, max), target);
      InText(text, chunks)
  {
    var end := if spans == [] then 0 else spans[|spans| - 1].1;
    UnitsFit(text, spans, target, max);
    ChunksFit(Units(text, spans, target, max), end, target, max);
  }

  /** Pieces lose nothing but white space. */
  lemma SplitKeepsText(text: Text, spans: seq<Range>, target: nat, max: nat)
    requires 2 <= target <= max && IsSegmentation(text, spans)
    ensures Content(text, SplitRanges(text, spans, target, max)) == Chars(text, 0, |text|)
  {
    if |text| <= max {
      ContentOne(text, (0, |text|));
    } else {
      UnitsFit(text, spans, target, max);
      UnitsKeepText(text, spans, target, max);
      ChunksInText(text, spans, target, max);
      UnitsToPieces(text, Units(text, spans, target, max), if spans == [] then 0 else spans[|spans| - 1].1, target, max);
    }
  }

  lemma UnitsToPieces(text: Text, units: seq<Range>, end: nat, target: nat, max: nat)
    requires RangesFit(units, 0, end, max) && end <= |text| && Content(text, units) == Chars(text, 0, |text|)
    requires InText(text, Chunks(units, target))
    ensures Content(text, PieceRanges(text, Chunks(units, target))) == Chars(text, 0, |text|)
  {
    FitWhole(units, end, max, |text|);
    NothingLostNoGaps(text, units, |text|);
    ChunksKeepText(text, units, target);
    PiecesKeepText(text, Chunks(units, target));
  }

  /** Ranges within a text are no longer than it. */
  lemma FitWhole(ranges: seq<Range>, end: nat, limit: nat, n: nat)
    requires RangesFit(ranges, 0, end, limit) && end <= n
    ensures RangesFit(ranges, 0, n, n)
  {
  }

  /** Pieces are in order and never longer than max. */
  lemma SplitFits(text: Text, spans: seq<Range>, target: nat, max: nat)
    requires 2 <= target <= max && IsSegmentation(text, spans)
    ensures text != [] ==> RangesFit(SplitRanges(text, spans, target, max), 0, |text|, max)
    ensures text == [] ==> SplitRanges(text, spans, target, max) == [(0, 0)]
  {
    if |text| > max {
      UnitsFit(text, spans, target, max);
      PiecesOfUnitsFit(text, Units(text, spans, target, max), if spans == [] then 0 else spans[|spans| - 1].1, target, max);
    }
  }

  lemma PiecesOfUnitsFit(text: Text, units: seq<Range>, end: nat, target: nat, max: nat)
    requires RangesFit(units, 0, end, max) && end <= |text| && target <= max
    ensures RangesFit(Chunks(units, target), 0, end, max)
    ensures RangesFit(PieceRanges(text, Chunks(units, target)), 0, |text|, max)
  {
    var chunks := Chunks(units, target);
    ChunksFit(units, end, target, max);
    PiecesFitChunks(text, chunks, end, max);
    var last := if chunks == [] then 0 else chunks[|chunks| - 1].1;
    assert last <= end;
    FitWider(PieceRanges(text, chunks), 0, last, max, 0, |text|, max);
  }

  /** Pieces never start or end inside a surrogate pair. */
  lemma SplitIsWhole(text: Text, spans: seq<Range>, target: nat, max: nat)
    requires 2 <= target <= max && IsSegmentation(text, spans) && Cuttable(text)
    ensures RangesWhole(text, SplitRanges(text, spans, target, max))
  {
    if |text| > max {
      UnitsFit(text, spans, target, max);
      ChunksFit(Units(text, spans, target, max), if spans == [] then 0 else spans[|spans| - 1].1, target, max);
      UnitsWhole(text, spans, target, max);
      ChunksWhole(text, Units(text, spans, target, max), target);
      PiecesWhole(text, Chunks(Units(text, spans, target, max), target));
    }
  }

  /**
   * What splitting comes to: a text that is short enough whole; otherwise its sentences, too long ones cut at spaces, gathered
   * into chunks as long as the target allows, and these without white space around them.
   */
  ghost predicate IsSplit(text: Text, spans: seq<Range>, target: nat, max: nat, pieces: seq<Range>) {
    if |text| <= max then pieces == [(0, |text|)]
    else
      exists units, at, chunks, cut, picks ::
        AreUnits(text, spans, target, max, units, at) && IsChunking(units, target, chunks, cut) && ArePieces(text, chunks, pieces, picks)
  }

  lemma SplitIs(text: Text, spans: seq<Range>, target: nat, max: nat)
    requires 2 <= target <= max && IsSegmentation(text, spans)
    ensures IsSplit(text, spans, target, max, SplitRanges(text, spans, target, max))
  {
    if |text| > max {
      var units := Units(text, spans, target, max);
      var at := UnitsAreSentences(text, spans, target, max);
      var cut := ChunksAreGreedy(units, target);
      ChunksInText(text, spans, target, max);
      var picks := PiecesAreTrimmed(text, Chunks(units, target));
    }
  }

  // ---------- the loops ----------

  method SplitLongText(text: Text, segment: Text -> seq<Range>, target: nat, max: nat) returns (pieces: seq<Range>)
    requires 2 <= target <= max && LawfulSegmenter(segment)
    ensures IsSplit(text, segment(text), target, max, pieces)
    ensures pieces == SplitRanges(text, segment(text), target, max)
  {
    if |text| <= max { return [(0, |text|)]; }
    var spans := segment(text);
    assert IsSegmentation(text, spans);
    SplitIs(text, spans, target, max);
    var units := UnitsLoop(text, spans, target, max);
    UnitsFit(text, spans, target, max);
    ghost var end := if spans == [] then 0 else spans[|spans| - 1].1;
    ChunksFit(units, end, target, max);
    pieces := PiecesLoop(text, units, target, end, max);
  }

  method UnitsLoop(text: Text, spans: seq<Range>, target: nat, max: nat) returns (units: seq<Range>)
    requires SpansIn(text, spans) && target >= 2
    ensures units == Units(text, spans, target, max)
  {
    units := [];
    for i := 0 to |spans|
      invariant units == Units(text, spans[..i], target, max)
    {
      assert spans[..i + 1][..i] == spans[..i];
      if spans[i].1 - spans[i].0 > max {
        var ranges := WordRangesLoop(text, spans[i].0, spans[i].1, target);
        units := units + ranges;
      } else {
        units := units + [spans[i]];
      }
    }
    assert spans[..|spans|] == spans;
  }

  /** One chunk is open at a time; a finished one is trimmed and kept unless empty. */
  method PiecesLoop(text: Text, units: seq<Range>, target: nat, ghost end: nat, ghost max: nat) returns (pieces: seq<Range>)
    requires RangesFit(units, 0, end, max) && target <= max && end <= |text|
    ensures RangesFit(Chunks(units, target), 0, end, max) && pieces == PieceRanges(text, Chunks(units, target))
  {
    pieces := [];
    var open := false;
    var chunk: Range := (0, 0);
    ghost var done: seq<Range> := [];
    ChunksFit(units, end, target, max);
    for i := 0 to |units|
      invariant open <==> i > 0
      invariant open ==> chunk.1 == units[i - 1].1
      invariant Opened(text, Chunks(units[..i], target), open, chunk, done, pieces)
    {
      assert units[..i + 1][..i] == units[..i];
      chunk, pieces, done := AddUnit(text, Chunks(units[..i], target), open, chunk, pieces, units[i], target, done);
      open := true;
    }
    assert units[..|units|] == units;
    if open { pieces, done := Close(text, chunk, pieces, done); }
  }

  /** A unit joins the open chunk or closes it and opens the next. */
  method AddUnit(text: Text, ghost chunks: seq<Range>, open: bool, before: Range, pieces0: seq<Range>, unit: Range, target: nat, ghost done0: seq<Range>)
    returns (chunk: Range, pieces: seq<Range>, ghost done: seq<Range>)
    requires Opened(text, chunks, open, before, done0, pieces0) && unit.0 <= unit.1 <= |text| && (open ==> before.1 <= unit.0)
    ensures Opened(text, Joined(chunks, unit, target), true, chunk, done, pieces) && chunk.1 == unit.1
  {
    pieces, done := pieces0, done0;
    if open && unit.1 - before.0 <= target {
      assert (done + [before])[..|done|] == done;
      return (before.0, unit.1), pieces, done;
    }
    if open { pieces, done := Close(text, before, pieces, done); }
    chunk := unit;
  }

  /** The chunks so far: those done, whose pieces are known, and the open one. */
  ghost predicate Opened(text: Text, chunks: seq<Range>, open: bool, chunk: Range, done: seq<Range>, pieces: seq<Range>) {
    && chunks == (if open then done + [chunk] else []) && (open || done == [])
    && (open ==> chunk.0 <= chunk.1 <= |text|)
    && (forall k :: 0 <= k < |done| ==> done[k].0 <= done[k].1 <= |text|)
    && pieces == PieceRanges(text, done)
  }

  lemma PieceAdded(text: Text, closed: seq<Range>, chunk: Range)
    requires (forall k :: 0 <= k < |closed| ==> closed[k].0 <= closed[k].1 <= |text|) && chunk.0 <= chunk.1 <= |text|
    ensures forall k :: 0 <= k < |closed + [chunk]| ==> (closed + [chunk])[k].0 <= (closed + [chunk])[k].1 <= |text|
    ensures PieceRanges(text, closed + [chunk]) == PieceRanges(text, closed) + Kept(Trimmed(text, chunk))
  {
    assert (closed + [chunk])[..|closed|] == closed;
  }

  method Close(text: Text, chunk: Range, before: seq<Range>, ghost closed: seq<Range>) returns (pieces: seq<Range>, ghost done: seq<Range>)
    requires (forall k :: 0 <= k < |closed| ==> closed[k].0 <= closed[k].1 <= |text|) && before == PieceRanges(text, closed)
    requires chunk.0 <= chunk.1 <= |text|
    ensures done == closed + [chunk] && (forall k :: 0 <= k < |done| ==> done[k].0 <= done[k].1 <= |text|) && pieces == PieceRanges(text, done)
  {
    done := closed + [chunk];
    PieceAdded(text, closed, chunk);
    var t := Trimmed(text, chunk);
    pieces := before + Kept(t);
  }
}
