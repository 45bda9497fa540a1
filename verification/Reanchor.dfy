module Reanchor {
  // Re-anchoring: where a highlight or an ink stroke belongs once the text of its page has changed.

  import opened Spans
  import opened Options
  import opened TextSearch

  /** What is anchored: a highlighted range, or the anchor word of a stroke with the words after it. */
  datatype Anchor =
    | Highlighted(blockIndex: int, start: int, end: int, hash: string, text: string)
    | InkWord(blockIndex: int, charOffset: int, hash: string, contextText: string)

  datatype Place = Orphan | At(blockIndex: int, start: int, end: int)

  const CONTEXT_WORDS := 6
  const CONTEXT_MAX_CHARS := 120

  /** JavaScript's slice: a negative index counts from the end. */
  function JsIndex(s: string, i: int): nat {
    if i < 0 then (if |s| + i < 0 then 0 else |s| + i) else if i < |s| then i else |s|
  }

  function JsSlice(s: string, a: int, b: int): string {
    if JsIndex(s, a) <= JsIndex(s, b) then s[JsIndex(s, a)..JsIndex(s, b)] else ""
  }

  function OrigStart(a: Anchor): int { if a.InkWord? then a.charOffset else a.start }

  function NeedleText(a: Anchor): string { if a.InkWord? then a.contextText else a.text }

  function Needle(m: TextModel, a: Anchor): seq<string> { Norms(NormTokens(m, NeedleText(a))) }

  function FindStart(tokens: seq<NormToken>, start: int): (r: int)
    ensures -1 <= r < |tokens|
    ensures r >= 0 ==> tokens[r].start == start && forall k :: 0 <= k < r ==> tokens[k].start != start
    ensures r < 0 ==> forall k :: 0 <= k < |tokens| ==> tokens[k].start != start
  {
    if tokens == [] then -1
    else if tokens[0].start == start then 0
    else
      var r := FindStart(tokens[1..], start);
      assert forall k :: 0 < k < |tokens| ==> tokens[k] == tokens[1..][k - 1];
      if r < 0 then -1 else r + 1
  }

  /** The needle is at the word that starts at `start`. */
  predicate MatchesAt(tokens: seq<NormToken>, needle: seq<string>, start: int) {
    var i := FindStart(tokens, start);
    i >= 0 && MatchAt(tokens, needle, i)
  }

  /** The text of a block, empty where there is none. */
  function TextAt(blocks: seq<string>, b: nat): string { if b < |blocks| then blocks[b] else "" }

  function TokensAt(m: TextModel, blocks: seq<string>, b: nat): seq<NormToken> { NormTokens(m, TextAt(blocks, b)) }

  predicate InBlocks(blocks: seq<string>, i: int) { 0 <= i < |blocks| }

  /** The block is the one that was anchored in, and the text is still at the same offset. */
  predicate StillThere(m: TextModel, a: Anchor, blocks: seq<string>) {
    && InBlocks(blocks, a.blockIndex) && m.hash(blocks[a.blockIndex]) == a.hash
    && var text := blocks[a.blockIndex];
       if a.InkWord? then Needle(m, a) == [] || MatchesAt(NormTokens(m, text), Needle(m, a), a.charOffset)
       else JsSlice(text, a.start, a.end) == a.text
  }

  /** Keeps the punctuation around the highlighted words where the new text has the same. */
  function WithSurroundings(m: TextModel, text: string, blockText: string, start: int, end: int): (int, int) {
    var words := m.words(text);
    if words == [] then (start, end)
    else
      var lead := JsSlice(text, 0, words[0].start);
      var trail := JsSlice(text, words[|words| - 1].end, |text|);
      (if lead != "" && JsSlice(blockText, start - |lead|, start) == lead then start - |lead| else start,
       if trail != "" && JsSlice(blockText, end, end + |trail|) == trail then end + |trail| else end)
  }

  /** n > 0 tokens from i in a block, as a place. */
  function Placed(m: TextModel, a: Anchor, blocks: seq<string>, b: nat, i: nat, n: nat): Place
    requires n > 0 && i + n <= |TokensAt(m, blocks, b)|
  {
    var tokens := TokensAt(m, blocks, b);
    var start, end := tokens[i].start, tokens[i + n - 1].end;
    if a.InkWord? then At(b, start, end)
    else
      var around := WithSurroundings(m, a.text, TextAt(blocks, b), start, end);
      At(b, around.0, around.1)
  }

  /** The first block of the order with an exact match, and its nearest one. */
  function ExactSearch(m: TextModel, blocks: seq<string>, order: seq<nat>, needle: seq<string>, orig: int): (r: Option<(nat, nat)>)
    ensures r.Some? ==> r.value.0 in order && MatchAt(TokensAt(m, blocks, r.value.0), needle, r.value.1)
  {
    if order == [] then None
    else
      var tokens := TokensAt(m, blocks, order[0]);
      var matches := ExactMatches(tokens, needle);
      if matches != [] then Some((order[0], Nearest(tokens, orig, matches)))
      else ExactSearch(m, blocks, order[1..], needle, orig)
  }

  predicate InRange(tokens: seq<NormToken>, w: Window) { w.size > 0 && w.at + w.size <= |tokens| }

  /** The first block of the order with a similar window, and its best one. */
  function FuzzySearch(m: TextModel, blocks: seq<string>, order: seq<nat>, needle: seq<string>, orig: int): (r: Option<(nat, Window)>)
    ensures r.Some? ==> r.value.0 in order && InRange(TokensAt(m, blocks, r.value.0), r.value.1)
  {
    if order == [] then None
    else
      var best := BestFuzzy(TokensAt(m, blocks, order[0]), needle, orig);
      if best.Some? then
        BestIsRange(TokensAt(m, blocks, order[0]), needle, orig);
        Some((order[0], best.value))
      else FuzzySearch(m, blocks, order[1..], needle, orig)
  }

  lemma BestIsRange(tokens: seq<NormToken>, needle: seq<string>, orig: int)
    requires BestFuzzy(tokens, needle, orig).Some?
    ensures InRange(tokens, BestFuzzy(tokens, needle, orig).value)
  {
    BestOfIsBest(tokens, needle, orig, Windows(|tokens|, |needle|));
    WindowsAre(|tokens|, |needle|, BestFuzzy(tokens, needle, orig).value);
    SimilarIsNotEmpty(tokens, needle, BestFuzzy(tokens, needle, orig).value);
  }

  function Unchanged(a: Anchor, text: string): Place {
    if a.InkWord? then
      var end := a.charOffset + |a.contextText|;
      At(a.blockIndex, a.charOffset, if |text| < end then |text| else end)
    else At(a.blockIndex, a.start, a.end)
  }

  function Reanchored(m: TextModel, a: Anchor, blocks: seq<string>): Place {
    if blocks == [] then Orphan
    else if StillThere(m, a, blocks) then Unchanged(a, blocks[a.blockIndex])
    else if Needle(m, a) == [] then Orphan
    else Searched(m, a, blocks)
  }

  function Searched(m: TextModel, a: Anchor, blocks: seq<string>): Place
    requires blocks != [] && Needle(m, a) != []
  {
    BlockOrderIsByDistance(|blocks|, a.blockIndex);
    var order := BlockOrder(|blocks|, a.blockIndex);
    var exact := ExactSearch(m, blocks, order, Needle(m, a), OrigStart(a));
    if exact.Some? then Placed(m, a, blocks, exact.value.0, exact.value.1, |Needle(m, a)|)
    else
      var fuzzy := FuzzySearch(m, blocks, order, Needle(m, a), OrigStart(a));
      if fuzzy.Some? then Placed(m, a, blocks, fuzzy.value.0, fuzzy.value.1.at, fuzzy.value.1.size) else Orphan
  }

  // ---------- the search is sound and optimal ----------

  ghost predicate HasExact(m: TextModel, blocks: seq<string>, needle: seq<string>, b: nat) {
    exists i: nat :: MatchAt(TokensAt(m, blocks, b), needle, i)
  }

  ghost predicate HasSimilar(m: TextModel, blocks: seq<string>, needle: seq<string>, b: nat) {
    var tokens := TokensAt(m, blocks, b);
    exists w :: w in Windows(|tokens|, |needle|) && Score(tokens, needle, w) >= 0.8
  }

  /** Match i is the first of the nearest. */
  ghost predicate IsNearestMatch(tokens: seq<NormToken>, needle: seq<string>, orig: int, i: nat) {
    && MatchAt(tokens, needle, i)
    && forall j: nat :: MatchAt(tokens, needle, j) ==> (Off(tokens, orig, i) <= Off(tokens, orig, j) && (j < i ==> Off(tokens, orig, i) < Off(tokens, orig, j)))
  }

  /** Match i of block b is the nearest in b, and no block nearer to the origin has any. */
  ghost predicate IsNearestExact(m: TextModel, blocks: seq<string>, needle: seq<string>, orig: int, start: nat, b: nat, i: nat) {
    && b < |blocks| && IsNearestMatch(TokensAt(m, blocks, b), needle, orig, i)
    && forall c: nat :: c < |blocks| && Nearer(start, c, b) ==> !HasExact(m, blocks, needle, c)
  }

  /** Window w of block b is similar enough, none in b beats it, and no block nearer to the origin has a similar one. */
  ghost predicate IsNearestSimilar(m: TextModel, blocks: seq<string>, needle: seq<string>, orig: int, start: nat, b: nat, w: Window) {
    && b < |blocks| && InRange(TokensAt(m, blocks, b), w)
    && IsBest(TokensAt(m, blocks, b), needle, orig, Windows(|TokensAt(m, blocks, b)|, |needle|), Some(w))
    && forall c: nat :: c < |blocks| && Nearer(start, c, b) ==> !HasSimilar(m, blocks, needle, c)
  }

  lemma NearestIsFirst(tokens: seq<NormToken>, needle: seq<string>, orig: int)
    requires ExactMatches(tokens, needle) != []
    ensures IsNearestMatch(tokens, needle, orig, Nearest(tokens, orig, ExactMatches(tokens, needle)))
  {
    var matches := ExactMatches(tokens, needle);
    var i := Nearest(tokens, orig, matches);
    var p :| 0 <= p < |matches| && matches[p] == i && forall k :: 0 <= k < p ==> Off(tokens, orig, i) < Off(tokens, orig, matches[k]);
    forall j: nat | j in matches
      ensures Off(tokens, orig, i) <= Off(tokens, orig, j) && (j < i ==> Off(tokens, orig, i) < Off(tokens, orig, j)) {
      FirstNearest(tokens, orig, matches, p, j);
    }
  }

  lemma FirstNearest(tokens: seq<NormToken>, orig: int, matches: seq<nat>, p: nat, j: nat)
    requires p < |matches| && j in matches && forall k, l :: 0 <= k < l < |matches| ==> matches[k] < matches[l]
    requires forall k :: 0 <= k < p ==> Off(tokens, orig, matches[p]) < Off(tokens, orig, matches[k])
    requires forall k :: 0 <= k < |matches| ==> Off(tokens, orig, matches[p]) <= Off(tokens, orig, matches[k])
    ensures Off(tokens, orig, matches[p]) <= Off(tokens, orig, j) && (j < matches[p] ==> Off(tokens, orig, matches[p]) < Off(tokens, orig, j))
  {
    var k :| 0 <= k < |matches| && matches[k] == j;
  }

  lemma NoMatchNoExact(m: TextModel, blocks: seq<string>, needle: seq<string>, b: nat)
    ensures ExactMatches(TokensAt(m, blocks, b), needle) == [] <==> !HasExact(m, blocks, needle, b)
  {
    var matches := ExactMatches(TokensAt(m, blocks, b), needle);
    if matches != [] { assert matches[0] in matches; }
  }

  ghost predicate NoneExact(m: TextModel, blocks: seq<string>, needle: seq<string>, order: seq<nat>, p: nat) {
    forall q :: 0 <= q < p && q < |order| ==> !HasExact(m, blocks, needle, order[q])
  }

  lemma NoneExactShifted(m: TextModel, blocks: seq<string>, needle: seq<string>, order: seq<nat>, p: nat)
    requires order != [] && !HasExact(m, blocks, needle, order[0]) && NoneExact(m, blocks, needle, order[1..], p)
    ensures NoneExact(m, blocks, needle, order, p + 1)
  {
    forall q | 0 <= q < p + 1 && q < |order| ensures !HasExact(m, blocks, needle, order[q]) { if q > 0 { assert order[q] == order[1..][q - 1]; } }
  }

  lemma NoneSimilarShifted(m: TextModel, blocks: seq<string>, needle: seq<string>, order: seq<nat>, p: nat)
    requires order != [] && !HasSimilar(m, blocks, needle, order[0]) && NoneSimilar(m, blocks, needle, order[1..], p)
    ensures NoneSimilar(m, blocks, needle, order, p + 1)
  {
    forall q | 0 <= q < p + 1 && q < |order| ensures !HasSimilar(m, blocks, needle, order[q]) { if q > 0 { assert order[q] == order[1..][q - 1]; } }
  }

  /** Where in the order the search ends. */
  lemma {:induction false} ExactSearchFinds(m: TextModel, blocks: seq<string>, order: seq<nat>, needle: seq<string>, orig: int) returns (p: nat)
    ensures p <= |order| && NoneExact(m, blocks, needle, order, p)
    ensures var r := ExactSearch(m, blocks, order, needle, orig);
      (r.None? <==> p == |order|) && (r.Some? ==> order[p] == r.value.0 && IsNearestMatch(TokensAt(m, blocks, order[p]), needle, orig, r.value.1))
  {
    if order == [] { return 0; }
    NoMatchNoExact(m, blocks, needle, order[0]);
    if HasExact(m, blocks, needle, order[0]) {
      NearestIsFirst(TokensAt(m, blocks, order[0]), needle, orig);
      return 0;
    }
    var rest := ExactSearchFinds(m, blocks, order[1..], needle, orig);
    p := rest + 1;
    NoneExactShifted(m, blocks, needle, order, rest);
  }

  lemma NoBestNoSimilar(m: TextModel, blocks: seq<string>, needle: seq<string>, orig: int, b: nat)
    ensures BestFuzzy(TokensAt(m, blocks, b), needle, orig).None? <==> !HasSimilar(m, blocks, needle, b)
  {
    var tokens := TokensAt(m, blocks, b);
    BestOfIsBest(tokens, needle, orig, Windows(|tokens|, |needle|));
  }

  ghost predicate NoneSimilar(m: TextModel, blocks: seq<string>, needle: seq<string>, order: seq<nat>, p: nat) {
    forall q :: 0 <= q < p && q < |order| ==> !HasSimilar(m, blocks, needle, order[q])
  }

  lemma {:induction false} FuzzySearchFinds(m: TextModel, blocks: seq<string>, order: seq<nat>, needle: seq<string>, orig: int) returns (p: nat)
    ensures p <= |order| && NoneSimilar(m, blocks, needle, order, p)
    ensures var r := FuzzySearch(m, blocks, order, needle, orig);
      (r.None? <==> p == |order|) && (r.Some? ==> order[p] == r.value.0 && BestFuzzy(TokensAt(m, blocks, order[p]), needle, orig) == Some(r.value.1))
  {
    if order == [] { return 0; }
    NoBestNoSimilar(m, blocks, needle, orig, order[0]);
    if HasSimilar(m, blocks, needle, order[0]) { return 0; }
    var rest := FuzzySearchFinds(m, blocks, order[1..], needle, orig);
    p := rest + 1;
    NoneSimilarShifted(m, blocks, needle, order, rest);
  }

  lemma PlaceInOrder(order: seq<nat>, count: nat, start: nat, c: nat) returns (q: nat)
    requires IsBlockOrder(order, count, start) && c < count
    ensures q < |order| && order[q] == c
  {
    assert c in order;
    q :| 0 <= q < |order| && order[q] == c;
  }

  lemma NearerIsEarlier(order: seq<nat>, count: nat, start: nat, p: nat, c: nat) returns (q: nat)
    requires IsBlockOrder(order, count, start) && p < |order| && c < count && Nearer(start, c, order[p])
    ensures q < p && order[q] == c
  {
    q := PlaceInOrder(order, count, start, c);
    assert forall x :: p <= x < |order| ==> !Nearer(start, order[x], order[p]);
  }

  lemma ExactIsNearest(m: TextModel, blocks: seq<string>, order: seq<nat>, needle: seq<string>, orig: int, start: nat)
    requires IsBlockOrder(order, |blocks|, start) && ExactSearch(m, blocks, order, needle, orig).Some?
    ensures var r := ExactSearch(m, blocks, order, needle, orig).value; IsNearestExact(m, blocks, needle, orig, start, r.0, r.1)
  {
    var p := ExactSearchFinds(m, blocks, order, needle, orig);
    assert order[p] in order;
    forall c: nat | c < |blocks| && Nearer(start, c, order[p]) ensures !HasExact(m, blocks, needle, c) {
      var q := NearerIsEarlier(order, |blocks|, start, p, c);
    }
  }

  lemma SimilarIsNearest(m: TextModel, blocks: seq<string>, order: seq<nat>, needle: seq<string>, orig: int, start: nat)
    requires IsBlockOrder(order, |blocks|, start) && FuzzySearch(m, blocks, order, needle, orig).Some?
    ensures var r := FuzzySearch(m, blocks, order, needle, orig).value; IsNearestSimilar(m, blocks, needle, orig, start, r.0, r.1)
  {
    var p := FuzzySearchFinds(m, blocks, order, needle, orig);
    var tokens := TokensAt(m, blocks, order[p]);
    assert order[p] in order;
    forall c: nat | c < |blocks| && Nearer(start, c, order[p]) ensures !HasSimilar(m, blocks, needle, c) {
      var q := NearerIsEarlier(order, |blocks|, start, p, c);
    }
    BestOfIsBest(tokens, needle, orig, Windows(|tokens|, |needle|));
  }

  /** The words of the highlighted text without the punctuation before the first and after the last: this is what surrounds them. */
  predicate CoversWords(m: TextModel, text: string, blockText: string, start: nat, end: nat, from: int, upto: int)
    requires start <= end <= |blockText|
  {
    var words := m.words(text);
    if words == [] || !(words[0].start <= |text| && words[|words| - 1].end <= |text|) then from == start && upto == end
    else
      var lead, trail := text[..words[0].start], text[words[|words| - 1].end..];
      && from == (if |lead| <= start && blockText[start - |lead|..start] == lead then start - |lead| else start)
      && upto == (if end + |trail| <= |blockText| && blockText[end..end + |trail|] == trail then end + |trail| else end)
  }

  /** The place of tokens i to i + n - 1 of a block: of a stroke just these; of a highlight with the punctuation it had, where the new text has it too. */
  ghost predicate IsPlaceOf(m: TextModel, a: Anchor, blocks: seq<string>, r: Place, b: nat, i: nat, n: nat) {
    var tokens := TokensAt(m, blocks, b);
    && n > 0 && i + n <= |tokens| && b < |blocks| && r.At? && r.blockIndex == b
    && tokens[i].start <= tokens[i + n - 1].end <= |blocks[b]|
    && if a.InkWord? then r.start == tokens[i].start && r.end == tokens[i + n - 1].end
       else CoversWords(m, a.text, blocks[b], tokens[i].start, tokens[i + n - 1].end, r.start, r.end)
  }

  lemma PlacedIsPlace(m: TextModel, a: Anchor, blocks: seq<string>, b: nat, i: nat, n: nat)
    requires Lawful(m) && b < |blocks| && n > 0 && i + n <= |TokensAt(m, blocks, b)|
    ensures IsPlaceOf(m, a, blocks, Placed(m, a, blocks, b, i, n), b, i, n)
  {
    assert IsTokenisation(blocks[b], m.words(blocks[b]));
    TokensAreOrdered(m, blocks[b], m.words(blocks[b]));
    var tokens := NormTokens(m, blocks[b]);
    assert tokens[i].start < tokens[i].end <= tokens[i + n - 1].end;
    if a.Highlighted? { SurroundingsCover(m, a.text, blocks[b], tokens[i].start, tokens[i + n - 1].end); }
  }

  lemma SurroundingsCover(m: TextModel, text: string, blockText: string, start: nat, end: nat)
    requires Lawful(m) && start < end <= |blockText|
    ensures var r := WithSurroundings(m, text, blockText, start, end); CoversWords(m, text, blockText, start, end, r.0, r.1)
  {
    var words := m.words(text);
    assert IsTokenisation(text, words);
    if words != [] {
      var lead, trail := text[..words[0].start], text[words[|words| - 1].end..];
      SliceIs(text, 0, words[0].start);
      SliceIs(text, words[|words| - 1].end, |text|);
      assert text[0..words[0].start] == lead && text[words[|words| - 1].end..|text|] == trail;
      LeadIs(lead, blockText, start);
      TrailIs(trail, blockText, end);
    }
  }

  lemma SliceIs(s: string, a: nat, b: nat)
    requires a <= b <= |s|
    ensures JsSlice(s, a, b) == s[a..b]
  {
  }

  lemma LeadIs(lead: string, blockText: string, start: nat)
    requires start <= |blockText|
    ensures lead != "" ==> (JsSlice(blockText, start - |lead|, start) == lead <==> |lead| <= start && blockText[start - |lead|..start] == lead)
  {
    if lead != "" && JsSlice(blockText, start - |lead|, start) == lead { SliceBefore(blockText, start, lead); }
  }

  lemma TrailIs(trail: string, blockText: string, end: nat)
    requires end <= |blockText|
    ensures trail != "" ==> (JsSlice(blockText, end, end + |trail|) == trail <==> end + |trail| <= |blockText| && blockText[end..end + |trail|] == trail)
  {
  }

  /** A place that is an exact hit and the nearest one. */
  ghost predicate IsExactPlace(m: TextModel, a: Anchor, blocks: seq<string>, r: Place, b: nat, i: nat) {
    && blocks != [] && Needle(m, a) != []
    && IsNearestExact(m, blocks, Needle(m, a), OrigStart(a), ClampTo(a.blockIndex, |blocks|), b, i)
    && IsPlaceOf(m, a, blocks, r, b, i, |Needle(m, a)|)
  }

  /** A place that is similar enough, the best of its block, and in the nearest block that has one. */
  ghost predicate IsSimilarPlace(m: TextModel, a: Anchor, blocks: seq<string>, r: Place, b: nat, w: Window) {
    && blocks != [] && Needle(m, a) != []
    && IsNearestSimilar(m, blocks, Needle(m, a), OrigStart(a), ClampTo(a.blockIndex, |blocks|), b, w)
    && IsPlaceOf(m, a, blocks, r, b, w.at, w.size)
  }

  /**
   * What a search returns: the nearest exact hit if any block has one; otherwise the nearest similar window if any block has one;
   * otherwise nothing.
   */
  lemma SearchIsOptimal(m: TextModel, a: Anchor, blocks: seq<string>)
    requires Lawful(m) && blocks != [] && Needle(m, a) != []
    ensures var r, n, needle := Searched(m, a, blocks), |blocks|, Needle(m, a);
      var exact, similar := exists c: nat :: c < n && HasExact(m, blocks, needle, c), exists c: nat :: c < n && HasSimilar(m, blocks, needle, c);
      && (exact ==> exists b: nat, i: nat :: IsExactPlace(m, a, blocks, r, b, i))
      && (!exact && similar ==> exists b: nat, w: Window :: IsSimilarPlace(m, a, blocks, r, b, w))
      && (!exact && !similar ==> r == Orphan)
  {
    var needle, orig, start := Needle(m, a), OrigStart(a), ClampTo(a.blockIndex, |blocks|);
    BlockOrderIsByDistance(|blocks|, a.blockIndex);
    var order := BlockOrder(|blocks|, a.blockIndex);
    var exact := ExactSearch(m, blocks, order, needle, orig);
    if exact.Some? {
      ExactIsNearest(m, blocks, order, needle, orig, start);
      PlacedIsPlace(m, a, blocks, exact.value.0, exact.value.1, |needle|);
      assert IsExactPlace(m, a, blocks, Searched(m, a, blocks), exact.value.0, exact.value.1);
      assert HasExact(m, blocks, needle, exact.value.0);
    } else {
      NoneInOrder(m, blocks, order, needle, orig, start);
      var fuzzy := FuzzySearch(m, blocks, order, needle, orig);
      if fuzzy.Some? {
        SimilarIsNearest(m, blocks, order, needle, orig, start);
        PlacedIsPlace(m, a, blocks, fuzzy.value.0, fuzzy.value.1.at, fuzzy.value.1.size);
        assert IsSimilarPlace(m, a, blocks, Searched(m, a, blocks), fuzzy.value.0, fuzzy.value.1);
        NoBestNoSimilar(m, blocks, needle, orig, fuzzy.value.0);
      }
    }
  }

  /** A search through every block that finds nothing proves that there is nothing. */
  lemma NoneInOrder(m: TextModel, blocks: seq<string>, order: seq<nat>, needle: seq<string>, orig: int, start: nat)
    requires IsBlockOrder(order, |blocks|, start)
    ensures ExactSearch(m, blocks, order, needle, orig).None? <==> forall c: nat :: c < |blocks| ==> !HasExact(m, blocks, needle, c)
    ensures FuzzySearch(m, blocks, order, needle, orig).None? <==> forall c: nat :: c < |blocks| ==> !HasSimilar(m, blocks, needle, c)
  {
    NoExactInOrder(m, blocks, order, needle, orig, start);
    NoSimilarInOrder(m, blocks, order, needle, orig, start);
  }

  lemma NoExactInOrder(m: TextModel, blocks: seq<string>, order: seq<nat>, needle: seq<string>, orig: int, start: nat)
    requires IsBlockOrder(order, |blocks|, start)
    ensures ExactSearch(m, blocks, order, needle, orig).None? <==> forall c: nat :: c < |blocks| ==> !HasExact(m, blocks, needle, c)
  {
    var p := ExactSearchFinds(m, blocks, order, needle, orig);
    if p == |order| {
      forall c: nat | c < |blocks| ensures !HasExact(m, blocks, needle, c) { var k := PlaceInOrder(order, |blocks|, start, c); }
    } else {
      assert order[p] in order && HasExact(m, blocks, needle, order[p]);
    }
  }

  lemma NoSimilarInOrder(m: TextModel, blocks: seq<string>, order: seq<nat>, needle: seq<string>, orig: int, start: nat)
    requires IsBlockOrder(order, |blocks|, start)
    ensures FuzzySearch(m, blocks, order, needle, orig).None? <==> forall c: nat :: c < |blocks| ==> !HasSimilar(m, blocks, needle, c)
  {
    var p := FuzzySearchFinds(m, blocks, order, needle, orig);
    if p == |order| {
      forall c: nat | c < |blocks| ensures !HasSimilar(m, blocks, needle, c) { var k := PlaceInOrder(order, |blocks|, start, c); }
    } else {
      NoBestNoSimilar(m, blocks, needle, orig, order[p]);
      assert order[p] in order && HasSimilar(m, blocks, needle, order[p]);
    }
  }

  /** An anchor becomes an orphan exactly when nothing is left to find. */
  lemma OrphanIffNothingFound(m: TextModel, a: Anchor, blocks: seq<string>)
    ensures Reanchored(m, a, blocks) == Orphan <==>
      blocks == [] || (!StillThere(m, a, blocks)
        && (Needle(m, a) == [] || forall c: nat :: c < |blocks| ==> !HasExact(m, blocks, Needle(m, a), c) && !HasSimilar(m, blocks, Needle(m, a), c)))
  {
    if blocks != [] && Needle(m, a) != [] {
      BlockOrderIsByDistance(|blocks|, a.blockIndex);
      NoneInOrder(m, blocks, BlockOrder(|blocks|, a.blockIndex), Needle(m, a), OrigStart(a), ClampTo(a.blockIndex, |blocks|));
    }
  }

  /** A negative slice start never finds the text it looks for, so the surroundings stay inside the block. */
  lemma SliceBefore(s: string, start: nat, lead: string)
    requires start <= |s| && lead != "" && JsSlice(s, start - |lead|, start) == lead
    ensures start >= |lead| && s[start - |lead|..start] == lead
  {
  }

  lemma SurroundingsInside(m: TextModel, text: string, blockText: string, start: nat, end: nat)
    requires Lawful(m) && start < end <= |blockText|
    ensures var r := WithSurroundings(m, text, blockText, start, end);
      0 <= r.0 <= start && end <= r.1 <= |blockText|
  {
    var words := m.words(text);
    assert IsTokenisation(text, words);
    if words != [] {
      var lead := JsSlice(text, 0, words[0].start);
      if lead != "" && JsSlice(blockText, start - |lead|, start) == lead { SliceBefore(blockText, start, lead); }
    }
  }

  /** What is found by searching is a non-empty range of a block of the page. */
  lemma FoundIsRange(m: TextModel, a: Anchor, blocks: seq<string>)
    requires Lawful(m) && blocks != [] && !StillThere(m, a, blocks) && Reanchored(m, a, blocks).At?
    ensures var r := Reanchored(m, a, blocks); InBlocks(blocks, r.blockIndex) && 0 <= r.start < r.end <= |blocks[r.blockIndex]|
  {
    BlockOrderIsByDistance(|blocks|, a.blockIndex);
    var order := BlockOrder(|blocks|, a.blockIndex);
    var exact := ExactSearch(m, blocks, order, Needle(m, a), OrigStart(a));
    if exact.Some? {
      PlacedIsRange(m, a, blocks, exact.value.0, exact.value.1, |Needle(m, a)|);
    } else {
      var fuzzy := FuzzySearch(m, blocks, order, Needle(m, a), OrigStart(a)).value;
      PlacedIsRange(m, a, blocks, fuzzy.0, fuzzy.1.at, fuzzy.1.size);
    }
  }

  lemma PlacedIsRange(m: TextModel, a: Anchor, blocks: seq<string>, b: nat, i: nat, n: nat)
    requires Lawful(m) && b < |blocks| && n > 0 && i + n <= |TokensAt(m, blocks, b)|
    ensures var r := Placed(m, a, blocks, b, i, n); r.At? && r.blockIndex == b && 0 <= r.start < r.end <= |blocks[b]|
    ensures a.InkWord? ==> Placed(m, a, blocks, b, i, n).start == TokensAt(m, blocks, b)[i].start
  {
    assert IsTokenisation(blocks[b], m.words(blocks[b]));
    TokensAreOrdered(m, blocks[b], m.words(blocks[b]));
    var tokens := NormTokens(m, blocks[b]);
    assert tokens[i].start < tokens[i].end <= tokens[i + n - 1].end;
    if a.Highlighted? { SurroundingsInside(m, a.text, blocks[b], tokens[i].start, tokens[i + n - 1].end); }
  }

  // ---------- what re-anchoring does ----------

  /** The first token that starts there begins a run of tokens with the needle's normal forms. */
  ghost predicate StartsNeedle(tokens: seq<NormToken>, needle: seq<string>, start: int) {
    exists i: nat :: i < |tokens| && tokens[i].start == start && (forall k :: 0 <= k < i ==> tokens[k].start != start)
      && i + |needle| <= |tokens| && forall k :: 0 <= k < |needle| ==> tokens[i + k].norm == needle[k]
  }

  /** The block has the content it had, and the text is at the offset where it was. */
  ghost predicate IsInPlace(m: TextModel, a: Anchor, blocks: seq<string>) {
    && 0 <= a.blockIndex < |blocks| && m.hash(blocks[a.blockIndex]) == a.hash
    && match a
       case Highlighted(b, start, end, _, text) => JsSlice(blocks[b], start, end) == text
       case InkWord(b, offset, _, _) => Needle(m, a) == [] || StartsNeedle(TokensAt(m, blocks, b), Needle(m, a), offset)
  }

  lemma StillThereIff(m: TextModel, a: Anchor, blocks: seq<string>)
    ensures StillThere(m, a, blocks) <==> IsInPlace(m, a, blocks)
  {
    if a.InkWord? && InBlocks(blocks, a.blockIndex) { MatchesIff(TokensAt(m, blocks, a.blockIndex), Needle(m, a), a.charOffset); }
  }

  lemma MatchesIff(tokens: seq<NormToken>, needle: seq<string>, start: int)
    ensures MatchesAt(tokens, needle, start) <==> StartsNeedle(tokens, needle, start)
  {
    var i := FindStart(tokens, start);
    if i >= 0 && MatchAt(tokens, needle, i) { assert tokens[i].start == start; }
  }

  /** What a search comes to, in any case. */
  ghost predicate IsFound(m: TextModel, a: Anchor, blocks: seq<string>, r: Place) {
    var n, needle := |blocks|, Needle(m, a);
    var exact, similar := exists c: nat :: c < n && HasExact(m, blocks, needle, c), exists c: nat :: c < n && HasSimilar(m, blocks, needle, c);
    && (exact ==> exists b: nat, i: nat :: IsExactPlace(m, a, blocks, r, b, i))
    && (!exact && similar ==> exists b: nat, w: Window :: IsSimilarPlace(m, a, blocks, r, b, w))
    && (!exact && !similar ==> r == Orphan)
  }

  /** What re-anchoring comes to: on an empty page nothing; in place, the same offsets; otherwise what the search finds. */
  ghost predicate IsReanchored(m: TextModel, a: Anchor, blocks: seq<string>, r: Place) {
    if blocks == [] then r == Orphan
    else if IsInPlace(m, a, blocks) then
      match a
      case Highlighted(b, start, end, _, _) => r == At(b, start, end)
      case InkWord(b, offset, _, context) => r == At(b, offset, if offset + |context| < |blocks[b]| then offset + |context| else |blocks[b]|)
    else if Needle(m, a) == [] then r == Orphan
    else IsFound(m, a, blocks, r)
  }

  lemma ReanchoredIs(m: TextModel, a: Anchor, blocks: seq<string>)
    requires Lawful(m)
    ensures IsReanchored(m, a, blocks, Reanchored(m, a, blocks))
  {
    StillThereIff(m, a, blocks);
    if blocks != [] && Needle(m, a) != [] { SearchIsOptimal(m, a, blocks); }
  }

  // ---------- the search as it runs ----------

  method FindExact(m: TextModel, blocks: seq<string>, order: seq<nat>, needle: seq<string>, orig: int) returns (r: Option<(nat, nat)>)
    ensures r == ExactSearch(m, blocks, order, needle, orig)
  {
    for k := 0 to |order|
      invariant ExactSearch(m, blocks, order, needle, orig) == ExactSearch(m, blocks, order[k..], needle, orig)
    {
      assert order[k..][1..] == order[k + 1..];
      var tokens := NormTokensLoop(m, TextAt(blocks, order[k]));
      var matches := ExactMatchesLoop(tokens, needle);
      if matches != [] {
        var best := NearestLoop(tokens, orig, matches);
        return Some((order[k], best));
      }
    }
    r := None;
  }

  method FindSimilar(m: TextModel, blocks: seq<string>, order: seq<nat>, needle: seq<string>, orig: int) returns (r: Option<(nat, Window)>)
    ensures r == FuzzySearch(m, blocks, order, needle, orig)
  {
    for k := 0 to |order|
      invariant FuzzySearch(m, blocks, order, needle, orig) == FuzzySearch(m, blocks, order[k..], needle, orig)
    {
      assert order[k..][1..] == order[k + 1..];
      var tokens := NormTokensLoop(m, TextAt(blocks, order[k]));
      var best := BestFuzzyLoop(tokens, needle, orig);
      if best.Some? { return Some((order[k], best.value)); }
    }
    r := None;
  }

  method ReanchorText(m: TextModel, a: Anchor, blocks: seq<string>) returns (r: Place)
    ensures r == Reanchored(m, a, blocks)
    ensures Lawful(m) ==> IsReanchored(m, a, blocks, r)
  {
    if Lawful(m) { ReanchoredIs(m, a, blocks); }
    if blocks == [] { return Orphan; }
    var tokens := NormTokensLoop(m, NeedleText(a));
    var needle := Norms(tokens);
    if StillThere(m, a, blocks) { return Unchanged(a, blocks[a.blockIndex]); }
    if needle == [] { return Orphan; }
    BlockOrderIsByDistance(|blocks|, a.blockIndex);
    var order := BlockOrderLoop(|blocks|, a.blockIndex);
    var exact := FindExact(m, blocks, order, needle, OrigStart(a));
    if exact.Some? { return Placed(m, a, blocks, exact.value.0, exact.value.1, |needle|); }
    var fuzzy := FindSimilar(m, blocks, order, needle, OrigStart(a));
    if fuzzy.Some? { return Placed(m, a, blocks, fuzzy.value.0, fuzzy.value.1.at, fuzzy.value.1.size); }
    r := Orphan;
  }
}
