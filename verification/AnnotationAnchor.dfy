module AnnotationAnchor {
  // Re-anchoring of stored annotations, and why doing it again changes nothing.

  import opened Spans
  import opened Options
  import opened TextSearch
  import opened Reanchor

  datatype EndAnchor = EndAnchor(blockIndex: int, charOffset: int)

  /** A highlight, a stroke anchored to text, or anything that is not anchored to text. */
  datatype Annotation =
    | Highlight(id: string, range: Anchor)
    | Stroke(id: string, word: Anchor, endAnchor: Option<EndAnchor>)
    | Free(id: string)

  predicate WellTyped(x: Annotation) {
    (x.Highlight? ==> x.range.Highlighted?) && (x.Stroke? ==> x.word.InkWord?)
  }

  /** The first word that ends after the offset. */
  function FirstAfter(words: seq<Span>, offset: int): (r: nat)
    ensures r <= |words|
    ensures r < |words| ==> words[r].end > offset
    ensures forall k :: 0 <= k < r ==> words[k].end <= offset
  {
    if words == [] || words[0].end > offset then 0
    else
      var r := FirstAfter(words[1..], offset);
      assert forall k :: 0 < k < |words| ==> words[k] == words[1..][k - 1];
      r + 1
  }

  /** The last word of the context: at most six words and 120 characters. */
  function ContextEnd(words: seq<Span>, start: nat, first: nat, i: nat, last: nat): (r: nat)
    requires first <= last < i && last < |words|
    ensures last <= r < |words|
    decreases |words| - i
  {
    if i >= |words| || i >= first + CONTEXT_WORDS || words[i].end - start > CONTEXT_MAX_CHARS then last
    else ContextEnd(words, start, first, i + 1, i)
  }

  /** The anchor word and the next few words. */
  function BuildContext(m: TextModel, text: string, offset: int): string {
    var words := m.words(text);
    var first := FirstAfter(words, offset);
    if first == |words| then JsSlice(text, offset, offset + 40)
    else
      var from := if offset < 0 then 0 else offset;
      var start := if words[first].start < from then words[first].start else from;
      var last := ContextEnd(words, start, first, first + 1, first);
      JsSlice(text, start, words[last].end)
  }

  method BuildContextLoop(m: TextModel, text: string, offset: int) returns (context: string)
    ensures context == BuildContext(m, text, offset)
  {
    var words := m.words(text);
    var first := FirstAfter(words, offset);
    if first == |words| { return JsSlice(text, offset, offset + 40); }
    var from := if offset < 0 then 0 else offset;
    var start := if words[first].start < from then words[first].start else from;
    var last := first;
    var i := first + 1;
    while i < |words| && i < first + CONTEXT_WORDS && words[i].end - start <= CONTEXT_MAX_CHARS
      invariant first <= last < i && last < |words|
      invariant ContextEnd(words, start, first, first + 1, first) == ContextEnd(words, start, first, i, last)
    {
      last := i;
      i := i + 1;
    }
    context := JsSlice(text, start, words[last].end);
  }

  function BlockAt(blocks: seq<string>, i: int): Option<string> { if 0 <= i < |blocks| then Some(blocks[i]) else None }

  /** The end anchor of a stroke, moved by what the old page says it was. */
  function EndMoved(m: TextModel, end: Option<EndAnchor>, oldPage: Option<seq<string>>, newPage: seq<string>): Option<EndAnchor> {
    match end
    case None => None
    case Some(e) =>
      var oldBlock := if oldPage.Some? then BlockAt(oldPage.value, e.blockIndex) else None;
      match oldBlock
      case Some(text) =>
        (match Reanchored(m, InkWord(e.blockIndex, e.charOffset, m.hash(text), BuildContext(m, text, e.charOffset)), newPage)
         case Orphan => None
         case At(b, start, _) => Some(EndAnchor(b, start)))
      case None =>
        match BlockAt(newPage, e.blockIndex)
        case None => None
        case Some(text) => if exists k :: 0 <= k < |m.words(text)| && m.words(text)[k].start == e.charOffset then end else None
  }

  /** The annotation on the new page, or nothing when its text is gone. */
  function Moved(m: TextModel, x: Annotation, oldPage: Option<seq<string>>, newPage: seq<string>): Option<Annotation>
    requires WellTyped(x)
  {
    match x
    case Free(_) => Some(x)
    case Highlight(id, a) =>
      (match Reanchored(m, a, newPage)
       case Orphan => None
       case At(b, start, end) =>
         var text := if 0 <= b < |newPage| then newPage[b] else "";
         Some(Highlight(id, Highlighted(b, start, end, m.hash(text), JsSlice(text, start, end)))))
    case Stroke(id, a, endAnchor) =>
      match Reanchored(m, a, newPage)
      case Orphan => None
      case At(b, start, _) =>
        var text := if 0 <= b < |newPage| then newPage[b] else "";
        if b == a.blockIndex && start == a.charOffset && m.hash(text) == a.hash then Some(x)
        else Some(Stroke(id, InkWord(b, start, m.hash(text), BuildContext(m, text, start)), EndMoved(m, endAnchor, oldPage, newPage)))
  }

  /** The context at word i: the text from it to the last of at most five more words that end within 120 characters, no word fewer. */
  ghost predicate IsContextAt(m: TextModel, text: string, i: nat, context: string)
    requires i < |m.words(text)|
  {
    exists j: nat :: i <= j < |m.words(text)| && IsContextTo(m, text, i, j, context)
  }

  predicate IsContextTo(m: TextModel, text: string, i: nat, j: nat, context: string)
    requires i <= j < |m.words(text)|
  {
    var w := m.words(text);
    && w[i].start <= w[j].end <= |text| && context == text[w[i].start..w[j].end]
    && j - i < 6 && (j > i ==> w[j].end - w[i].start <= 120)
    && (j + 1 < |w| ==> j + 1 - i == 6 || w[j + 1].end - w[i].start > 120)
  }

  lemma {:induction false} ContextEndIsLast(words: seq<Span>, start: nat, first: nat, i: nat, last: nat)
    requires first <= last < i && last < |words| && i == last + 1 && last < first + CONTEXT_WORDS
    requires last > first ==> words[last].end - start <= CONTEXT_MAX_CHARS
    ensures var j := ContextEnd(words, start, first, i, last);
      && j < first + CONTEXT_WORDS && (j > first ==> words[j].end - start <= CONTEXT_MAX_CHARS)
      && (j + 1 < |words| ==> j + 1 == first + CONTEXT_WORDS || words[j + 1].end - start > CONTEXT_MAX_CHARS)
    decreases |words| - i
  {
    if i < |words| && i < first + CONTEXT_WORDS && words[i].end - start <= CONTEXT_MAX_CHARS { ContextEndIsLast(words, start, first, i + 1, i); }
  }

  /** Built at a word, the context is that. */
  lemma ContextIsLongest(m: TextModel, text: string, i: nat)
    requires IsTokenisation(text, m.words(text)) && i < |m.words(text)|
    ensures IsContextAt(m, text, i, BuildContext(m, text, m.words(text)[i].start))
  {
    var w := m.words(text);
    FirstAfterIs(w, w[i].start, i);
    var j := ContextEnd(w, w[i].start, i, i + 1, i);
    ContextEndIsLast(w, w[i].start, i, i + 1, i);
    SpansInOrder(text, w, i, j);
    assert IsContextTo(m, text, i, j, BuildContext(m, text, w[i].start));
  }

  lemma PlaceIsInPage(m: TextModel, a: Anchor, blocks: seq<string>)
    requires Lawful(m) && Reanchored(m, a, blocks).At?
    ensures InBlocks(blocks, Reanchored(m, a, blocks).blockIndex)
  {
    if !StillThere(m, a, blocks) { FoundIsRange(m, a, blocks); }
  }

  /** A re-anchored highlight stays where it is. */
  lemma HighlightIsIdempotent(m: TextModel, x: Annotation, oldPage: Option<seq<string>>, oldPage2: Option<seq<string>>, newPage: seq<string>)
    requires Lawful(m) && WellTyped(x) && x.Highlight? && Moved(m, x, oldPage, newPage).Some?
    ensures var y := Moved(m, x, oldPage, newPage).value; WellTyped(y) && Moved(m, y, oldPage2, newPage) == Some(y)
  {
    PlaceIsInPage(m, x.range, newPage);
    var y := Moved(m, x, oldPage, newPage).value;
    assert StillThere(m, y.range, newPage);
  }

  // ---------- strokes ----------

  function Minus(a: nat, b: nat): nat { if a < b then 0 else a - b }

  function Shifted(spans: seq<Span>, from: nat): (r: seq<Span>)
    ensures |r| == |spans| && forall i :: 0 <= i < |r| ==> r[i] == Span(Minus(spans[i].start, from), Minus(spans[i].end, from))
  {
    seq(|spans|, i requires 0 <= i < |spans| => Span(Minus(spans[i].start, from), Minus(spans[i].end, from)))
  }

  /** A text cut at the start of word i and the end of word j has just those words. */
  ghost predicate CutsAtWords(m: TextModel, t: string, i: nat, j: nat)
    requires IsTokenisation(t, m.words(t)) && i <= j < |m.words(t)|
  {
    var w := m.words(t);
    && w[i].start <= w[j].end
    && m.words(t[w[i].start..w[j].end]) == Shifted(w[i..j + 1], w[i].start)
  }

  ghost predicate Sliceable(m: TextModel) {
    Lawful(m) && forall t: string, i: nat, j: nat :: IsTokenisation(t, m.words(t)) && i <= j < |m.words(t)| ==> CutsAtWords(m, t, i, j)
  }

  lemma {:induction false} SpansInOrder(text: string, spans: seq<Span>, i: nat, j: nat)
    requires IsTokenisation(text, spans) && i <= j < |spans|
    ensures spans[i].start <= spans[j].start && spans[i].end <= spans[j].end
  {
  }

  predicate InCut(s: Span, from: nat, to: nat) { from <= s.start < s.end <= to }

  /** The words of a cut have the pieces of the words cut out. */
  lemma {:induction false} ShiftedNorms(m: TextModel, text: string, spans: seq<Span>, from: nat, to: nat)
    requires from <= to <= |text|
    requires forall i :: 0 <= i < |spans| ==> InCut(spans[i], from, to)
    ensures Norms(TokensOf(m, text[from..to], Shifted(spans, from))) == Norms(TokensOf(m, text, spans))
  {
    if spans != [] {
      var n := |spans| - 1;
      ShiftedNorms(m, text, spans[..n], from, to);
      assert InCut(spans[n], from, to);
      assert Shifted(spans, from)[..n] == Shifted(spans[..n], from);
      ShiftedCut(text, spans[n], from, to);
      NormsStep(m, text, spans);
      NormsStep(m, text[from..to], Shifted(spans, from));
    }
  }

  lemma ShiftedCut(text: string, s: Span, from: nat, to: nat)
    requires from <= s.start < s.end <= to <= |text|
    ensures Cut(text[from..to], Span(s.start - from, s.end - from)) == Cut(text, s)
  {
    SliceOfSlice(text, from, to, s.start, s.end);
  }

  lemma SliceOfSlice(text: string, from: nat, to: nat, a: nat, b: nat)
    requires from <= a <= b <= to <= |text|
    ensures text[from..to][a - from..b - from] == text[a..b]
  {
    var part, cut := text[from..to][a - from..b - from], text[a..b];
    forall k | 0 <= k < b - a ensures part[k] == cut[k] { assert part[k] == text[from..to][a - from + k] == text[a + k]; }
  }

  lemma NormsStep(m: TextModel, text: string, spans: seq<Span>)
    requires spans != []
    ensures var n := |spans| - 1;
      Norms(TokensOf(m, text, spans)) == Norms(TokensOf(m, text, spans[..n])) + m.pieces(Cut(text, spans[n]))
  {
    var n := |spans| - 1;
    assert Norms(Pieces(m, text, spans[n])) == m.pieces(Cut(text, spans[n]));
  }

  /** Tokens of the first words are the first tokens. */
  lemma {:induction false} TokensSplit(m: TextModel, text: string, spans: seq<Span>, i: nat)
    requires i <= |spans|
    ensures TokensOf(m, text, spans) == TokensOf(m, text, spans[..i]) + TokensOf(m, text, spans[i..])
  {
    if i < |spans| {
      var n := |spans| - 1;
      var init, last := spans[..n], spans[n];
      TokensSplit(m, text, init, i);
      assert init[..i] == spans[..i] && spans[i..] == init[i..] + [last] && spans == init + [last];
      TokensLast(m, text, init, last);
      TokensLast(m, text, init[i..], last);
      Regrouped(TokensOf(m, text, spans[..i]), TokensOf(m, text, init[i..]), Pieces(m, text, last));
    } else {
      assert spans[..i] == spans && spans[i..] == [];
    }
  }

  lemma TokensLast(m: TextModel, text: string, init: seq<Span>, last: Span)
    ensures TokensOf(m, text, init + [last]) == TokensOf(m, text, init) + Pieces(m, text, last)
  {
    assert (init + [last])[..|init|] == init;
  }

  lemma Regrouped(a: seq<NormToken>, b: seq<NormToken>, c: seq<NormToken>)
    ensures (a + b) + c == a + (b + c)
  {
  }

  lemma FirstAfterIs(words: seq<Span>, offset: int, i: nat)
    requires i < |words| && words[i].end > offset && forall k :: 0 <= k < i ==> words[k].end <= offset
    ensures FirstAfter(words, offset) == i
  {
  }

  /** The context built at a word is the text from that word to a later one. */
  lemma ContextIsCut(m: TextModel, text: string, i: nat) returns (j: nat)
    requires IsTokenisation(text, m.words(text)) && i < |m.words(text)|
    ensures i <= j < |m.words(text)| && m.words(text)[i].start <= m.words(text)[j].end
    ensures BuildContext(m, text, m.words(text)[i].start) == text[m.words(text)[i].start..m.words(text)[j].end]
  {
    var w := m.words(text);
    var offset := w[i].start;
    var first := FirstAfter(w, offset);
    FirstAfterIs(w, offset, i);
    j := ContextEnd(w, offset, first, first + 1, first);
    SpansInOrder(text, w, i, j);
  }

  /** Tokens of words before word i start before it. */
  lemma EarlierStarts(m: TextModel, text: string, spans: seq<Span>, i: nat, k: nat)
    requires IsTokenisation(text, spans) && i < |spans| && k < |TokensOf(m, text, spans[..i])|
    ensures TokensOf(m, text, spans[..i])[k].start < spans[i].start
  {
    TokensAreOrdered(m, text, spans[..i]);
    var t := TokensOf(m, text, spans[..i])[k];
    var q :| 0 <= q < |spans[..i]| && spans[..i][q] == Span(t.start, t.end);
    assert spans[q].end <= spans[i].start;
  }

  /** The needle built from the context at a word with tokens is found at that word. */
  lemma ContextIsFound(m: TextModel, text: string, i: nat)
    requires Sliceable(m) && i < |m.words(text)| && Pieces(m, text, m.words(text)[i]) != []
    ensures var start := m.words(text)[i].start;
      MatchesAt(NormTokens(m, text), Norms(NormTokens(m, BuildContext(m, text, start))), start)
  {
    var w := m.words(text);
    var j := ContextIsCut(m, text, i);
    assert CutsAtWords(m, text, i, j);
    var part := w[i..j + 1];
    forall k | 0 <= k < |part| ensures InCut(part[k], w[i].start, w[j].end) {
      SpansInOrder(text, w, i, i + k);
      SpansInOrder(text, w, i + k, j);
    }
    ShiftedNorms(m, text, part, w[i].start, w[j].end);
    FoundAtWord(m, text, i, j);
  }

  lemma FoundAtWord(m: TextModel, text: string, i: nat, j: nat)
    requires IsTokenisation(text, m.words(text)) && i <= j < |m.words(text)| && Pieces(m, text, m.words(text)[i]) != []
    ensures MatchesAt(NormTokens(m, text), Norms(TokensOf(m, text, m.words(text)[i..j + 1])), m.words(text)[i].start)
  {
    var w := m.words(text);
    var before, mine, after := TokensOf(m, text, w[..i]), TokensOf(m, text, w[i..j + 1]), TokensOf(m, text, w[j + 1..]);
    ThreeParts(m, text, w, i, j);
    FirstOfMine(m, text, w, i, j);
    NoneStartsThere(m, text, w, i);
    FoundBetween(before, mine, after, w[i].start);
  }

  lemma ThreeParts(m: TextModel, text: string, w: seq<Span>, i: nat, j: nat)
    requires i <= j < |w|
    ensures TokensOf(m, text, w) == TokensOf(m, text, w[..i]) + (TokensOf(m, text, w[i..j + 1]) + TokensOf(m, text, w[j + 1..]))
  {
    TokensSplit(m, text, w, i);
    TokensSplit(m, text, w[i..], j + 1 - i);
    assert w[i..][..j + 1 - i] == w[i..j + 1] && w[i..][j + 1 - i..] == w[j + 1..];
  }

  lemma NoneStartsThere(m: TextModel, text: string, w: seq<Span>, i: nat)
    requires IsTokenisation(text, w) && i < |w|
    ensures forall k :: 0 <= k < |TokensOf(m, text, w[..i])| ==> TokensOf(m, text, w[..i])[k].start != w[i].start
  {
    var before := TokensOf(m, text, w[..i]);
    forall k | 0 <= k < |before| ensures before[k].start != w[i].start { EarlierStarts(m, text, w, i, k); }
  }

  lemma FirstOfMine(m: TextModel, text: string, w: seq<Span>, i: nat, j: nat)
    requires i <= j < |w| && Pieces(m, text, w[i]) != []
    ensures var mine := TokensOf(m, text, w[i..j + 1]); mine != [] && mine[0].start == w[i].start
  {
    TokensSplit(m, text, w[i..j + 1], 1);
    assert w[i..j + 1][..1] == [w[i]];
    OneWord(m, text, w[i]);
  }

  lemma FoundBetween(before: seq<NormToken>, mine: seq<NormToken>, after: seq<NormToken>, start: int)
    requires mine != [] && mine[0].start == start && forall k :: 0 <= k < |before| ==> before[k].start != start
    ensures MatchesAt(before + (mine + after), Norms(mine), start)
  {
    var tokens := before + (mine + after);
    assert tokens[|before|] == mine[0];
    assert forall k :: 0 <= k < |before| ==> tokens[k] == before[k];
    assert FindStart(tokens, start) == |before|;
    forall k | 0 <= k < |mine| ensures tokens[|before| + k].norm == Norms(mine)[k] { assert tokens[|before| + k] == mine[k]; }
  }

  lemma OneWord(m: TextModel, text: string, s: Span)
    ensures TokensOf(m, text, [s]) == Pieces(m, text, s)
  {
    assert [s][..0] == [];
    assert TokensOf(m, text, []) == [];
  }

  /** A token stands for a piece of a word. */
  lemma {:induction false} TokenHasWord(m: TextModel, text: string, spans: seq<Span>, k: nat) returns (i: nat)
    requires k < |TokensOf(m, text, spans)|
    ensures i < |spans| && spans[i].start == TokensOf(m, text, spans)[k].start && Pieces(m, text, spans[i]) != []
  {
    var n := |spans| - 1;
    var before := TokensOf(m, text, spans[..n]);
    if k < |before| { i := TokenHasWord(m, text, spans[..n], k); } else { i := n; }
  }

  /** Where a stroke was moved to, its new context is found. */
  lemma StrokeIsFoundAgain(m: TextModel, a: Anchor, blocks: seq<string>)
    requires Sliceable(m) && a.InkWord? && blocks != [] && !StillThere(m, a, blocks) && Reanchored(m, a, blocks).At?
    ensures InBlocks(blocks, Reanchored(m, a, blocks).blockIndex)
    ensures var r := Reanchored(m, a, blocks);
      MatchesAt(NormTokens(m, blocks[r.blockIndex]), Norms(NormTokens(m, BuildContext(m, blocks[r.blockIndex], r.start))), r.start)
  {
    FoundIsRange(m, a, blocks);
    var r := Reanchored(m, a, blocks);
    var k := StrokeStartsAtToken(m, a, blocks);
    var text := blocks[r.blockIndex];
    var i := TokenHasWord(m, text, m.words(text), k);
    ContextIsFound(m, text, i);
  }

  lemma StrokeStartsAtToken(m: TextModel, a: Anchor, blocks: seq<string>) returns (k: nat)
    requires Lawful(m) && a.InkWord? && blocks != [] && !StillThere(m, a, blocks) && Reanchored(m, a, blocks).At?
    ensures InBlocks(blocks, Reanchored(m, a, blocks).blockIndex)
    ensures k < |NormTokens(m, blocks[Reanchored(m, a, blocks).blockIndex])|
    ensures NormTokens(m, blocks[Reanchored(m, a, blocks).blockIndex])[k].start == Reanchored(m, a, blocks).start
  {
    BlockOrderIsByDistance(|blocks|, a.blockIndex);
    var order := BlockOrder(|blocks|, a.blockIndex);
    var exact := ExactSearch(m, blocks, order, Needle(m, a), OrigStart(a));
    if exact.Some? {
      PlacedIsRange(m, a, blocks, exact.value.0, exact.value.1, |Needle(m, a)|);
      k := exact.value.1;
    } else {
      var fuzzy := FuzzySearch(m, blocks, order, Needle(m, a), OrigStart(a)).value;
      PlacedIsRange(m, a, blocks, fuzzy.0, fuzzy.1.at, fuzzy.1.size);
      k := fuzzy.1.at;
    }
  }

  /** A re-anchored stroke stays where it is, its end anchor too. */
  lemma StrokeIsIdempotent(m: TextModel, x: Annotation, oldPage: Option<seq<string>>, oldPage2: Option<seq<string>>, newPage: seq<string>)
    requires Sliceable(m) && WellTyped(x) && x.Stroke? && Moved(m, x, oldPage, newPage).Some?
    ensures var y := Moved(m, x, oldPage, newPage).value; WellTyped(y) && Moved(m, y, oldPage2, newPage) == Some(y)
  {
    PlaceIsInPage(m, x.word, newPage);
    var r := Reanchored(m, x.word, newPage);
    var y := Moved(m, x, oldPage, newPage).value;
    if y != x {
      assert !StillThere(m, x.word, newPage);
      StrokeIsFoundAgain(m, x.word, newPage);
      assert StillThere(m, y.word, newPage);
    }
  }

  // ---------- what an annotation becomes ----------

  /** A highlight as it is made on a page: a range of a block, with its text and the hash of the block. */
  predicate IsHighlightOf(m: TextModel, a: Anchor, blocks: seq<string>) {
    && a.Highlighted? && InBlocks(blocks, a.blockIndex) && a.hash == m.hash(blocks[a.blockIndex])
    && a.text == JsSlice(blocks[a.blockIndex], a.start, a.end)
  }

  /** The anchor of a stroke as it is made on a page: a word that has tokens, its context and the hash of the block. */
  ghost predicate IsStrokeOf(m: TextModel, a: Anchor, blocks: seq<string>) {
    && a.InkWord? && InBlocks(blocks, a.blockIndex) && a.hash == m.hash(blocks[a.blockIndex])
    && var text := blocks[a.blockIndex];
       exists i: nat :: i < |m.words(text)| && m.words(text)[i].start == a.charOffset && Pieces(m, text, m.words(text)[i]) != [] && IsContextAt(m, text, i, a.contextText)
  }

  /** What is anchored in a text. */
  function AnchorOf(x: Annotation): Anchor
    requires !x.Free?
  {
    if x.Highlight? then x.range else x.word
  }

  /** An annotation disappears exactly when its text is not found; otherwise it keeps its id and moves to where the text is. */
  lemma MovedGoes(m: TextModel, x: Annotation, oldPage: Option<seq<string>>, newPage: seq<string>)
    requires Lawful(m) && WellTyped(x)
    ensures x.Free? ==> Moved(m, x, oldPage, newPage) == Some(x)
    ensures !x.Free? ==> (Moved(m, x, oldPage, newPage).None? <==> Reanchored(m, AnchorOf(x), newPage) == Orphan)
    ensures !x.Free? && Moved(m, x, oldPage, newPage).Some? ==>
      var y, r := Moved(m, x, oldPage, newPage).value, Reanchored(m, AnchorOf(x), newPage);
      && y.id == x.id && (x.Highlight? <==> y.Highlight?) && (x.Stroke? <==> y.Stroke?)
      && r.At? && InBlocks(newPage, r.blockIndex) && AnchorOf(y).blockIndex == r.blockIndex && AnchorOf(y).hash == m.hash(newPage[r.blockIndex])
      && (y.Highlight? ==> IsHighlightOf(m, y.range, newPage) && y.range.start == r.start && y.range.end == r.end)
      && (y.Stroke? ==> y.word.charOffset == r.start)
  {
    if !x.Free? && Moved(m, x, oldPage, newPage).Some? { PlaceIsInPage(m, AnchorOf(x), newPage); }
  }

  /** A stroke whose text has moved gets the context of its new word. */
  lemma MovedStrokeIsAnchored(m: TextModel, x: Annotation, oldPage: Option<seq<string>>, newPage: seq<string>)
    requires Lawful(m) && WellTyped(x) && x.Stroke? && !IsInPlace(m, x.word, newPage) && Moved(m, x, oldPage, newPage).Some?
    ensures var y := Moved(m, x, oldPage, newPage).value;
      y == x || (y.Stroke? && IsStrokeOf(m, y.word, newPage))
  {
    StillThereIff(m, x.word, newPage);
    FoundIsRange(m, x.word, newPage);
    var r := Reanchored(m, x.word, newPage);
    var text := newPage[r.blockIndex];
    var k := StrokeStartsAtToken(m, x.word, newPage);
    AnchoredAtToken(m, newPage, r.blockIndex, r.start, k);
  }

  lemma AnchoredAtToken(m: TextModel, page: seq<string>, b: int, start: int, k: nat)
    requires Lawful(m) && InBlocks(page, b) && k < |NormTokens(m, page[b])| && NormTokens(m, page[b])[k].start == start
    ensures IsStrokeOf(m, InkWord(b, start, m.hash(page[b]), BuildContext(m, page[b], start)), page)
  {
    var text := page[b];
    var i := TokenHasWord(m, text, m.words(text), k);
    assert IsTokenisation(text, m.words(text));
    ContextIsLongest(m, text, i);
  }

  /** On the page it was made on, an annotation stays as it is. */
  lemma UnchangedPageKeeps(m: TextModel, x: Annotation, oldPage: Option<seq<string>>, page: seq<string>)
    requires Sliceable(m) && WellTyped(x)
    requires (x.Highlight? ==> IsHighlightOf(m, x.range, page)) && (x.Stroke? ==> IsStrokeOf(m, x.word, page))
    ensures Moved(m, x, oldPage, page) == Some(x)
  {
    if x.Stroke? { StrokeIsThere(m, x.word, page); }
  }

  lemma StrokeIsThere(m: TextModel, a: Anchor, page: seq<string>)
    requires Sliceable(m) && IsStrokeOf(m, a, page)
    ensures StillThere(m, a, page)
  {
    var text := page[a.blockIndex];
    var i: nat :| i < |m.words(text)| && m.words(text)[i].start == a.charOffset && Pieces(m, text, m.words(text)[i]) != [] && IsContextAt(m, text, i, a.contextText);
    ContextIsTheirs(m, text, i, a.contextText);
    ContextIsFound(m, text, i);
  }

  lemma ContextIsTheirs(m: TextModel, text: string, i: nat, context: string)
    requires Sliceable(m) && i < |m.words(text)| && IsContextAt(m, text, i, context)
    ensures context == BuildContext(m, text, m.words(text)[i].start)
  {
    assert IsTokenisation(text, m.words(text));
    ContextIsLongest(m, text, i);
    OneContext(m, text, i, context, BuildContext(m, text, m.words(text)[i].start));
  }

  lemma OneContext(m: TextModel, text: string, i: nat, a: string, b: string)
    requires IsTokenisation(text, m.words(text)) && i < |m.words(text)| && IsContextAt(m, text, i, a) && IsContextAt(m, text, i, b)
    ensures a == b
  {
    var w := m.words(text);
    forall p: nat, q: nat | p <= q < |w| ensures w[p].end <= w[q].end { SpansInOrder(text, w, p, q); }
    var j: nat :| i <= j < |w| && IsContextTo(m, text, i, j, a);
    var k: nat :| i <= k < |w| && IsContextTo(m, text, i, k, b);
  }

  /** The end of a stroke, at a word of the old page: where that word is on the new one, and in its place if the block is unchanged. */
  lemma EndGoesWithItsWord(m: TextModel, e: EndAnchor, oldPage: seq<string>, newPage: seq<string>, i: nat)
    requires Sliceable(m) && InBlocks(oldPage, e.blockIndex)
    requires var text := oldPage[e.blockIndex]; i < |m.words(text)| && m.words(text)[i].start == e.charOffset && Pieces(m, text, m.words(text)[i]) != []
    ensures var text := oldPage[e.blockIndex]; var a := InkWord(e.blockIndex, e.charOffset, m.hash(text), BuildContext(m, text, e.charOffset));
      && IsStrokeOf(m, a, oldPage)
      && EndMoved(m, Some(e), Some(oldPage), newPage) == (match Reanchored(m, a, newPage) case Orphan => None case At(b, start, _) => Some(EndAnchor(b, start)))
      && (InBlocks(newPage, e.blockIndex) && newPage[e.blockIndex] == text ==> EndMoved(m, Some(e), Some(oldPage), newPage) == Some(e))
  {
    var text := oldPage[e.blockIndex];
    assert IsTokenisation(text, m.words(text)) by { assert Lawful(m); }
    ContextIsLongest(m, text, i);
    var a := InkWord(e.blockIndex, e.charOffset, m.hash(text), BuildContext(m, text, e.charOffset));
    assert IsStrokeOf(m, a, oldPage);
    if InBlocks(newPage, e.blockIndex) && newPage[e.blockIndex] == text {
      assert IsStrokeOf(m, a, newPage);
      StrokeIsThere(m, a, newPage);
    }
  }

  /** Re-anchoring an annotation again for the same page changes nothing. */
  lemma ReanchoringIsIdempotent(m: TextModel, x: Annotation, oldPage: Option<seq<string>>, oldPage2: Option<seq<string>>, newPage: seq<string>)
    requires Sliceable(m) && WellTyped(x) && Moved(m, x, oldPage, newPage).Some?
    ensures var y := Moved(m, x, oldPage, newPage).value; WellTyped(y) && Moved(m, y, oldPage2, newPage) == Some(y)
  {
    match x {
      case Highlight(_, _) => HighlightIsIdempotent(m, x, oldPage, oldPage2, newPage);
      case Stroke(_, _, _) => StrokeIsIdempotent(m, x, oldPage, oldPage2, newPage);
      case Free(_) =>
    }
  }
}
