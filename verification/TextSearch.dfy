// Finding a run of words again in changed text: the order in which blocks are searched, exact matches of normalised words and,
// failing that, the best window by Jaccard similarity.
module TextSearch {
  import opened Spans
  import opened Options

  /** A normalised word, or a piece of one, and where the word is in the text. */
  datatype NormToken = NormToken(norm: string, start: nat, end: nat)

  /** What the text tools do: the words of a text, the normalised pieces of a word, the hash of a block. */
  datatype TextModel = TextModel(words: string -> seq<Span>, pieces: string -> seq<string>, hash: string -> string)

  ghost predicate Lawful(m: TextModel) { forall t :: IsTokenisation(t, m.words(t)) }

  /** The text of a span; spans of a tokenisation are inside the text. */
  function Cut(text: string, s: Span): string { if s.start <= s.end <= |text| then text[s.start..s.end] else "" }

  function Pieces(m: TextModel, text: string, s: Span): (r: seq<NormToken>)
    ensures |r| == |m.pieces(Cut(text, s))|
    ensures forall k :: 0 <= k < |r| ==> r[k] == NormToken(m.pieces(Cut(text, s))[k], s.start, s.end)
  {
    var ps := m.pieces(Cut(text, s));
    seq(|ps|, k requires 0 <= k < |ps| => NormToken(ps[k], s.start, s.end))
  }

  function TokensOf(m: TextModel, text: string, spans: seq<Span>): seq<NormToken> {
    if spans == [] then [] else TokensOf(m, text, spans[..|spans| - 1]) + Pieces(m, text, spans[|spans| - 1])
  }

  function NormTokens(m: TextModel, text: string): seq<NormToken> { TokensOf(m, text, m.words(text)) }

  function Norms(tokens: seq<NormToken>): (r: seq<string>)
    ensures |r| == |tokens| && forall k :: 0 <= k < |r| ==> r[k] == tokens[k].norm
  {
    seq(|tokens|, k requires 0 <= k < |tokens| => tokens[k].norm)
  }

  method NormTokensLoop(m: TextModel, text: string) returns (out: seq<NormToken>)
    ensures out == NormTokens(m, text)
  {
    var words := m.words(text);
    out := [];
    for i := 0 to |words|
      invariant out == TokensOf(m, text, words[..i])
    {
      assert words[..i + 1][..i] == words[..i];
      out := out + Pieces(m, text, words[i]);
    }
    assert words[..|words|] == words;
  }

  /** Tokens lie on words: in bounds, not empty, in order. */
  ghost predicate TokensOrdered(text: string, tokens: seq<NormToken>) {
    && (forall i :: 0 <= i < |tokens| ==> tokens[i].start < tokens[i].end <= |text|)
    && (forall i, j :: 0 <= i < j < |tokens| ==> tokens[i].start <= tokens[j].start && tokens[i].end <= tokens[j].end)
  }

  ghost predicate EndBy(tokens: seq<NormToken>, end: nat) { forall i :: 0 <= i < |tokens| ==> tokens[i].end <= end }

  ghost predicate LieOn(tokens: seq<NormToken>, spans: seq<Span>) { forall i :: 0 <= i < |tokens| ==> Span(tokens[i].start, tokens[i].end) in spans }

  lemma PiecesOrdered(m: TextModel, text: string, tokens: seq<NormToken>, end: nat, s: Span)
    requires TokensOrdered(text, tokens) && EndBy(tokens, end) && end <= s.start < s.end <= |text|
    ensures TokensOrdered(text, tokens + Pieces(m, text, s)) && EndBy(tokens + Pieces(m, text, s), s.end)
  {
  }

  lemma PiecesLieOn(m: TextModel, text: string, tokens: seq<NormToken>, spans: seq<Span>, s: Span)
    requires LieOn(tokens, spans)
    ensures LieOn(tokens + Pieces(m, text, s), spans + [s])
  {
    assert (spans + [s])[|spans|] == s;
  }

  lemma {:induction false} TokensAreOrdered(m: TextModel, text: string, spans: seq<Span>)
    requires IsTokenisation(text, spans)
    ensures TokensOrdered(text, TokensOf(m, text, spans)) && LieOn(TokensOf(m, text, spans), spans)
    ensures EndBy(TokensOf(m, text, spans), if spans == [] then 0 else spans[|spans| - 1].end)
  {
    if spans != [] {
      var n := |spans| - 1;
      TokensAreOrdered(m, text, spans[..n]);
      assert n > 0 ==> spans[n - 1].end <= spans[n].start;
      PiecesOrdered(m, text, TokensOf(m, text, spans[..n]), if n == 0 then 0 else spans[n - 1].end, spans[n]);
      PiecesLieOn(m, text, TokensOf(m, text, spans[..n]), spans[..n], spans[n]);
      assert spans == spans[..n] + [spans[n]];
    }
  }

  // ---------- the order of blocks ----------

  function Distance(a: int, b: int): nat { if a < b then b - a else a - b }

  function ClampTo(x: int, count: nat): nat
    requires count > 0
    ensures ClampTo(x, count) < count
  {
    if x < 0 then 0 else if x < count then x else count - 1
  }

  /** Blocks at distance at most d from start, nearest first, the later one of a pair first. */
  function Around(count: nat, start: nat, d: nat): seq<nat>
    requires start < count
  {
    if d == 0 then [start]
    else
      Around(count, start, d - 1) + (if start + d < count then [start + d] else []) + (if d <= start then [start - d] else [])
  }

  function BlockOrder(count: nat, origin: int): seq<nat>
    requires count > 0
  {
    Around(count, ClampTo(origin, count), count)
  }

  /** Block a is searched before block b. */
  predicate Nearer(start: nat, a: nat, b: nat) {
    Distance(a, start) < Distance(b, start) || (Distance(a, start) == Distance(b, start) && a > b)
  }

  /** Every block once, nearest first. */
  ghost predicate IsBlockOrder(order: seq<nat>, count: nat, start: nat) {
    && (forall x: nat :: x in order <==> x < count)
    && (forall i, j :: 0 <= i < j < |order| ==> Nearer(start, order[i], order[j]))
  }

  lemma {:induction false} AroundIsOrdered(count: nat, start: nat, d: nat)
    requires start < count
    ensures forall x: nat :: x in Around(count, start, d) <==> x < count && Distance(x, start) <= d
    ensures forall i, j :: 0 <= i < j < |Around(count, start, d)| ==> Nearer(start, Around(count, start, d)[i], Around(count, start, d)[j])
    ensures |Around(count, start, d)| == 1 + (if d < start then d else start) + (if d < count - 1 - start then d else count - 1 - start)
  {
    if d > 0 {
      AroundIsOrdered(count, start, d - 1);
      var before := Around(count, start, d - 1);
      forall i | 0 <= i < |before| ensures Distance(before[i], start) <= d - 1 { assert before[i] in before; }
    }
  }

  /** blockOrder is the permutation of the blocks by distance. */
  lemma BlockOrderIsByDistance(count: nat, origin: int)
    requires count > 0
    ensures IsBlockOrder(BlockOrder(count, origin), count, ClampTo(origin, count))
  {
    AroundIsOrdered(count, ClampTo(origin, count), count);
  }

  /** Once every block is there, going further adds nothing. */
  lemma {:induction false} AroundIsComplete(count: nat, start: nat, d: nat, more: nat)
    requires start < count && |Around(count, start, d)| == count && d <= more
    ensures Around(count, start, more) == Around(count, start, d)
  {
    AroundIsOrdered(count, start, d);
    if d < more { AroundIsComplete(count, start, d, more - 1); }
  }

  method BlockOrderLoop(count: nat, origin: int) returns (order: seq<nat>)
    requires count > 0
    ensures order == BlockOrder(count, origin)
  {
    var start := ClampTo(origin, count);
    order := [start];
    var d := 1;
    while |order| < count
      invariant d >= 1 && order == Around(count, start, d - 1)
      decreases count - d
    {
      AroundIsOrdered(count, start, d - 1);
      if start + d < count { order := order + [start + d]; }
      if d <= start { order := order + [start - d]; }
      d := d + 1;
    }
    AroundIsOrdered(count, start, d - 1);
    AroundIsComplete(count, start, d - 1, if count < d - 1 then d - 1 else count);
    if count < d - 1 { AroundIsOrdered(count, start, count); AroundIsComplete(count, start, count, d - 1); }
  }

  // ---------- exact matches ----------

  predicate MatchAt(tokens: seq<NormToken>, needle: seq<string>, i: nat) {
    i + |needle| <= |tokens| && forall k :: 0 <= k < |needle| ==> tokens[i + k].norm == needle[k]
  }

  /** Every match below n, in order. */
  function MatchesBelow(tokens: seq<NormToken>, needle: seq<string>, n: nat): (r: seq<nat>)
    ensures forall i: nat :: i in r <==> i < n && MatchAt(tokens, needle, i)
    ensures forall i, j :: 0 <= i < j < |r| ==> r[i] < r[j]
  {
    if n == 0 then []
    else
      var before := MatchesBelow(tokens, needle, n - 1);
      assert forall i :: 0 <= i < |before| ==> before[i] in before;
      if MatchAt(tokens, needle, n - 1) then before + [n - 1] else before
  }

  function ExactMatches(tokens: seq<NormToken>, needle: seq<string>): (r: seq<nat>)
    ensures forall i: nat :: i in r <==> MatchAt(tokens, needle, i)
    ensures forall k, l :: 0 <= k < l < |r| ==> r[k] < r[l]
  {
    MatchesBelow(tokens, needle, |tokens| + 1)
  }

  method ExactMatchesLoop(tokens: seq<NormToken>, needle: seq<string>) returns (found: seq<nat>)
    ensures found == ExactMatches(tokens, needle)
  {
    found := [];
    var i := 0;
    while i + |needle| <= |tokens|
      invariant i <= |tokens| + 1 && found == MatchesBelow(tokens, needle, i)
    {
      var ok := MatchesHere(tokens, needle, i);
      if ok { found := found + [i]; }
      i := i + 1;
    }
    NoMatchBeyond(tokens, needle, i, |tokens| + 1);
  }

  method MatchesHere(tokens: seq<NormToken>, needle: seq<string>, i: nat) returns (ok: bool)
    requires i + |needle| <= |tokens|
    ensures ok <==> MatchAt(tokens, needle, i)
  {
    ok := true;
    for k := 0 to |needle|
      invariant forall q :: 0 <= q < k ==> tokens[i + q].norm == needle[q]
    {
      if tokens[i + k].norm != needle[k] { return false; }
    }
  }

  lemma {:induction false} NoMatchBeyond(tokens: seq<NormToken>, needle: seq<string>, i: nat, n: nat)
    requires i + |needle| > |tokens| && i <= n
    ensures MatchesBelow(tokens, needle, n) == MatchesBelow(tokens, needle, i)
  {
    if i < n { NoMatchBeyond(tokens, needle, i, n - 1); }
  }

  /** How far token i is from where the text was; 0 beyond the tokens. */
  function Off(tokens: seq<NormToken>, orig: int, i: nat): nat {
    if i < |tokens| then Distance(tokens[i].start, orig) else 0
  }

  /** The first of the nearest matches. */
  function Nearest(tokens: seq<NormToken>, orig: int, matches: seq<nat>): (r: nat)
    requires matches != []
    ensures r in matches
    ensures forall k :: 0 <= k < |matches| ==> Off(tokens, orig, r) <= Off(tokens, orig, matches[k])
    ensures exists j :: 0 <= j < |matches| && matches[j] == r && forall k :: 0 <= k < j ==> Off(tokens, orig, r) < Off(tokens, orig, matches[k])
  {
    var n := |matches| - 1;
    if n == 0 then
      assert matches[0] == matches[n];
      matches[0]
    else
      var x := Nearest(tokens, orig, matches[..n]);
      var y := matches[n];
      if Off(tokens, orig, y) < Off(tokens, orig, x) then
        assert forall k :: 0 <= k < n ==> Off(tokens, orig, x) <= Off(tokens, orig, matches[..n][k]);
        y
      else x
  }

  method NearestLoop(tokens: seq<NormToken>, orig: int, matches: seq<nat>) returns (best: nat)
    requires matches != []
    ensures best == Nearest(tokens, orig, matches)
  {
    best := matches[0];
    assert matches[..1] == [matches[0]];
    for i := 1 to |matches|
      invariant best == Nearest(tokens, orig, matches[..i])
    {
      assert matches[..i + 1][..i] == matches[..i];
      if Off(tokens, orig, matches[i]) < Off(tokens, orig, best) { best := matches[i]; }
    }
    assert matches[..|matches|] == matches;
  }

  // ---------- fuzzy matches ----------

  const MIN_JACCARD := 0.8

  function JaccardOf(inter: nat, union: nat): real { if union == 0 then 0.0 else inter as real / union as real }

  function Jaccard(a: set<string>, b: set<string>): real { JaccardOf(|a * b|, |a| + |b| - |a * b|) }

  method JaccardLoop(a: set<string>, b: set<string>) returns (r: real)
    ensures r == Jaccard(a, b)
  {
    var inter := 0;
    var rest := a;
    while rest != {}
      invariant rest <= a && inter == |(a - rest) * b|
      decreases rest
    {
      var x :| x in rest;
      assert (a - (rest - {x})) * b == (a - rest) * b + (if x in b then {x} else {});
      if x in b { inter := inter + 1; }
      rest := rest - {x};
    }
    assert (a - rest) * b == a * b;
    Sizes(a, b);
    r := JaccardOf(inter, |a| + |b| - inter);
  }

  lemma Sizes(a: set<string>, b: set<string>)
    ensures |a * b| <= |a| && |a| + |b| - |a * b| == |a + b|
  {
    assert a == a * b + (a - b);
  }

  datatype Window = Window(at: nat, size: nat)

  function NormSet(tokens: seq<NormToken>, w: Window): set<string> {
    set k | w.at <= k < w.at + w.size && k < |tokens| :: tokens[k].norm
  }

  function NeedleSet(needle: seq<string>): set<string> { set s | s in needle }

  function Score(tokens: seq<NormToken>, needle: seq<string>, w: Window): real { Jaccard(NormSet(tokens, w), NeedleSet(needle)) }

  /** Windows of one size, from the left: the first i of them. */
  function WindowsOf(size: nat, i: nat): (r: seq<Window>)
    ensures |r| == i && forall k :: 0 <= k < i ==> r[k] == Window(k, size)
  {
    seq(i, k requires 0 <= k < i => Window(k, size))
  }

  function SizeFor(len: nat, n: int): nat { if n < 0 then 0 else if n < len then n else len }

  /** Windows for a wanted number of words, clipped to the text. */
  function WindowsFor(len: nat, n: int): seq<Window> {
    if n < 1 then [] else WindowsOf(SizeFor(len, n), len - SizeFor(len, n) + 1)
  }

  /** Every window tried: one word fewer than the needle, as many, one more. */
  function Windows(len: nat, k: nat): seq<Window> { WindowsFor(len, k - 1) + WindowsFor(len, k) + WindowsFor(len, k + 1) }

  /** The window replaces the best one so far: better score, or as good and nearer. */
  predicate Improves(tokens: seq<NormToken>, needle: seq<string>, orig: int, best: Option<Window>, w: Window) {
    var score := Score(tokens, needle, w);
    && score >= MIN_JACCARD
    && (best.None? || score > Score(tokens, needle, best.value)
        || (score == Score(tokens, needle, best.value) && Off(tokens, orig, w.at) < Off(tokens, orig, best.value.at)))
  }

  function BestOf(tokens: seq<NormToken>, needle: seq<string>, orig: int, windows: seq<Window>): Option<Window> {
    if windows == [] then None
    else
      var n := |windows| - 1;
      var best := BestOf(tokens, needle, orig, windows[..n]);
      if Improves(tokens, needle, orig, best, windows[n]) then Some(windows[n]) else best
  }

  function BestFuzzy(tokens: seq<NormToken>, needle: seq<string>, orig: int): Option<Window> {
    BestOf(tokens, needle, orig, Windows(|tokens|, |needle|))
  }

  /** No window beats the result, and without one none is similar enough. */
  ghost predicate IsBest(tokens: seq<NormToken>, needle: seq<string>, orig: int, windows: seq<Window>, best: Option<Window>) {
    && (best.Some? ==> best.value in windows && Score(tokens, needle, best.value) >= 0.8)
    && (forall w :: w in windows && Score(tokens, needle, w) >= 0.8 ==> best.Some? && IsAsGood(tokens, needle, orig, best.value, w))
  }

  /** Window a scores higher than b, or as high and is no farther from the origin. */
  predicate IsAsGood(tokens: seq<NormToken>, needle: seq<string>, orig: int, a: Window, b: Window) {
    var x, y := Score(tokens, needle, a), Score(tokens, needle, b);
    x > y || (x == y && Off(tokens, orig, a.at) <= Off(tokens, orig, b.at))
  }

  lemma {:induction false} BestOfIsBest(tokens: seq<NormToken>, needle: seq<string>, orig: int, windows: seq<Window>)
    ensures IsBest(tokens, needle, orig, windows, BestOf(tokens, needle, orig, windows))
  {
    if windows != [] {
      var n := |windows| - 1;
      BestOfIsBest(tokens, needle, orig, windows[..n]);
      assert windows == windows[..n] + [windows[n]];
      var before := BestOf(tokens, needle, orig, windows[..n]);
      var best := BestOf(tokens, needle, orig, windows);
      forall w | w in windows ensures !Improves(tokens, needle, orig, best, w) {
        if w in windows[..n] { StillNotBetter(tokens, needle, orig, before, windows[n], w); }
      }
    }
  }

  lemma StillNotBetter(tokens: seq<NormToken>, needle: seq<string>, orig: int, before: Option<Window>, v: Window, w: Window)
    requires !Improves(tokens, needle, orig, before, w)
    ensures !Improves(tokens, needle, orig, if Improves(tokens, needle, orig, before, v) then Some(v) else before, w)
  {
  }

  /** Which windows are tried. */
  lemma WindowsAre(len: nat, k: nat, w: Window)
    ensures w in Windows(len, k) <==> exists n: int :: n >= 1 && k - 1 <= n <= k + 1 && w.size == SizeFor(len, n) && w.at + w.size <= len
  {
    forall n: int ensures w in WindowsFor(len, n) <==> n >= 1 && w.size == SizeFor(len, n) && w.at + w.size <= len {
      if n >= 1 && w.size == SizeFor(len, n) && w.at + w.size <= len { assert WindowsFor(len, n)[w.at] == w; }
    }
    var a, b, c := WindowsFor(len, k - 1), WindowsFor(len, k), WindowsFor(len, k + 1);
    assert w in a + b + c <==> w in a || w in b || w in c;
    if n: int :| n >= 1 && k - 1 <= n <= k + 1 && w.size == SizeFor(len, n) && w.at + w.size <= len {
      assert n == k - 1 || n == k || n == k + 1;
    }
  }

  /** A similar enough window has words in it. */
  lemma SimilarIsNotEmpty(tokens: seq<NormToken>, needle: seq<string>, w: Window)
    requires Score(tokens, needle, w) >= MIN_JACCARD
    ensures w.size > 0 && w.at < |tokens|
  {
    if w.size == 0 || w.at >= |tokens| { EmptyScoresNothing(tokens, needle, w); }
  }

  lemma EmptyScoresNothing(tokens: seq<NormToken>, needle: seq<string>, w: Window)
    requires w.size == 0 || w.at >= |tokens|
    ensures Score(tokens, needle, w) == 0.0
  {
    assert NormSet(tokens, w) == {};
    assert NormSet(tokens, w) * NeedleSet(needle) == {};
  }

  method BestFuzzyLoop(tokens: seq<NormToken>, needle: seq<string>, orig: int) returns (best: Option<Window>)
    ensures best == BestFuzzy(tokens, needle, orig)
  {
    var k := |needle|;
    var a, b, c := WindowsFor(|tokens|, k - 1), WindowsFor(|tokens|, k), WindowsFor(|tokens|, k + 1);
    best := None;
    best := TryWindows(tokens, needle, orig, k - 1, best, []);
    assert [] + a == a;
    best := TryWindows(tokens, needle, orig, k, best, a);
    best := TryWindows(tokens, needle, orig, k + 1, best, a + b);
  }

  lemma WindowStep(tokens: seq<NormToken>, needle: seq<string>, orig: int, done: seq<Window>, size: nat, i: nat)
    ensures var best := BestOf(tokens, needle, orig, done + WindowsOf(size, i));
      BestOf(tokens, needle, orig, done + WindowsOf(size, i + 1)) == if Improves(tokens, needle, orig, best, Window(i, size)) then Some(Window(i, size)) else best
  {
    assert (done + WindowsOf(size, i + 1))[..|done| + i] == done + WindowsOf(size, i);
  }

  method TryWindows(tokens: seq<NormToken>, needle: seq<string>, orig: int, n: int, before: Option<Window>, ghost done: seq<Window>) returns (best: Option<Window>)
    requires before == BestOf(tokens, needle, orig, done)
    ensures best == BestOf(tokens, needle, orig, done + WindowsFor(|tokens|, n))
  {
    best := before;
    if n < 1 {
      assert done + WindowsFor(|tokens|, n) == done;
      return;
    }
    var size := SizeFor(|tokens|, n);
    assert done + WindowsOf(size, 0) == done;
    for i := 0 to |tokens| - size + 1
      invariant best == BestOf(tokens, needle, orig, done + WindowsOf(size, i))
    {
      var w := Window(i, size);
      WindowStep(tokens, needle, orig, done, size, i);
      if Improves(tokens, needle, orig, best, w) { best := Some(w); }
    }
  }
}
