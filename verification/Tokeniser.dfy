// A small tokeniser that meets what re-anchoring expects of the text tools: words are the maximal runs of letters and digits,
// a word is normalised to lower case.
module Tokeniser {
  import opened Spans
  import opened Options
  import opened TextSearch
  import opened AnnotationAnchor

  predicate IsLetter(c: char) { 'a' <= c <= 'z' || 'A' <= c <= 'Z' || '0' <= c <= '9' }

  function Lower(s: string): (r: string)
    ensures |r| == |s|
  {
    seq(|s|, i requires 0 <= i < |s| => if 'A' <= s[i] <= 'Z' then s[i] - 'A' + 'a' else s[i])
  }

  /** Where the run of letters at p ends, within q. */
  function RunEnd(t: string, p: nat, q: nat): (e: nat)
    requires p <= q <= |t|
    ensures p <= e <= q && (e < q ==> !IsLetter(t[e])) && forall i :: p <= i < e ==> IsLetter(t[i])
    decreases q - p
  {
    if p < q && IsLetter(t[p]) then RunEnd(t, p + 1, q) else p
  }

  /** The words between p and q. */
  function WordsFrom(t: string, p: nat, q: nat): (r: seq<Span>)
    requires p <= q <= |t|
    ensures forall i :: 0 <= i < |r| ==> p <= r[i].start < r[i].end <= q
    ensures forall i, j :: 0 <= i < j < |r| ==> r[i].end <= r[j].start
    decreases q - p
  {
    if p == q then []
    else if !IsLetter(t[p]) then WordsFrom(t, p + 1, q)
    else
      var e := RunEnd(t, p, q);
      assert e > p;
      [Span(p, e)] + WordsFrom(t, e, q)
  }

  function Words(t: string): seq<Span> { WordsFrom(t, 0, |t|) }

  /** Scanning again from the start of word i finds the same words from there on. */
  lemma {:induction false} FromWord(t: string, p: nat, q: nat, i: nat)
    requires p <= q <= |t| && i < |WordsFrom(t, p, q)|
    ensures WordsFrom(t, WordsFrom(t, p, q)[i].start, q) == WordsFrom(t, p, q)[i..]
    decreases q - p
  {
    if !IsLetter(t[p]) {
      FromWord(t, p + 1, q, i);
    } else if i > 0 {
      var e := RunEnd(t, p, q);
      assert e > p;
      FromWord(t, e, q, i - 1);
      assert WordsFrom(t, p, q)[i] == WordsFrom(t, e, q)[i - 1];
    }
  }

  lemma {:induction false} RunEndWithin(t: string, p: nat, q: nat, stop: nat)
    requires p <= stop <= q <= |t| && RunEnd(t, p, q) <= stop
    ensures RunEnd(t, p, stop) == RunEnd(t, p, q)
    decreases q - p
  {
    if p < stop && IsLetter(t[p]) { RunEndWithin(t, p + 1, q, stop); }
  }

  /** Scanning only up to the end of word j finds the words up to j. */
  lemma {:induction false} ToWord(t: string, p: nat, q: nat, j: nat)
    requires p <= q <= |t| && j < |WordsFrom(t, p, q)|
    ensures WordsFrom(t, p, WordsFrom(t, p, q)[j].end) == WordsFrom(t, p, q)[..j + 1]
    decreases q - p
  {
    var w := WordsFrom(t, p, q);
    if !IsLetter(t[p]) {
      ToWord(t, p + 1, q, j);
    } else {
      var e := RunEnd(t, p, q);
      assert e > p && w == [Span(p, e)] + WordsFrom(t, e, q);
      assert j > 0 ==> w[0].end <= w[j].start;
      RunEndWithin(t, p, q, w[j].end);
      if j > 0 {
        ToWord(t, e, q, j - 1);
        assert w[..j + 1] == [Span(p, e)] + WordsFrom(t, e, q)[..j];
      }
    }
  }

  lemma {:induction false} RunEndShifted(t: string, a: nat, b: nat, p: nat, q: nat)
    requires a <= b <= |t| && p <= q <= b - a
    ensures RunEnd(t[a..b], p, q) + a == RunEnd(t, a + p, a + q)
    decreases q - p
  {
    if p < q {
      assert t[a..b][p] == t[a + p];
      if IsLetter(t[a + p]) { RunEndShifted(t, a, b, p + 1, q); }
    }
  }

  lemma ShiftedCons(s: Span, rest: seq<Span>, a: nat)
    ensures Shifted([s] + rest, a) == [Span(Minus(s.start, a), Minus(s.end, a))] + Shifted(rest, a)
  {
  }

  lemma FirstWord(t: string, p: nat, q: nat)
    requires p < q <= |t| && IsLetter(t[p])
    ensures p < RunEnd(t, p, q) && WordsFrom(t, p, q) == [Span(p, RunEnd(t, p, q))] + WordsFrom(t, RunEnd(t, p, q), q)
  {
  }

  lemma NoWord(t: string, a: nat, b: nat, p: nat, q: nat)
    requires a <= b <= |t| && p < q <= b - a && !IsLetter(t[a + p])
    requires WordsFrom(t[a..b], p + 1, q) == Shifted(WordsFrom(t, a + p + 1, a + q), a)
    ensures WordsFrom(t[a..b], p, q) == Shifted(WordsFrom(t, a + p, a + q), a)
  {
    assert t[a..b][p] == t[a + p];
  }

  lemma OneWord(a: nat, p: nat, e: nat, cutWords: seq<Span>, cutRest: seq<Span>, words: seq<Span>, rest: seq<Span>)
    requires cutWords == [Span(p, e)] + cutRest && words == [Span(a + p, a + e)] + rest && cutRest == Shifted(rest, a)
    ensures cutWords == Shifted(words, a)
  {
    ShiftedCons(Span(a + p, a + e), rest, a);
  }

  /** Where a word starts, it is found in both, and the rest follows. */
  lemma FirstWordShifted(t: string, a: nat, b: nat, p: nat, q: nat) returns (e: nat)
    requires a <= b <= |t| && p < q <= b - a && IsLetter(t[a + p])
    ensures p < e <= q && WordsFrom(t[a..b], p, q) == [Span(p, e)] + WordsFrom(t[a..b], e, q)
    ensures WordsFrom(t, a + p, a + q) == [Span(a + p, a + e)] + WordsFrom(t, a + e, a + q)
  {
    e := RunEnd(t[a..b], p, q);
    RunEndShifted(t, a, b, p, q);
    FirstWord(t[a..b], p, q);
    FirstWord(t, a + p, a + q);
  }

  /** Words do not depend on where the text is cut out. */
  lemma {:induction false} WordsShifted(t: string, a: nat, b: nat, p: nat, q: nat)
    requires a <= b <= |t| && p <= q <= b - a
    ensures WordsFrom(t[a..b], p, q) == Shifted(WordsFrom(t, a + p, a + q), a)
    decreases q - p
  {
    if p < q {
      if !IsLetter(t[a + p]) {
        WordsShifted(t, a, b, p + 1, q);
        NoWord(t, a, b, p, q);
      } else {
        var e := FirstWordShifted(t, a, b, p, q);
        WordsShifted(t, a, b, e, q);
        OneWord(a, p, e, WordsFrom(t[a..b], p, q), WordsFrom(t[a..b], e, q), WordsFrom(t, a + p, a + q), WordsFrom(t, a + e, a + q));
      }
    }
  }

  function SimpleModel(): TextModel { TextModel(t => Words(t), w => [Lower(w)], t => t) }

  /** The simple tokeniser cuts at words, so everything proved of re-anchoring holds with it. */
  lemma SimpleIsSliceable()
    ensures Sliceable(SimpleModel())
  {
    var m := SimpleModel();
    forall t: string ensures IsTokenisation(t, m.words(t)) { assert m.words(t) == Words(t); }
    forall t: string, i: nat, j: nat | IsTokenisation(t, m.words(t)) && i <= j < |m.words(t)| ensures CutsAtWords(m, t, i, j) {
      CutKeepsWords(t, i, j);
    }
  }

  lemma CutKeepsWords(t: string, i: nat, j: nat)
    requires i <= j < |Words(t)|
    ensures Words(t)[i].start <= Words(t)[j].end
    ensures Words(t[Words(t)[i].start..Words(t)[j].end]) == Shifted(Words(t)[i..j + 1], Words(t)[i].start)
  {
    var w := Words(t);
    var a, b := w[i].start, w[j].end;
    InOrder(t, i, j);
    FromWord(t, 0, |t|, i);
    WordsBetween(t, w, i, j, a, b, WordsFrom(t, a, |t|));
    WordsOfCut(t, a, b);
  }

  lemma InOrder(t: string, i: nat, j: nat)
    requires i <= j < |Words(t)|
    ensures Words(t)[i].start <= Words(t)[j].end <= |t|
  {
  }

  lemma WordsOfCut(t: string, a: nat, b: nat)
    requires a <= b <= |t|
    ensures Words(t[a..b]) == Shifted(WordsFrom(t, a, b), a)
  {
    var cut := t[a..b];
    assert |cut| == b - a && Words(cut) == WordsFrom(cut, 0, |cut|);
    WordsShifted(t, a, b, 0, b - a);
  }

  lemma WordsBetween(t: string, w: seq<Span>, i: nat, j: nat, a: nat, b: nat, rest: seq<Span>)
    requires i <= j < |w| && w[j].end == b && a <= b <= |t| && rest == w[i..] && rest == WordsFrom(t, a, |t|)
    ensures WordsFrom(t, a, b) == w[i..j + 1]
  {
    RestAt(w, i, j, rest);
    ToWord(t, a, |t|, j - i);
  }

  lemma RestAt(w: seq<Span>, i: nat, j: nat, rest: seq<Span>)
    requires i <= j < |w| && rest == w[i..]
    ensures j - i < |rest| && rest[j - i] == w[j] && rest[..j - i + 1] == w[i..j + 1]
  {
  }

  /** Re-anchoring twice with this tokeniser. */
  lemma SimpleReanchoringIsIdempotent(x: Annotation, oldPage: Option<seq<string>>, newPage: seq<string>)
    requires WellTyped(x) && Moved(SimpleModel(), x, oldPage, newPage).Some?
    ensures var y := Moved(SimpleModel(), x, oldPage, newPage).value; WellTyped(y) && Moved(SimpleModel(), y, oldPage, newPage) == Some(y)
  {
    SimpleIsSliceable();
    ReanchoringIsIdempotent(SimpleModel(), x, oldPage, oldPage, newPage);
  }
}
