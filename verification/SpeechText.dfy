module SpeechText {
  // The text a voice reads, with the map from its characters back to the displayed text. What the rules match is an arbitrary list
  // of candidates here, in the order in which the rules are tried.

  import opened Spans
  import opened Options
  import opened Utf16

  const COMMA: Unit := 44

  /** A rule match: where, and the text said instead, or nothing when the rule declines. */
  datatype Candidate = Candidate(start: nat, end: nat, said: Option<Text>)

  datatype Replacement = Replacement(start: nat, end: nat, said: Text)

  ghost predicate InText(source: Text, cands: seq<Candidate>) {
    forall i :: 0 <= i < |cands| ==> cands[i].start <= cands[i].end <= |source|
  }

  // ---------- choosing replacements ----------

  predicate Taken(chosen: seq<Replacement>, start: nat, end: nat) {
    exists i :: 0 <= i < |chosen| && start < chosen[i].end && end > chosen[i].start
  }

  predicate Accepts(chosen: seq<Replacement>, c: Candidate) {
    c.start < c.end && c.said.Some? && !Taken(chosen, c.start, c.end)
  }

  /** Candidates that are not empty, have a text and touch no earlier choice: earlier rules win. */
  function Chosen(cands: seq<Candidate>): seq<Replacement> {
    if cands == [] then []
    else
      var n := |cands| - 1;
      var chosen := Chosen(cands[..n]);
      var c := cands[n];
      if Accepts(chosen, c) then chosen + [Replacement(c.start, c.end, c.said.value)] else chosen
  }

  predicate Overlap(a: Candidate, b: Candidate) { a.start < b.end && a.end > b.start }

  /** A candidate wins if it has something to replace and to say, and overlaps no earlier one that wins. */
  ghost predicate Wins(cands: seq<Candidate>, i: nat)
    requires i < |cands|
    decreases i
  {
    cands[i].start < cands[i].end && cands[i].said.Some? && forall j: nat :: j < i && Wins(cands, j) ==> !Overlap(cands[i], cands[j])
  }

  predicate IsSaid(c: Candidate, r: Replacement) { c.said == Some(r.said) && c.start == r.start && c.end == r.end }

  /** The replacement is that of a winner among the first n candidates. */
  ghost predicate IsWinner(cands: seq<Candidate>, n: nat, r: Replacement)
    requires n <= |cands|
  {
    exists i: nat :: i < n && Wins(cands, i) && IsSaid(cands[i], r)
  }

  lemma {:induction false} WinsSame(cands: seq<Candidate>, n: nat, i: nat)
    requires i < n <= |cands|
    ensures Wins(cands[..n], i) <==> Wins(cands, i)
    decreases i
  {
    forall j: nat | j < i ensures Wins(cands[..n], j) <==> Wins(cands, j) { WinsSame(cands, n, j); }
  }

  lemma {:induction false} ChosenUpTo(cands: seq<Candidate>, n: nat)
    requires n <= |cands|
    ensures forall r :: r in Chosen(cands[..n]) <==> IsWinner(cands, n, r)
  {
    if n > 0 {
      ChosenUpTo(cands, n - 1);
      assert cands[..n][..n - 1] == cands[..n - 1];
      AcceptsWinners(cands, n - 1);
      forall r ensures r in Chosen(cands[..n]) <==> IsWinner(cands, n, r) { NextWinner(cands, n - 1, r); }
    }
  }

  lemma AcceptsWinners(cands: seq<Candidate>, n: nat)
    requires n < |cands| && forall r :: r in Chosen(cands[..n]) <==> IsWinner(cands, n, r)
    ensures Accepts(Chosen(cands[..n]), cands[n]) <==> Wins(cands, n)
  {
    var chosen, c := Chosen(cands[..n]), cands[n];
    if Taken(chosen, c.start, c.end) {
      var k :| 0 <= k < |chosen| && c.start < chosen[k].end && c.end > chosen[k].start;
      assert chosen[k] in chosen && IsWinner(cands, n, chosen[k]);
      var i: nat :| i < n && Wins(cands, i) && IsSaid(cands[i], chosen[k]);
      assert Overlap(c, cands[i]);
    }
    forall j: nat | j < n && Wins(cands, j) && Overlap(c, cands[j]) ensures Taken(chosen, c.start, c.end) {
      var r := Replacement(cands[j].start, cands[j].end, cands[j].said.value);
      assert IsSaid(cands[j], r) && IsWinner(cands, n, r);
      var k :| 0 <= k < |chosen| && chosen[k] == r;
    }
  }

  lemma NextWinner(cands: seq<Candidate>, n: nat, r: Replacement)
    requires n < |cands| && (r in Chosen(cands[..n]) <==> IsWinner(cands, n, r))
    requires Accepts(Chosen(cands[..n]), cands[n]) <==> Wins(cands, n)
    ensures r in Chosen(cands[..n + 1]) <==> IsWinner(cands, n + 1, r)
  {
    assert cands[..n + 1][..n] == cands[..n];
    if IsWinner(cands, n, r) { var i: nat :| i < n && Wins(cands, i) && IsSaid(cands[i], r); }
    if Wins(cands, n) && IsSaid(cands[n], r) { assert IsWinner(cands, n + 1, r); }
  }

  /** Rules win in their order, and nothing that could be said is left out: chosen are exactly the winners. */
  lemma ChosenAreWinners(cands: seq<Candidate>, r: Replacement)
    ensures r in Chosen(cands) <==> IsWinner(cands, |cands|, r)
  {
    assert cands[..|cands|] == cands;
    ChosenUpTo(cands, |cands|);
  }

  ghost predicate Apart(source: Text, rs: seq<Replacement>) {
    && (forall i :: 0 <= i < |rs| ==> rs[i].start < rs[i].end <= |source|)
    && (forall i, j :: 0 <= i < j < |rs| ==> rs[i].end <= rs[j].start || rs[j].end <= rs[i].start)
  }

  lemma {:induction false} ChosenAreApart(source: Text, cands: seq<Candidate>)
    requires InText(source, cands)
    ensures Apart(source, Chosen(cands))
  {
    if cands != [] {
      var n := |cands| - 1;
      ChosenAreApart(source, cands[..n]);
    }
  }

  /** Replacements in the order of the text. */
  ghost predicate InOrder(source: Text, rs: seq<Replacement>) {
    && (forall i :: 0 <= i < |rs| ==> rs[i].start < rs[i].end <= |source|)
    && (forall i, j :: 0 <= i < j < |rs| ==> rs[i].end <= rs[j].start)
  }

  function Insert(rs: seq<Replacement>, r: Replacement): seq<Replacement> {
    if rs == [] || rs[|rs| - 1].start <= r.start then rs + [r]
    else Insert(rs[..|rs| - 1], r) + [rs[|rs| - 1]]
  }

  function Sorted(rs: seq<Replacement>): seq<Replacement> {
    if rs == [] then [] else Insert(Sorted(rs[..|rs| - 1]), rs[|rs| - 1])
  }

  lemma {:induction false} InsertMembers(rs: seq<Replacement>, r: Replacement)
    ensures forall x :: x in Insert(rs, r) <==> x in rs || x == r
  {
    if rs != [] && rs[|rs| - 1].start > r.start {
      InsertMembers(rs[..|rs| - 1], r);
      assert rs == rs[..|rs| - 1] + [rs[|rs| - 1]];
    }
  }

  ghost predicate Clear(r: Replacement, x: Replacement) { x.end <= r.start || r.end <= x.start }

  lemma {:induction false} InsertInOrder(source: Text, rs: seq<Replacement>, r: Replacement)
    requires InOrder(source, rs) && r.start < r.end <= |source| && forall x :: x in rs ==> Clear(r, x)
    ensures InOrder(source, Insert(rs, r))
  {
    if rs != [] {
      var n := |rs| - 1;
      assert rs[n] in rs && Clear(r, rs[n]);
      if rs[n].start > r.start {
        InsertInOrder(source, rs[..n], r);
        InsertMembers(rs[..n], r);
        assert rs == rs[..n] + [rs[n]];
        LastIsAfter(source, rs[..n], rs[n], r, Insert(rs[..n], r));
      } else {
        forall i | 0 <= i < n ensures rs[i].end <= r.start { assert rs[i].end <= rs[n].start; }
      }
    }
  }

  lemma LastIsAfter(source: Text, before: seq<Replacement>, last: Replacement, r: Replacement, init: seq<Replacement>)
    requires InOrder(source, before + [last]) && r.end <= last.start
    requires InOrder(source, init) && forall x :: x in init <==> x in before || x == r
    ensures InOrder(source, init + [last])
  {
    var all := before + [last];
    assert all[|before|] == last;
    forall i | 0 <= i < |init| ensures init[i].end <= last.start {
      assert init[i] in init;
      if init[i] != r {
        var k :| 0 <= k < |before| && before[k] == init[i];
        assert all[k] == before[k];
      }
    }
  }

  lemma {:induction false} SortedIsInOrder(source: Text, rs: seq<Replacement>)
    requires Apart(source, rs)
    ensures InOrder(source, Sorted(rs)) && forall x :: x in Sorted(rs) <==> x in rs
  {
    if rs != [] {
      var n := |rs| - 1;
      SortedIsInOrder(source, rs[..n]);
      assert rs == rs[..n] + [rs[n]];
      forall x | x in Sorted(rs[..n]) ensures Clear(rs[n], x) {
        var k :| 0 <= k < n && rs[..n][k] == x;
        assert rs[k].end <= rs[n].start || rs[n].end <= rs[k].start;
      }
      InsertInOrder(source, Sorted(rs[..n]), rs[n]);
      InsertMembers(Sorted(rs[..n]), rs[n]);
    }
  }

  function ReplacementsOf(cands: seq<Candidate>): seq<Replacement> { Sorted(Chosen(cands)) }

  // ---------- the spoken characters ----------

  /** A spoken character, the position it stands for, and whether a rule put it there. */
  datatype Cell = Cell(ch: Unit, at: nat, ruled: bool)

  function Keep(source: Text, a: nat, b: nat): (r: seq<Cell>)
    requires a <= b <= |source|
    ensures |r| == b - a && forall i :: 0 <= i < |r| ==> r[i] == Cell(source[a + i], a + i, false)
  {
    seq(b - a, i requires 0 <= i < b - a => Cell(source[a + i], a + i, false))
  }

  function Say(r: Replacement): (cells: seq<Cell>)
    ensures |cells| == |r.said| && forall i :: 0 <= i < |cells| ==> cells[i] == Cell(r.said[i], r.start, true)
  {
    seq(|r.said|, i requires 0 <= i < |r.said| => Cell(r.said[i], r.start, true))
  }

  function CursorAfter(rs: seq<Replacement>): nat { if rs == [] then 0 else rs[|rs| - 1].end }

  /** The text up to the end of the last replacement. */
  function SplicedUpTo(source: Text, rs: seq<Replacement>): seq<Cell>
    requires InOrder(source, rs)
  {
    if rs == [] then []
    else
      var n := |rs| - 1;
      assert n > 0 ==> rs[n - 1].end <= rs[n].start;
      SplicedUpTo(source, rs[..n]) + Keep(source, CursorAfter(rs[..n]), rs[n].start) + Say(rs[n])
  }

  function Spliced(source: Text, rs: seq<Replacement>): seq<Cell>
    requires InOrder(source, rs)
  {
    SplicedUpTo(source, rs) + Keep(source, CursorAfter(rs), |source|)
  }

  // ---------- what is said, position by position ----------

  /** The replacement that starts at a position, if one does. */
  function StartingAt(rs: seq<Replacement>, p: nat): (r: Option<Replacement>)
    ensures r.Some? ==> r.value in rs && r.value.start == p
    ensures r.None? <==> forall x :: x in rs ==> x.start != p
  {
    if rs == [] then None
    else if rs[0].start == p then Some(rs[0])
    else
      var r := StartingAt(rs[1..], p);
      assert forall x :: x in rs ==> x == rs[0] || x in rs[1..];
      r
  }

  /** What is said at one position: the replacement that starts there, its own character outside every replacement, else nothing. */
  ghost function SaidAt(source: Text, rs: seq<Replacement>, p: nat): seq<Cell> {
    if p >= |source| then []
    else if StartingAt(rs, p).Some? then Say(StartingAt(rs, p).value)
    else if Outside(rs, p) then [Cell(source[p], p, false)]
    else []
  }

  ghost function SaidUpTo(source: Text, rs: seq<Replacement>, p: nat): seq<Cell> { Gathered(SaidBy(source, rs), p) }

  ghost function SaidBy(source: Text, rs: seq<Replacement>): nat -> seq<Cell> { (q: nat) => SaidAt(source, rs, q) }

  ghost function Gathered(said: nat -> seq<Cell>, p: nat): seq<Cell> { if p == 0 then [] else Gathered(said, p - 1) + said(p - 1) }

  lemma OutsideIsKept(source: Text, rs: seq<Replacement>, p: nat)
    requires p < |source| && Outside(rs, p) && forall k :: 0 <= k < |rs| ==> rs[k].start < rs[k].end
    ensures SaidAt(source, rs, p) == [Cell(source[p], p, false)]
  {
    forall x | x in rs ensures x.start != p { var k :| 0 <= k < |rs| && rs[k] == x; }
  }

  /** Over a stretch outside the replacements the text is said as it is. */
  lemma {:induction false} StretchIsKept(source: Text, rs: seq<Replacement>, a: nat, b: nat)
    requires a <= b <= |source| && forall p: nat :: a <= p < b ==> Outside(rs, p)
    requires forall k :: 0 <= k < |rs| ==> rs[k].start < rs[k].end
    ensures SaidUpTo(source, rs, b) == SaidUpTo(source, rs, a) + Keep(source, a, b)
    decreases b
  {
    if a < b {
      var q := b - 1;
      StretchIsKept(source, rs, a, q);
      OutsideIsKept(source, rs, q);
      assert Keep(source, a, b) == Keep(source, a, q) + [Cell(source[q], q, false)];
      Concat(SaidUpTo(source, rs, a), Keep(source, a, q), [Cell(source[q], q, false)]);
    }
  }

  lemma Concat(a: seq<Cell>, b: seq<Cell>, c: seq<Cell>)
    ensures (a + b) + c == a + (b + c)
  {
  }

  lemma {:induction false} SilentStretch(said: nat -> seq<Cell>, a: nat, b: nat)
    requires a <= b && forall q: nat :: a <= q < b ==> said(q) == []
    ensures Gathered(said, b) == Gathered(said, a)
    decreases b
  {
    if a < b { SilentStretch(said, a, b - 1); }
  }

  /** Behind the start of a replacement nothing is said until its end. */
  lemma InsideIsSilent(source: Text, rs: seq<Replacement>, r: Replacement, p: nat)
    requires Apart(source, rs) && r in rs && r.start < p < r.end
    ensures p < |source| && SaidAt(source, rs, p) == []
  {
    var k :| 0 <= k < |rs| && rs[k] == r;
    forall x | x in rs ensures x.start != p { var l :| 0 <= l < |rs| && rs[l] == x; }
  }

  lemma StartIsSaid(source: Text, rs: seq<Replacement>, r: Replacement)
    requires Apart(source, rs) && r in rs
    ensures r.start < |source| && SaidAt(source, rs, r.start) == Say(r)
  {
    var k :| 0 <= k < |rs| && rs[k] == r;
    var other := StartingAt(rs, r.start).value;
    var l :| 0 <= l < |rs| && rs[l] == other;
  }

  lemma ReplacementIsSaid(source: Text, rs: seq<Replacement>, r: Replacement)
    requires Apart(source, rs) && r in rs
    ensures SaidUpTo(source, rs, r.end) == SaidUpTo(source, rs, r.start) + Say(r)
  {
    StartIsSaid(source, rs, r);
    var said := SaidBy(source, rs);
    forall q: nat | r.start + 1 <= q < r.end ensures said(q) == [] { InsideIsSilent(source, rs, r, q); }
    SilentStretch(said, r.start + 1, r.end);
  }

  /** The cells up to the end of replacement n of the sorted ones, whatever list they were sorted from. */
  lemma {:induction false} SplicedIsSaid(source: Text, rs: seq<Replacement>, sorted: seq<Replacement>, n: nat)
    requires Apart(source, rs) && InOrder(source, sorted) && (forall x :: x in sorted <==> x in rs) && n <= |sorted|
    ensures SplicedUpTo(source, sorted[..n]) == SaidUpTo(source, rs, CursorAfter(sorted[..n]))
  {
    if n > 0 {
      SplicedIsSaid(source, rs, sorted, n - 1);
      assert sorted[..n][..n - 1] == sorted[..n - 1] && sorted[..n][n - 1] == sorted[n - 1];
      NextIsSaid(source, rs, sorted, n - 1);
    }
  }

  lemma NextIsSaid(source: Text, rs: seq<Replacement>, sorted: seq<Replacement>, n: nat)
    requires Apart(source, rs) && InOrder(source, sorted) && (forall x :: x in sorted <==> x in rs) && n < |sorted|
    ensures var a, r := CursorAfter(sorted[..n]), sorted[n];
      a <= r.start && r.start <= |source| && SaidUpTo(source, rs, r.end) == SaidUpTo(source, rs, a) + Keep(source, a, r.start) + Say(r)
  {
    var a, r := CursorAfter(sorted[..n]), sorted[n];
    assert n > 0 ==> sorted[n - 1].end <= r.start;
    GapIsOutside(source, rs, sorted, n, a, r.start);
    StretchIsKept(source, rs, a, r.start);
    assert r in sorted;
    ReplacementIsSaid(source, rs, r);
  }

  lemma GapIsOutside(source: Text, rs: seq<Replacement>, sorted: seq<Replacement>, n: nat, a: nat, b: nat)
    requires Apart(source, rs) && InOrder(source, sorted) && (forall x :: x in sorted <==> x in rs) && n <= |sorted|
    requires a == CursorAfter(sorted[..n]) && (n < |sorted| ==> b <= sorted[n].start)
    ensures forall p: nat :: a <= p < b ==> Outside(rs, p)
  {
    forall p: nat | a <= p < b ensures Outside(rs, p) {
      forall k | 0 <= k < |rs| ensures p < rs[k].start || rs[k].end <= p {
        assert rs[k] in rs;
        var j :| 0 <= j < |sorted| && sorted[j] == rs[k];
        if j < n - 1 { assert sorted[j].end <= sorted[n - 1].start; }
        if j > n { assert sorted[n].end <= sorted[j].start; }
      }
    }
  }

  /** Spliced in order, the chosen replacements are each said at their place, and everything outside them as it is. */
  lemma SplicedSaysAll(source: Text, rs: seq<Replacement>)
    requires Apart(source, rs)
    ensures InOrder(source, Sorted(rs)) && Spliced(source, Sorted(rs)) == SaidUpTo(source, rs, |source|)
  {
    SortedIsInOrder(source, rs);
    var sorted := Sorted(rs);
    var n := |sorted|;
    assert sorted[..n] == sorted;
    SplicedIsSaid(source, rs, sorted, n);
    GapIsOutside(source, rs, sorted, n, CursorAfter(sorted), |source|);
    StretchIsKept(source, rs, CursorAfter(sorted), |source|);
  }

  /**
   * What is prepared says, in the order of the text and white space aside, every chosen replacement at its place and every
   * character outside them; only a comma at the very start may be missing.
   */
  lemma EverythingIsSaid(source: Text, cands: seq<Candidate>)
    requires InText(source, cands)
    ensures var all := Solid(SaidUpTo(source, Chosen(cands), |source|)); var said := Solid(Prepared(source, cands));
      said == all || (all != [] && all[0].ch == COMMA && said == all[1..])
  {
    ChosenAreApart(source, cands);
    SplicedSaysAll(source, Chosen(cands));
    TidiedKeepsSolid(Spliced(source, ReplacementsOf(cands)));
  }

  /** Runs of white space become one space, at the position of the first; leading white space goes. */
  function Collapsed(cells: seq<Cell>): seq<Cell> {
    if cells == [] then []
    else
      var before := Collapsed(cells[..|cells| - 1]);
      var c := cells[|cells| - 1];
      if !IsSpace(c.ch) then before + [c]
      else if before == [] || before[|before| - 1].ch == SPACE then before
      else before + [c.(ch := SPACE)]
  }

  function WithoutTail(cells: seq<Cell>): seq<Cell> {
    if cells != [] && cells[|cells| - 1].ch == SPACE then WithoutTail(cells[..|cells| - 1]) else cells
  }

  function WithoutHead(cells: seq<Cell>): seq<Cell> {
    if cells != [] && IsSpace(cells[0].ch) then WithoutHead(cells[1..]) else cells
  }

  function WithoutComma(cells: seq<Cell>): seq<Cell> {
    if cells != [] && cells[0].ch == COMMA then WithoutHead(cells[1..]) else cells
  }

  function Tidied(cells: seq<Cell>): seq<Cell> { WithoutComma(WithoutTail(Collapsed(cells))) }

  function Prepared(source: Text, cands: seq<Candidate>): seq<Cell>
    requires InText(source, cands)
  {
    ChosenAreApart(source, cands);
    SortedIsInOrder(source, Chosen(cands));
    Tidied(Spliced(source, ReplacementsOf(cands)))
  }

  // ---------- what the map keeps ----------

  /** A kept character is the source's, or a space for the source's white space. */
  predicate CellOk(source: Text, c: Cell) {
    && c.at < |source|
    && (!c.ruled ==> c.ch == source[c.at] || (c.ch == SPACE && IsSpace(source[c.at])))
  }

  /** b comes after a: at a later or the same position, and later if both are kept characters. */
  predicate Follows(a: Cell, b: Cell) { a.at <= b.at && (!a.ruled && !b.ruled ==> a.at < b.at) }

  ghost predicate MapOk(source: Text, cells: seq<Cell>) {
    && (forall i :: 0 <= i < |cells| ==> CellOk(source, cells[i]))
    && (forall i, j :: 0 <= i < j < |cells| ==> Follows(cells[i], cells[j]))
  }

  lemma MapOkJoin(source: Text, a: seq<Cell>, b: seq<Cell>)
    requires MapOk(source, a) && MapOk(source, b) && forall i, j :: 0 <= i < |a| && 0 <= j < |b| ==> Follows(a[i], b[j])
    ensures MapOk(source, a + b)
  {
  }

  ghost predicate Before(cells: seq<Cell>, p: nat) { forall i :: 0 <= i < |cells| ==> cells[i].at < p }

  lemma KeepOk(source: Text, a: nat, b: nat)
    requires a <= b <= |source|
    ensures MapOk(source, Keep(source, a, b)) && Before(Keep(source, a, b), b)
  {
  }

  lemma SayOk(source: Text, r: Replacement)
    requires r.start < r.end <= |source|
    ensures MapOk(source, Say(r)) && Before(Say(r), r.end)
  {
  }

  lemma AppendOk(source: Text, cells: seq<Cell>, p: nat, more: seq<Cell>, q: nat)
    requires MapOk(source, cells) && Before(cells, p) && MapOk(source, more) && Before(more, q) && p <= q
    requires forall i :: 0 <= i < |more| ==> p <= more[i].at
    ensures MapOk(source, cells + more) && Before(cells + more, q)
  {
    MapOkJoin(source, cells, more);
  }

  lemma {:induction false} SplicedUpToOk(source: Text, rs: seq<Replacement>)
    requires InOrder(source, rs)
    ensures MapOk(source, SplicedUpTo(source, rs)) && Before(SplicedUpTo(source, rs), CursorAfter(rs))
  {
    if rs != [] {
      var n := |rs| - 1;
      assert n > 0 ==> rs[n - 1].end <= rs[n].start;
      SplicedUpToOk(source, rs[..n]);
      KeepOk(source, CursorAfter(rs[..n]), rs[n].start);
      SayOk(source, rs[n]);
      AppendOk(source, SplicedUpTo(source, rs[..n]), CursorAfter(rs[..n]), Keep(source, CursorAfter(rs[..n]), rs[n].start), rs[n].start);
      AppendOk(source, SplicedUpTo(source, rs[..n]) + Keep(source, CursorAfter(rs[..n]), rs[n].start), rs[n].start, Say(rs[n]), rs[n].end);
    }
  }

  lemma SplicedOk(source: Text, rs: seq<Replacement>)
    requires InOrder(source, rs)
    ensures MapOk(source, Spliced(source, rs))
  {
    SplicedUpToOk(source, rs);
    KeepOk(source, CursorAfter(rs), |source|);
    AppendOk(source, SplicedUpTo(source, rs), CursorAfter(rs), Keep(source, CursorAfter(rs), |source|), |source|);
  }

  /** Some of the cells, in order, possibly with white space turned into a space. */
  ghost predicate IsThinning(out: seq<Cell>, cells: seq<Cell>, at: seq<nat>) {
    && |at| == |out|
    && (forall i :: 0 <= i < |at| ==> at[i] < |cells| && SameOrSpace(out[i], cells[at[i]]))
    && (forall i, j :: 0 <= i < j < |at| ==> at[i] < at[j])
  }

  predicate SameOrSpace(o: Cell, c: Cell) { o == c || (IsSpace(c.ch) && o == c.(ch := SPACE)) }

  lemma ThinningOk(source: Text, out: seq<Cell>, cells: seq<Cell>, at: seq<nat>)
    requires MapOk(source, cells) && IsThinning(out, cells, at)
    ensures MapOk(source, out)
  {
    forall i | 0 <= i < |out| ensures CellOk(source, out[i]) { assert CellOk(source, cells[at[i]]); }
    forall i, j | 0 <= i < j < |out| ensures Follows(out[i], out[j]) { assert Follows(cells[at[i]], cells[at[j]]); }
  }

  lemma {:induction false} CollapsedThins(cells: seq<Cell>) returns (at: seq<nat>)
    ensures IsThinning(Collapsed(cells), cells, at)
  {
    if cells == [] {
      at := [];
    } else {
      var n := |cells| - 1;
      at := CollapsedThins(cells[..n]);
      ThinningLonger(Collapsed(cells[..n]), cells, at);
      if |Collapsed(cells)| > |at| {
        ThinningGrows(Collapsed(cells[..n]), cells, at, Collapsed(cells)[|at|]);
        at := at + [n];
      }
    }
  }

  lemma ThinningLonger(out: seq<Cell>, cells: seq<Cell>, at: seq<nat>)
    requires cells != [] && IsThinning(out, cells[..|cells| - 1], at)
    ensures IsThinning(out, cells, at) && forall i :: 0 <= i < |at| ==> at[i] < |cells| - 1
  {
    var init := cells[..|cells| - 1];
    forall i | 0 <= i < |at| ensures at[i] < |cells| - 1 && SameOrSpace(out[i], cells[at[i]]) { assert SameOrSpace(out[i], init[at[i]]); }
  }

  lemma ThinningGrows(out: seq<Cell>, cells: seq<Cell>, at: seq<nat>, o: Cell)
    requires cells != [] && IsThinning(out, cells, at) && (forall i :: 0 <= i < |at| ==> at[i] < |cells| - 1)
    requires SameOrSpace(o, cells[|cells| - 1])
    ensures IsThinning(out + [o], cells, at + [|cells| - 1])
  {
  }

  lemma {:induction false} WithoutTailIsPrefix(cells: seq<Cell>) returns (n: nat)
    ensures n <= |cells| && WithoutTail(cells) == cells[..n] && forall i :: n <= i < |cells| ==> cells[i].ch == SPACE
    ensures n > 0 ==> cells[n - 1].ch != SPACE
  {
    if cells != [] && cells[|cells| - 1].ch == SPACE {
      n := WithoutTailIsPrefix(cells[..|cells| - 1]);
      assert cells[..|cells| - 1][..n] == cells[..n];
      forall i | n <= i < |cells| ensures cells[i].ch == SPACE { if i < |cells| - 1 { assert cells[..|cells| - 1][i].ch == SPACE; } }
    } else {
      n := |cells|;
      assert cells[..n] == cells;
    }
  }

  lemma {:induction false} WithoutHeadIsSuffix(cells: seq<Cell>) returns (n: nat)
    ensures n <= |cells| && WithoutHead(cells) == cells[n..] && forall i :: 0 <= i < n ==> IsSpace(cells[i].ch)
    ensures n < |cells| ==> !IsSpace(cells[n].ch)
  {
    if cells != [] && IsSpace(cells[0].ch) {
      var m := WithoutHeadIsSuffix(cells[1..]);
      n := m + 1;
      assert cells[1..][m..] == cells[n..];
      forall i | 0 <= i < n ensures IsSpace(cells[i].ch) { if i > 0 { assert IsSpace(cells[1..][i - 1].ch); } }
    } else {
      n := 0;
    }
  }

  lemma SliceOk(source: Text, cells: seq<Cell>, a: nat, b: nat)
    requires MapOk(source, cells) && a <= b <= |cells|
    ensures MapOk(source, cells[a..b])
  {
  }

  lemma TidiedOk(source: Text, cells: seq<Cell>)
    requires MapOk(source, cells)
    ensures MapOk(source, Tidied(cells))
  {
    var at := CollapsedThins(cells);
    ThinningOk(source, Collapsed(cells), cells, at);
    var n := WithoutTailIsPrefix(Collapsed(cells));
    var trimmed := WithoutTail(Collapsed(cells));
    SliceOk(source, Collapsed(cells), 0, n);
    assert Collapsed(cells)[0..n] == trimmed;
    if trimmed != [] && trimmed[0].ch == COMMA {
      var m := WithoutHeadIsSuffix(trimmed[1..]);
      SliceOk(source, trimmed, m + 1, |trimmed|);
      assert trimmed[1..][m..] == trimmed[m + 1..|trimmed|];
    }
  }

  /**
   * For any matches: every spoken character has a position of the text, positions never go back, and a character no rule
   * produced is the text's own at its position, or a space for white space; no such position is used twice.
   */
  lemma PreparedMapOk(source: Text, cands: seq<Candidate>)
    requires InText(source, cands)
    ensures MapOk(source, Prepared(source, cands))
  {
    ChosenAreApart(source, cands);
    SortedIsInOrder(source, Chosen(cands));
    SplicedOk(source, ReplacementsOf(cands));
    TidiedOk(source, Spliced(source, ReplacementsOf(cands)));
  }

  // ---------- what the tidying keeps ----------

  /** The characters that are not white space, with their positions. */
  function Solid(cells: seq<Cell>): seq<Cell> {
    if cells == [] then []
    else
      var c := cells[|cells| - 1];
      if IsSpace(c.ch) then Solid(cells[..|cells| - 1]) else Solid(cells[..|cells| - 1]) + [c]
  }

  lemma {:induction false} CollapsedKeepsSolid(cells: seq<Cell>)
    ensures Solid(Collapsed(cells)) == Solid(cells)
  {
    if cells != [] {
      var before := Collapsed(cells[..|cells| - 1]);
      var c := cells[|cells| - 1];
      CollapsedKeepsSolid(cells[..|cells| - 1]);
      SolidLast(before, c);
      SolidLast(before, c.(ch := SPACE));
    }
  }

  lemma SolidLast(cells: seq<Cell>, c: Cell)
    ensures Solid(cells + [c]) == if IsSpace(c.ch) then Solid(cells) else Solid(cells) + [c]
  {
    assert (cells + [c])[..|cells|] == cells;
  }

  lemma {:induction false} TailIsNotSolid(cells: seq<Cell>, n: nat)
    requires n <= |cells| && forall i :: n <= i < |cells| ==> IsSpace(cells[i].ch)
    ensures Solid(cells) == Solid(cells[..n])
  {
    if n < |cells| {
      TailIsNotSolid(cells[..|cells| - 1], n);
      assert cells[..|cells| - 1][..n] == cells[..n];
    } else {
      assert cells[..n] == cells;
    }
  }

  lemma {:induction false} HeadIsNotSolid(cells: seq<Cell>, n: nat)
    requires n <= |cells| && forall i :: 0 <= i < n ==> IsSpace(cells[i].ch)
    ensures Solid(cells) == Solid(cells[n..])
  {
    if n == |cells| {
      TailIsNotSolid(cells, 0);
      assert cells[..0] == [] && cells[n..] == [];
    } else {
      var init := cells[..|cells| - 1];
      HeadIsNotSolid(init, n);
      assert cells[n..][..|cells| - n - 1] == init[n..];
    }
  }

  lemma {:induction false} SolidFirst(cells: seq<Cell>)
    requires cells != [] && !IsSpace(cells[0].ch)
    ensures Solid(cells) == [cells[0]] + Solid(cells[1..])
  {
    if |cells| == 1 {
      assert cells[..0] == [] && cells[1..] == [];
    } else {
      var init := cells[..|cells| - 1];
      SolidFirst(init);
      assert cells[1..][..|cells| - 2] == init[1..];
      assert cells[1..][|cells| - 2] == cells[|cells| - 1];
    }
  }

  /** Everything said survives the tidying, except one comma at the very start. */
  lemma TidiedKeepsSolid(cells: seq<Cell>)
    ensures Solid(Tidied(cells)) == Solid(cells)
      || (Solid(cells) != [] && Solid(cells)[0].ch == COMMA && Solid(Tidied(cells)) == Solid(cells)[1..])
  {
    var collapsed := Collapsed(cells);
    CollapsedKeepsSolid(cells);
    var n := WithoutTailIsPrefix(collapsed);
    TailIsNotSolid(collapsed, n);
    var trimmed := WithoutTail(collapsed);
    if trimmed != [] && trimmed[0].ch == COMMA {
      SolidFirst(trimmed);
      var m := WithoutHeadIsSuffix(trimmed[1..]);
      HeadIsNotSolid(trimmed[1..], m);
    }
  }

  /** One space at a time, none at either end. */
  ghost predicate IsTidy(cells: seq<Cell>) {
    && (forall i :: 0 <= i < |cells| && IsSpace(cells[i].ch) ==> cells[i].ch == SPACE)
    && (forall i :: 0 < i < |cells| ==> NotBothSpaces(cells, i))
    && (cells != [] ==> !IsSpace(cells[0].ch) && !IsSpace(cells[|cells| - 1].ch))
  }

  ghost predicate NotBothSpaces(cells: seq<Cell>, i: nat)
    requires 0 < i < |cells|
  {
    !IsSpace(cells[i - 1].ch) || !IsSpace(cells[i].ch)
  }

  ghost predicate IsCollapsed(cells: seq<Cell>) {
    && (forall i :: 0 <= i < |cells| && IsSpace(cells[i].ch) ==> cells[i].ch == SPACE)
    && (forall i :: 0 < i < |cells| ==> NotBothSpaces(cells, i))
    && (cells != [] ==> !IsSpace(cells[0].ch))
  }

  lemma {:induction false} CollapsedIsCollapsed(cells: seq<Cell>)
    ensures IsCollapsed(Collapsed(cells))
  {
    if cells != [] {
      var before := Collapsed(cells[..|cells| - 1]);
      CollapsedIsCollapsed(cells[..|cells| - 1]);
      var out := Collapsed(cells);
      forall i | 0 < i < |out| ensures NotBothSpaces(out, i) { if i < |before| { assert NotBothSpaces(before, i); } }
    }
  }

  lemma TidiedIsTidy(cells: seq<Cell>)
    ensures IsTidy(Tidied(cells))
  {
    var collapsed := Collapsed(cells);
    CollapsedIsCollapsed(cells);
    var n := WithoutTailIsPrefix(collapsed);
    PrefixIsTidy(collapsed, n);
    var trimmed := WithoutTail(collapsed);
    if trimmed != [] && trimmed[0].ch == COMMA {
      var m := WithoutHeadIsSuffix(trimmed[1..]);
      assert trimmed[1..][m..] == trimmed[m + 1..];
      assert m < |trimmed[1..]| ==> trimmed[1..][m] == trimmed[m + 1];
      SuffixIsTidy(trimmed, m + 1);
    }
  }

  lemma PrefixIsTidy(cells: seq<Cell>, n: nat)
    requires IsCollapsed(cells) && n <= |cells| && (n > 0 ==> cells[n - 1].ch != SPACE)
    ensures IsTidy(cells[..n])
  {
    var out := cells[..n];
    forall i | 0 < i < n ensures NotBothSpaces(out, i) { assert NotBothSpaces(cells, i); }
  }

  lemma SuffixIsTidy(cells: seq<Cell>, m: nat)
    requires IsTidy(cells) && m <= |cells| && (m < |cells| ==> !IsSpace(cells[m].ch))
    ensures IsTidy(cells[m..])
  {
    var out := cells[m..];
    forall i | 0 < i < |out| ensures NotBothSpaces(out, i) { assert NotBothSpaces(cells, m + i); }
  }

  // ---------- every kept character is said ----------

  ghost predicate Outside(rs: seq<Replacement>, p: nat) { forall k :: 0 <= k < |rs| ==> p < rs[k].start || rs[k].end <= p }

  /** Every character outside the replacements is in the spliced text, once. */
  lemma {:induction false} SplicedUpToHas(source: Text, rs: seq<Replacement>, p: nat)
    requires InOrder(source, rs) && p < CursorAfter(rs) && Outside(rs, p)
    ensures p < |source| && Cell(source[p], p, false) in SplicedUpTo(source, rs)
  {
    var n := |rs| - 1;
    assert n > 0 ==> rs[n - 1].end <= rs[n].start;
    if p < CursorAfter(rs[..n]) {
      SplicedUpToHas(source, rs[..n], p);
    } else {
      assert p < rs[n].start;
      assert Keep(source, CursorAfter(rs[..n]), rs[n].start)[p - CursorAfter(rs[..n])] == Cell(source[p], p, false);
    }
  }

  lemma SplicedHas(source: Text, rs: seq<Replacement>, p: nat)
    requires InOrder(source, rs) && p < |source| && Outside(rs, p)
    ensures Cell(source[p], p, false) in Spliced(source, rs)
  {
    if p < CursorAfter(rs) {
      SplicedUpToHas(source, rs, p);
    } else {
      assert Keep(source, CursorAfter(rs), |source|)[p - CursorAfter(rs)] == Cell(source[p], p, false);
    }
  }

  lemma {:induction false} SolidHas(cells: seq<Cell>, c: Cell)
    ensures c in Solid(cells) <==> c in cells && !IsSpace(c.ch)
  {
    if cells != [] {
      SolidHas(cells[..|cells| - 1], c);
      assert cells == cells[..|cells| - 1] + [cells[|cells| - 1]];
    }
  }

  /** A character outside every replacement, not white space and not a comma, is said and points to itself. */
  lemma KeptCharacterIsSaid(source: Text, cands: seq<Candidate>, p: nat)
    requires InText(source, cands) && p < |source| && Outside(ReplacementsOf(cands), p) && !IsSpace(source[p]) && source[p] != COMMA
    ensures Cell(source[p], p, false) in Prepared(source, cands)
  {
    ChosenAreApart(source, cands);
    SortedIsInOrder(source, Chosen(cands));
    var cells := Spliced(source, ReplacementsOf(cands));
    var c := Cell(source[p], p, false);
    SplicedHas(source, ReplacementsOf(cands), p);
    SolidHas(cells, c);
    SolidHas(Tidied(cells), c);
    TidiedKeepsSolid(cells);
    if Solid(Tidied(cells)) != Solid(cells) {
      assert Solid(cells) == [Solid(cells)[0]] + Solid(cells)[1..];
    }
  }

  // ---------- looking positions up ----------

  function Clamped(i: int, n: nat): nat
    requires n > 0
    ensures Clamped(i, n) < n
  {
    if i < 0 then 0 else if i < n then i else n - 1
  }

  function At(cells: seq<Cell>, i: int): nat { if cells == [] then 0 else cells[Clamped(i, |cells|)].at }

  /** Positions looked up stay in the text and never go back, for any index. */
  lemma LookupIsMonotone(source: Text, cells: seq<Cell>, i: int, j: int)
    requires MapOk(source, cells) && i <= j
    ensures At(cells, i) <= At(cells, j)
    ensures cells != [] ==> At(cells, i) < |source|
  {
    if cells != [] {
      assert CellOk(source, cells[Clamped(i, |cells|)]);
      if Clamped(i, |cells|) < Clamped(j, |cells|) { assert Follows(cells[Clamped(i, |cells|)], cells[Clamped(j, |cells|)]); }
    }
  }

  // ---------- prepared texts ----------

  const SPOKEN_MAX_CHARS: nat := 8000

  ghost predicate LawfulWords(words: Text -> seq<Span>) { forall t :: IsTokenisation(t, words(t)) }

  datatype Alignment = Alignment(shown: seq<Span>, said: seq<Span>)

  /** Word by word, when both texts have the same words. */
  function Align(words: Text -> seq<Span>, key: Text -> Text, display: Text, prepared: Text): Option<Alignment> {
    var shown, said := words(display), words(prepared);
    if |prepared| > SPOKEN_MAX_CHARS || |shown| == 0 || |shown| != |said| then None
    else if exists i :: 0 <= i < |shown| && key(Sliced(display, shown[i])) != key(Sliced(prepared, said[i])) then None
    else Some(Alignment(shown, said))
  }

  function Sliced(t: Text, w: Span): Text { if w.start <= w.end <= |t| then t[w.start..w.end] else [] }

  /** The first word that ends after position i. */
  function WordAt(said: seq<Span>, i: nat): (w: nat)
    ensures w <= |said| && (w < |said| ==> i < said[w].end) && forall k :: 0 <= k < w ==> said[k].end <= i
  {
    if said == [] then 0
    else
      var n := |said| - 1;
      var w := WordAt(said[..n], i);
      if w < n then w else if i < said[n].end then n else n + 1
  }

  /** Inside a word the same letter, elsewhere the end of the word before. */
  function ShownAt(a: Alignment, i: nat): nat
    requires |a.shown| == |a.said| && |a.shown| > 0
  {
    var w := WordAt(a.said, i);
    if w < |a.said| && i >= a.said[w].start then
      var len := a.shown[w].end as int - a.shown[w].start - 1;
      var off := i - a.said[w].start;
      var p := a.shown[w].start + (if off < len then off else len);
      if p < 0 then 0 else p
    else if w == 0 then a.shown[0].start
    else a.shown[w - 1].end
  }

  ghost predicate AlignmentOk(a: Alignment, display: Text, prepared: Text) {
    |a.shown| == |a.said| && |a.shown| > 0 && IsTokenisation(display, a.shown) && IsTokenisation(prepared, a.said)
  }

  /** Two texts can be aligned exactly when they have the same words, at least one, and the prepared one is not too long. */
  lemma AlignsIff(words: Text -> seq<Span>, key: Text -> Text, display: Text, prepared: Text)
    ensures var a := Align(words, key, display, prepared); var shown, said := words(display), words(prepared);
      && (a.Some? <==> |prepared| <= 8000 && 0 < |shown| == |said| && forall i :: 0 <= i < |shown| ==> key(Sliced(display, shown[i])) == key(Sliced(prepared, said[i])))
      && (a.Some? ==> a.value.shown == shown && a.value.said == said && (LawfulWords(words) ==> AlignmentOk(a.value, display, prepared)))
  {
    if LawfulWords(words) { assert IsTokenisation(display, words(display)) && IsTokenisation(prepared, words(prepared)); }
  }

  /** Between two words of the prepared text the end of the displayed word before is shown, before the first word the start of its first. */
  lemma BetweenWords(a: Alignment, display: Text, prepared: Text, w: nat, i: nat)
    requires AlignmentOk(a, display, prepared) && w <= |a.said| && (w > 0 ==> a.said[w - 1].end <= i) && (w < |a.said| ==> i < a.said[w].start)
    ensures ShownAt(a, i) == if w == 0 then a.shown[0].start else a.shown[w - 1].end
  {
    forall k | 0 <= k < w ensures a.said[k].end <= i { if k < w - 1 { assert a.said[k].end <= a.said[w - 1].start; } }
    if w < |a.said| { WordAtIs(a.said, i, w); } else { assert WordAt(a.said, i) == w; }
  }

  /** Letters of a spoken word point into the displayed word it is paired with. */
  lemma InsideWord(a: Alignment, display: Text, prepared: Text, w: nat, i: nat)
    requires AlignmentOk(a, display, prepared) && w < |a.said| && a.said[w].start <= i < a.said[w].end
    ensures a.shown[w].start <= ShownAt(a, i) < a.shown[w].end
    ensures i - a.said[w].start < a.shown[w].end - a.shown[w].start ==> ShownAt(a, i) - a.shown[w].start == i - a.said[w].start
  {
    forall k | 0 <= k < w ensures a.said[k].end <= i { assert a.said[k].end <= a.said[w].start; }
    WordAtIs(a.said, i, w);
  }

  lemma WordAtIs(said: seq<Span>, i: nat, w: nat)
    requires w < |said| && i < said[w].end && forall k :: 0 <= k < w ==> said[k].end <= i
    ensures WordAt(said, i) == w
  {
  }

  lemma WordAtIsMonotone(said: seq<Span>, i: nat, j: nat)
    requires i <= j
    ensures WordAt(said, i) <= WordAt(said, j)
  {
  }

  lemma ShownInRange(a: Alignment, display: Text, prepared: Text, i: nat)
    requires AlignmentOk(a, display, prepared)
    ensures ShownAt(a, i) <= |display|
  {
  }

  /** Where the words around position i put it. */
  lemma ShownBounds(a: Alignment, display: Text, prepared: Text, i: nat)
    requires AlignmentOk(a, display, prepared)
    ensures var w := WordAt(a.said, i);
      && (w > 0 ==> a.shown[w - 1].end <= ShownAt(a, i))
      && (w < |a.said| ==> ShownAt(a, i) < a.shown[w].end)
  {
    var w := WordAt(a.said, i);
    if 0 < w < |a.said| { assert a.shown[w - 1].end <= a.shown[w].start; }
  }

  /** Later characters of the prepared text are never shown earlier. */
  lemma ShownIsMonotone(a: Alignment, display: Text, prepared: Text, i: nat, j: nat)
    requires AlignmentOk(a, display, prepared) && i <= j
    ensures ShownAt(a, i) <= ShownAt(a, j)
  {
    var v, w := WordAt(a.said, i), WordAt(a.said, j);
    WordAtIsMonotone(a.said, i, j);
    ShownBounds(a, display, prepared, i);
    ShownBounds(a, display, prepared, j);
    if v < w { assert v < w - 1 ==> a.shown[v].end <= a.shown[w - 1].start; }
  }

  /** A position of what the voice reads, through the prepared text, in the displayed text. */
  function DisplayAt(a: Alignment, prepared: Text, cands: seq<Candidate>, spokenIndex: int): nat
    requires InText(prepared, cands) && |a.shown| == |a.said| && |a.shown| > 0
  {
    if prepared == [] then 0 else ShownAt(a, Clamped(At(Prepared(prepared, cands), spokenIndex), |prepared|))
  }

  /** The highlight follows the voice through both maps without ever going back. */
  lemma DisplayIsMonotone(a: Alignment, display: Text, prepared: Text, cands: seq<Candidate>, i: int, j: int)
    requires AlignmentOk(a, display, prepared) && InText(prepared, cands) && i <= j
    ensures DisplayAt(a, prepared, cands, i) <= DisplayAt(a, prepared, cands, j) <= |display|
  {
    PreparedMapOk(prepared, cands);
    var cells := Prepared(prepared, cands);
    LookupIsMonotone(prepared, cells, i, j);
    if prepared != [] {
      ShownIsMonotone(a, display, prepared, Clamped(At(cells, i), |prepared|), Clamped(At(cells, j), |prepared|));
      ShownInRange(a, display, prepared, Clamped(At(cells, j), |prepared|));
    }
  }

  // ---------- as it runs ----------

  function CharsOf(cells: seq<Cell>): (r: Text)
    ensures |r| == |cells| && forall i :: 0 <= i < |r| ==> r[i] == cells[i].ch
  {
    seq(|cells|, i requires 0 <= i < |cells| => cells[i].ch)
  }

  function MapOf(cells: seq<Cell>): (r: seq<nat>)
    ensures |r| == |cells| && forall i :: 0 <= i < |r| ==> r[i] == cells[i].at
  {
    seq(|cells|, i requires 0 <= i < |cells| => cells[i].at)
  }

  method ChooseReplacements(source: Text, cands: seq<Candidate>) returns (rs: seq<Replacement>)
    requires InText(source, cands)
    ensures rs == ReplacementsOf(cands) && InOrder(source, rs)
  {
    rs := [];
    for i := 0 to |cands|
      invariant rs == Chosen(cands[..i])
    {
      assert cands[..i + 1][..i] == cands[..i];
      var c := cands[i];
      if c.start == c.end || Taken(rs, c.start, c.end) || c.said.None? { continue; }
      rs := rs + [Replacement(c.start, c.end, c.said.value)];
    }
    assert cands[..|cands|] == cands;
    ChosenAreApart(source, cands);
    SortedIsInOrder(source, Chosen(cands));
    rs := Sorted(rs);
  }

  method Splice(source: Text, rs: seq<Replacement>) returns (out: Text, map_: seq<nat>)
    requires InOrder(source, rs)
    ensures out == CharsOf(Spliced(source, rs)) && map_ == MapOf(Spliced(source, rs))
  {
    out, map_ := [], [];
    var cursor := 0;
    for k := 0 to |rs|
      invariant cursor == CursorAfter(rs[..k]) && cursor <= |source|
      invariant out == CharsOf(SplicedUpTo(source, rs[..k])) && map_ == MapOf(SplicedUpTo(source, rs[..k]))
    {
      assert rs[..k + 1][..k] == rs[..k];
      assert k > 0 ==> rs[k - 1].end <= rs[k].start;
      out, map_ := PushKept(source, cursor, rs[k].start, out, map_, SplicedUpTo(source, rs[..k]));
      out, map_ := PushSaid(rs[k], out, map_, SplicedUpTo(source, rs[..k]) + Keep(source, cursor, rs[k].start));
      cursor := rs[k].end;
    }
    assert rs[..|rs|] == rs;
    out, map_ := PushKept(source, cursor, |source|, out, map_, SplicedUpTo(source, rs));
  }

  method PushKept(source: Text, a: nat, b: nat, out0: Text, map0: seq<nat>, ghost cells: seq<Cell>) returns (out: Text, map_: seq<nat>)
    requires a <= b <= |source| && out0 == CharsOf(cells) && map0 == MapOf(cells)
    ensures out == CharsOf(cells + Keep(source, a, b)) && map_ == MapOf(cells + Keep(source, a, b))
  {
    out, map_ := out0, map0;
    for i := a to b
      invariant |out| == |map_| == |cells| + (i - a)
      invariant forall k :: 0 <= k < |cells| ==> out[k] == cells[k].ch && map_[k] == cells[k].at
      invariant forall k :: |cells| <= k < |out| ==> out[k] == source[a + k - |cells|] && map_[k] == a + k - |cells|
    {
      out, map_ := out + [source[i]], map_ + [i];
    }
  }

  method PushSaid(r: Replacement, out0: Text, map0: seq<nat>, ghost cells: seq<Cell>) returns (out: Text, map_: seq<nat>)
    requires out0 == CharsOf(cells) && map0 == MapOf(cells)
    ensures out == CharsOf(cells + Say(r)) && map_ == MapOf(cells + Say(r))
  {
    out, map_ := out0, map0;
    for i := 0 to |r.said|
      invariant |out| == |map_| == |cells| + i
      invariant forall k :: 0 <= k < |cells| ==> out[k] == cells[k].ch && map_[k] == cells[k].at
      invariant forall k :: |cells| <= k < |out| ==> out[k] == r.said[k - |cells|] && map_[k] == r.start
    {
      out, map_ := out + [r.said[i]], map_ + [r.start];
    }
  }

  method Collapse(out: Text, map_: seq<nat>, ghost cells: seq<Cell>) returns (text: Text, finalMap: seq<nat>)
    requires out == CharsOf(cells) && map_ == MapOf(cells)
    ensures text == CharsOf(Collapsed(cells)) && finalMap == MapOf(Collapsed(cells))
  {
    text, finalMap := [], [];
    for i := 0 to |out|
      invariant text == CharsOf(Collapsed(cells[..i])) && finalMap == MapOf(Collapsed(cells[..i]))
    {
      assert cells[..i + 1][..i] == cells[..i];
      var isSpace := IsSpace(out[i]);
      if isSpace && (text == [] || text[|text| - 1] == SPACE) { continue; }
      text, finalMap := text + [if isSpace then SPACE else out[i]], finalMap + [map_[i]];
    }
    assert cells[..|out|] == cells;
  }

  method TrimEnd(text0: Text, map0: seq<nat>, ghost cells: seq<Cell>) returns (text: Text, finalMap: seq<nat>)
    requires text0 == CharsOf(cells) && map0 == MapOf(cells)
    ensures text == CharsOf(WithoutTail(cells)) && finalMap == MapOf(WithoutTail(cells))
  {
    text, finalMap := text0, map0;
    ghost var rest := cells;
    while text != [] && text[|text| - 1] == SPACE
      invariant text == CharsOf(rest) && finalMap == MapOf(rest) && WithoutTail(rest) == WithoutTail(cells)
    {
      rest := rest[..|rest| - 1];
      text, finalMap := text[..|text| - 1], finalMap[..|finalMap| - 1];
    }
  }

  method TrimStart(text0: Text, ghost cells: seq<Cell>) returns (text: Text)
    requires text0 == CharsOf(cells)
    ensures text == CharsOf(WithoutHead(cells))
  {
    text := text0;
    ghost var rest := cells;
    while text != [] && IsSpace(text[0])
      invariant text == CharsOf(rest) && WithoutHead(rest) == WithoutHead(cells)
    {
      rest := rest[1..];
      text := text[1..];
    }
  }

  /** Drops a comma at the start and the white space after it; the map loses as many entries at the front. */
  method DropComma(text0: Text, map0: seq<nat>, ghost cells: seq<Cell>) returns (text: Text, finalMap: seq<nat>)
    requires text0 == CharsOf(cells) && map0 == MapOf(cells)
    ensures text == CharsOf(WithoutComma(cells)) && finalMap == MapOf(WithoutComma(cells))
  {
    text, finalMap := text0, map0;
    if text != [] && text[0] == COMMA {
      text := TrimStart(text[1..], cells[1..]);
      ghost var n := WithoutHeadIsSuffix(cells[1..]);
      finalMap := finalMap[|finalMap| - |text|..];
    }
  }

  /** The spoken text and its map. */
  method PrepareSpokenText(source: Text, cands: seq<Candidate>) returns (text: Text, finalMap: seq<nat>)
    requires InText(source, cands)
    ensures text == CharsOf(Prepared(source, cands)) && finalMap == MapOf(Prepared(source, cands))
  {
    var rs := ChooseReplacements(source, cands);
    var out, map_ := Splice(source, rs);
    ghost var cells := Spliced(source, rs);
    text, finalMap := Collapse(out, map_, cells);
    text, finalMap := TrimEnd(text, finalMap, Collapsed(cells));
    text, finalMap := DropComma(text, finalMap, WithoutTail(Collapsed(cells)));
  }

  /** Position in the displayed text of every character of the prepared one. */
  method PreparedMap(a: Alignment, display: Text, prepared: Text) returns (map_: seq<nat>)
    requires AlignmentOk(a, display, prepared)
    ensures |map_| == |prepared| && forall i :: 0 <= i < |prepared| ==> map_[i] == ShownAt(a, i)
  {
    map_ := [];
    var w := 0;
    for i := 0 to |prepared|
      invariant |map_| == i && forall k :: 0 <= k < i ==> map_[k] == ShownAt(a, k)
      invariant 0 <= w <= |a.said| && forall k :: 0 <= k < w ==> a.said[k].end <= i
    {
      w := WordFrom(a.said, i, w);
      var p := ShownFrom(a, i, w);
      map_ := map_ + [p];
    }
  }

  /** The first word that ends after i, looked for from word w on. */
  method WordFrom(said: seq<Span>, i: nat, before: nat) returns (w: nat)
    requires before <= |said| && forall k :: 0 <= k < before ==> said[k].end <= i
    ensures w == WordAt(said, i) && forall k :: 0 <= k < w ==> said[k].end <= i
    ensures w <= |said|
  {
    w := before;
    while w < |said| && i >= said[w].end
      invariant w <= |said| && forall k :: 0 <= k < w ==> said[k].end <= i
    {
      w := w + 1;
    }
    if w < |said| { WordAtIs(said, i, w); }
  }

  method ShownFrom(a: Alignment, i: nat, w: nat) returns (p: nat)
    requires |a.shown| == |a.said| && |a.shown| > 0 && w == WordAt(a.said, i)
    requires w < |a.shown| ==> a.shown[w].start < a.shown[w].end
    ensures p == ShownAt(a, i)
  {
    if w < |a.said| && i >= a.said[w].start {
      var off, len := i - a.said[w].start, a.shown[w].end - a.shown[w].start - 1;
      p := a.shown[w].start + if off < len then off else len;
    } else {
      p := if w == 0 then a.shown[0].start else a.shown[w - 1].end;
    }
  }
}
