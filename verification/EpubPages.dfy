module EpubPages {
  // Grouping the blocks of an imported book into pages, cutting only between blocks.

  import opened Utf16
  import opened EpubText

  const TARGET_CHARS: nat := 1800
  const MAX_CHARS: nat := 2500
  const MAX_BLOCKS: nat := 120
  const MAX_PAGES: nat := 500

  datatype Block = Block(title: bool, text: Text)

  type Page = seq<Block>

  /** Pages closed so far, the blocks of the page being filled, and its size. */
  datatype Paging = Paging(pages: seq<Page>, current: Page, size: nat)

  function Total(blocks: Page): nat {
    if blocks == [] then 0 else Total(blocks[..|blocks| - 1]) + |blocks[|blocks| - 1].text|
  }

  function Flatten(pages: seq<Page>): Page {
    if pages == [] then [] else Flatten(pages[..|pages| - 1]) + pages[|pages| - 1]
  }

  predicate HasParagraph(blocks: Page) { exists i :: 0 <= i < |blocks| && !blocks[i].title }

  predicate HasTitle(blocks: Page) { exists i :: 0 <= i < |blocks| && blocks[i].title }

  /** How many of the first n blocks stay when the titles at the end are carried over; the first block always stays. */
  function KeptCount(blocks: Page, n: nat): (r: nat)
    requires n <= |blocks|
    ensures r <= n && (n > 0 ==> r > 0)
    ensures forall i :: r <= i < n ==> blocks[i].title
    ensures r > 1 ==> !blocks[r - 1].title
  {
    if n > 1 && blocks[n - 1].title then KeptCount(blocks, n - 1) else n
  }

  function Closed(st: Paging, keepTitleWithNext: bool): Paging {
    var n := if keepTitleWithNext then KeptCount(st.current, |st.current|) else |st.current|;
    Paging(if n > 0 then st.pages + [st.current[..n]] else st.pages, st.current[n..], Total(st.current[n..]))
  }

  function Off(a: nat, b: nat): nat { if a < b then b - a else a - b }

  /** Whether a block of this length starts a new page. */
  predicate BreaksBefore(st: Paging, length: nat) {
    && HasParagraph(st.current)
    && (|st.current| >= MAX_BLOCKS
        || st.size + length > MAX_CHARS
        || (st.size + length > TARGET_CHARS && Off(st.size + length, TARGET_CHARS) >= Off(st.size, TARGET_CHARS)))
  }

  function Added(st: Paging, b: Block): Paging {
    var ready := if st.current != [] && BreaksBefore(st, |b.text|) then Closed(st, true) else st;
    Paging(ready.pages, ready.current + [b], ready.size + |b.text|)
  }

  function AddedAll(st: Paging, blocks: Page): Paging {
    if blocks == [] then st else Added(AddedAll(st, blocks[..|blocks| - 1]), blocks[|blocks| - 1])
  }

  function AddedChapter(st: Paging, blocks: Page): Paging {
    if blocks == [] then st else AddedAll(if HasTitle(blocks) then Closed(st, false) else st, blocks)
  }

  function AddedChapters(chapters: seq<Page>): Paging {
    if chapters == [] then Paging([], [], 0)
    else AddedChapter(AddedChapters(chapters[..|chapters| - 1]), chapters[|chapters| - 1])
  }

  function PagesOf(chapters: seq<Page>): seq<Page> { Closed(AddedChapters(chapters), false).pages }

  datatype Result = Pages(pages: seq<Page>) | TooManyPages

  // ---------- what every step keeps ----------

  /**
   * Once a page has a paragraph, no further block takes it past 2500 characters or 120 blocks, nor past 1800 characters unless
   * that brings it nearer to 1800.
   */
  ghost predicate PageFits(page: Page) {
    forall i :: 0 < i < |page| && HasParagraph(page[..i]) ==> FitsAt(page, i)
  }

  ghost predicate FitsAt(page: Page, i: nat)
    requires i < |page|
  {
    var before, size := Total(page[..i]), Total(page[..i + 1]);
    i + 1 <= MAX_BLOCKS && size <= MAX_CHARS && (size > TARGET_CHARS ==> Off(size, TARGET_CHARS) < Off(before, TARGET_CHARS))
  }

  /** Blocks in the first k pages. */
  function Count(pages: seq<Page>, k: nat): nat
    requires k <= |pages|
  {
    if k == 0 then 0 else Count(pages, k - 1) + |pages[k - 1]|
  }

  /** The page ends with a paragraph, or where a titled chapter (or nothing) follows. */
  ghost predicate EndsWell(pages: seq<Page>, k: nat, starts: set<nat>)
    requires k < |pages|
  {
    pages[k] != [] && (!pages[k][|pages[k]| - 1].title || Count(pages, k + 1) in starts)
  }

  /** A page starts at block number s. */
  ghost predicate StartsAt(pages: seq<Page>, s: nat) { exists k :: 0 <= k <= |pages| && Count(pages, k) == s }

  ghost predicate PagesOk(pages: seq<Page>, starts: set<nat>) {
    && (forall k :: 0 <= k < |pages| ==> PageFits(pages[k]) && EndsWell(pages, k, starts))
    && (forall s :: s in starts ==> StartsAt(pages, s))
  }

  ghost predicate PagingOk(st: Paging, blocks: Page, starts: set<nat>) {
    && Flatten(st.pages) + st.current == blocks && st.size == Total(st.current)
    && PageFits(st.current) && PagesOk(st.pages, starts)
  }

  lemma {:induction false} CountIsLength(pages: seq<Page>)
    ensures Count(pages, |pages|) == |Flatten(pages)|
  {
    if pages != [] {
      var init := pages[..|pages| - 1];
      CountIsLength(init);
      CountSame(pages, init, |init|);
    }
  }

  lemma {:induction false} CountSame(a: seq<Page>, b: seq<Page>, k: nat)
    requires k <= |a| && k <= |b| && forall i :: 0 <= i < k ==> a[i] == b[i]
    ensures Count(a, k) == Count(b, k)
  {
    if k > 0 { CountSame(a, b, k - 1); }
  }

  lemma TotalAppend(blocks: Page, b: Block)
    ensures Total(blocks + [b]) == Total(blocks) + |b.text|
  {
    assert (blocks + [b])[..|blocks|] == blocks;
  }

  lemma PrefixFits(page: Page, n: nat)
    requires PageFits(page) && n <= |page|
    ensures PageFits(page[..n])
  {
    var p := page[..n];
    forall i | 0 < i < |p| && HasParagraph(p[..i]) ensures FitsAt(p, i) {
      assert p[..i] == page[..i] && p[..i + 1] == page[..i + 1];
      assert FitsAt(page, i);
    }
  }

  lemma TitlesFit(page: Page)
    requires !HasParagraph(page)
    ensures PageFits(page)
  {
    forall i | 0 < i < |page| ensures !HasParagraph(page[..i]) {}
  }

  /** One more page, which ends well. */
  lemma PageAdded(pages: seq<Page>, page: Page, starts: set<nat>, more: set<nat>)
    requires PagesOk(pages, starts) && PageFits(page) && page != []
    requires starts <= more && forall s :: s in more && s !in starts ==> s == |Flatten(pages)| + |page|
    requires !page[|page| - 1].title || |Flatten(pages)| + |page| in more
    ensures PagesOk(pages + [page], more)
  {
    var all := pages + [page];
    CountIsLength(pages);
    forall k | 0 <= k <= |pages| ensures Count(all, k) == Count(pages, k) { CountSame(all, pages, k); }
    forall k | 0 <= k < |all| ensures PageFits(all[k]) && EndsWell(all, k, more) {
      if k < |pages| { assert EndsWell(pages, k, starts); }
    }
    forall s | s in more ensures StartsAt(all, s) {
      if s in starts {
        var k :| 0 <= k <= |pages| && Count(pages, k) == s;
        assert Count(all, k) == s;
      } else {
        assert Count(all, |all|) == s;
      }
    }
  }

  lemma FlattenAppend(pages: seq<Page>, page: Page)
    ensures Flatten(pages + [page]) == Flatten(pages) + page
  {
    assert (pages + [page])[..|pages|] == pages;
  }

  lemma KeptHasParagraph(blocks: Page)
    requires HasParagraph(blocks)
    ensures var n := KeptCount(blocks, |blocks|); n > 0 && !blocks[n - 1].title && !HasParagraph(blocks[n..])
  {
    var n := KeptCount(blocks, |blocks|);
    var i :| 0 <= i < |blocks| && !blocks[i].title;
    assert i < n;
    if n == 1 { assert i == 0; }
  }

  /** A full page is closed at a paragraph; the titles after it go to the next page. */
  lemma FullPageOk(st: Paging, blocks: Page, starts: set<nat>)
    requires PagingOk(st, blocks, starts) && HasParagraph(st.current)
    ensures PagingOk(Closed(st, true), blocks, starts) && !HasParagraph(Closed(st, true).current)
  {
    KeptHasParagraph(st.current);
    var n := KeptCount(st.current, |st.current|);
    PrefixFits(st.current, n);
    TitlesFit(st.current[n..]);
    CutAt(st, blocks, starts, n);
  }

  lemma CutAt(st: Paging, blocks: Page, starts: set<nat>, n: nat)
    requires PagingOk(st, blocks, starts) && 0 < n <= |st.current| && !st.current[n - 1].title
    requires PageFits(st.current[..n]) && PageFits(st.current[n..])
    ensures PagingOk(Paging(st.pages + [st.current[..n]], st.current[n..], Total(st.current[n..])), blocks, starts)
  {
    var page, carried := st.current[..n], st.current[n..];
    assert st.current == page + carried;
    PageAdded(st.pages, page, starts, starts);
    CutText(st.pages, page, carried);
  }

  lemma CutText(pages: seq<Page>, page: Page, carried: Page)
    ensures Flatten(pages + [page]) + carried == Flatten(pages) + (page + carried)
  {
    FlattenAppend(pages, page);
    assert Flatten(pages) + (page + carried) == (Flatten(pages) + page) + carried;
  }

  /** Closing before a titled chapter, or at the end of the book: the page ends wherever the blocks do. */
  lemma ChapterEndOk(st: Paging, blocks: Page, starts: set<nat>)
    requires PagingOk(st, blocks, starts)
    ensures PagingOk(Closed(st, false), blocks, starts + {|blocks|}) && Closed(st, false).current == []
  {
    var n := |st.current|;
    assert st.current[..n] == st.current && st.current[n..] == [];
    if n > 0 { LastPageOk(st, blocks, starts); } else { NoPageOk(st, blocks, starts); }
  }

  lemma LastPageOk(st: Paging, blocks: Page, starts: set<nat>)
    requires PagingOk(st, blocks, starts) && st.current != []
    ensures PagingOk(Paging(st.pages + [st.current], [], 0), blocks, starts + {|blocks|})
  {
    PageAdded(st.pages, st.current, starts, starts + {|blocks|});
    FlattenAppend(st.pages, st.current);
    assert blocks + [] == blocks;
  }

  lemma NoPageOk(st: Paging, blocks: Page, starts: set<nat>)
    requires PagingOk(st, blocks, starts) && st.current == []
    ensures PagingOk(st, blocks, starts + {|blocks|})
  {
    CountIsLength(st.pages);
    assert Flatten(st.pages) + [] == Flatten(st.pages);
    BoundaryAdded(st.pages, starts, |blocks|);
  }

  lemma BoundaryAdded(pages: seq<Page>, starts: set<nat>, s: nat)
    requires PagesOk(pages, starts) && s == Count(pages, |pages|)
    ensures PagesOk(pages, starts + {s})
  {
    forall k | 0 <= k < |pages| ensures EndsWell(pages, k, starts + {s}) { assert EndsWell(pages, k, starts); }
    assert StartsAt(pages, s);
  }

  lemma PushOk(st: Paging, blocks: Page, starts: set<nat>, b: Block)
    requires PagingOk(st, blocks, starts)
    requires HasParagraph(st.current) ==>
      (|st.current| < MAX_BLOCKS && st.size + |b.text| <= MAX_CHARS
       && (st.size + |b.text| > TARGET_CHARS ==> Off(st.size + |b.text|, TARGET_CHARS) < Off(st.size, TARGET_CHARS)))
    ensures PagingOk(Paging(st.pages, st.current + [b], st.size + |b.text|), blocks + [b], starts)
  {
    var page := st.current + [b];
    TotalAppend(st.current, b);
    assert Flatten(st.pages) + page == (Flatten(st.pages) + st.current) + [b];
    forall i | 0 < i < |page| && HasParagraph(page[..i]) ensures FitsAt(page, i) {
      if i < |st.current| {
        assert page[..i] == st.current[..i] && page[..i + 1] == st.current[..i + 1];
        assert FitsAt(st.current, i);
      } else {
        assert page[..i] == st.current && page[..i + 1] == page;
      }
    }
  }

  lemma AddedOk(st: Paging, blocks: Page, starts: set<nat>, b: Block)
    requires PagingOk(st, blocks, starts)
    ensures PagingOk(Added(st, b), blocks + [b], starts)
  {
    if st.current != [] && BreaksBefore(st, |b.text|) {
      FullPageOk(st, blocks, starts);
      PushOk(Closed(st, true), blocks, starts, b);
    } else {
      PushOk(st, blocks, starts, b);
    }
  }

  lemma JoinLast(before: Page, blocks: Page)
    requires blocks != []
    ensures before + blocks == (before + blocks[..|blocks| - 1]) + [blocks[|blocks| - 1]]
  {
  }

  lemma {:induction false} AddedAllOk(st: Paging, before: Page, starts: set<nat>, blocks: Page)
    requires PagingOk(st, before, starts)
    ensures PagingOk(AddedAll(st, blocks), before + blocks, starts)
  {
    if blocks == [] {
      assert before + blocks == before;
    } else {
      var init, b := blocks[..|blocks| - 1], blocks[|blocks| - 1];
      AddedAllOk(st, before, starts, init);
      var mid := AddedAll(st, init);
      AddedOk(mid, before + init, starts, b);
      JoinLast(before, blocks);
    }
  }

  /** Where the titled chapters start, as block numbers. */
  function TitledStarts(chapters: seq<Page>): set<nat> {
    if chapters == [] then {}
    else
      var n := |chapters| - 1;
      TitledStarts(chapters[..n]) + if HasTitle(chapters[n]) then {|Flatten(chapters[..n])|} else {}
  }

  lemma {:induction false} AddedChaptersOk(chapters: seq<Page>)
    ensures PagingOk(AddedChapters(chapters), Flatten(chapters), TitledStarts(chapters))
  {
    if chapters != [] {
      var n := |chapters| - 1;
      AddedChaptersOk(chapters[..n]);
      AddedChapterOk(AddedChapters(chapters[..n]), Flatten(chapters[..n]), TitledStarts(chapters[..n]), chapters[n]);
    }
  }

  lemma AddedChapterOk(st: Paging, before: Page, starts: set<nat>, c: Page)
    requires PagingOk(st, before, starts)
    ensures PagingOk(AddedChapter(st, c), before + c, starts + if HasTitle(c) then {|before|} else {})
  {
    if c == [] {
      assert before + c == before;
      assert starts + {} == starts;
    } else if HasTitle(c) {
      ChapterEndOk(st, before, starts);
      AddedAllOk(Closed(st, false), before, starts + {|before|}, c);
    } else {
      AddedAllOk(st, before, starts, c);
      assert starts + {} == starts;
    }
  }

  // ---------- no page is closed early ----------

  /** A page of these blocks cannot take another: it is full, or nearer to 1800 characters without it. */
  predicate CannotTake(page: Page, b: Block) {
    var size := Total(page);
    var next := size + |b.text|;
    |page| >= 120 || next > 2500 || (next > 1800 && (if size > 1800 then size - 1800 else 1800 - size) <= next - 1800)
  }

  /** The page with the titles carried over from it to the next page, which are its first j blocks, could not take block j. */
  predicate FilledAt(page: Page, next: Page, j: nat)
    requires j < |next|
  {
    (forall i :: 0 <= i < j ==> next[i].title) && HasParagraph(page) && CannotTake(page + next[..j], next[j])
  }

  ghost predicate Filled(page: Page, next: Page) { exists j: nat :: j < |next| && FilledAt(page, next, j) }

  /** Every page but the last is filled, or ends where a titled chapter starts. */
  ghost predicate AllFilled(pages: seq<Page>, starts: set<nat>) {
    forall k :: 0 <= k < |pages| - 1 ==> Count(pages, k + 1) in starts || Filled(pages[k], pages[k + 1])
  }

  ghost predicate FillingOk(st: Paging, starts: set<nat>) {
    AllFilled(st.pages, starts)
    && (st.pages != [] ==> Count(st.pages, |st.pages|) in starts || Filled(st.pages[|st.pages| - 1], st.current))
  }

  lemma FilledMore(page: Page, next: Page, more: Page)
    requires Filled(page, next) && next <= more
    ensures Filled(page, more)
  {
    var j: nat :| j < |next| && FilledAt(page, next, j);
    assert more[..j] == next[..j];
    assert FilledAt(page, more, j);
  }

  /** Cut behind a paragraph, the next page is still one that its predecessor was filled for. */
  lemma FilledCut(page: Page, next: Page, n: nat)
    requires Filled(page, next) && 0 < n <= |next| && !next[n - 1].title
    ensures Filled(page, next[..n])
  {
    var j: nat :| j < |next| && FilledAt(page, next, j);
    assert next[..n][..j] == next[..j];
    assert FilledAt(page, next[..n], j);
  }

  lemma PageFilled(pages: seq<Page>, page: Page, starts: set<nat>)
    requires AllFilled(pages, starts)
    requires pages != [] ==> Count(pages, |pages|) in starts || Filled(pages[|pages| - 1], page)
    ensures AllFilled(pages + [page], starts)
  {
    var all := pages + [page];
    forall k | 0 <= k < |all| - 1 ensures Count(all, k + 1) in starts || Filled(all[k], all[k + 1]) {
      CountSame(all, pages, k + 1);
      if k + 1 < |pages| {
        assert all[k] == pages[k] && all[k + 1] == pages[k + 1];
      } else {
        assert all[k] == pages[|pages| - 1] && all[k + 1] == page;
      }
    }
  }

  lemma PushFills(st: Paging, starts: set<nat>, b: Block)
    requires FillingOk(st, starts)
    ensures FillingOk(Paging(st.pages, st.current + [b], st.size + |b.text|), starts)
  {
    if st.pages != [] && Filled(st.pages[|st.pages| - 1], st.current) { FilledMore(st.pages[|st.pages| - 1], st.current, st.current + [b]); }
  }

  lemma BreakFills(st: Paging, starts: set<nat>, b: Block)
    requires FillingOk(st, starts) && st.size == Total(st.current) && st.current != [] && BreaksBefore(st, |b.text|)
    ensures FillingOk(Added(st, b), starts)
  {
    var n := KeptCount(st.current, |st.current|);
    var page, carried := st.current[..n], st.current[n..];
    KeptHasParagraph(st.current);
    if st.pages != [] && Filled(st.pages[|st.pages| - 1], st.current) { FilledCut(st.pages[|st.pages| - 1], st.current, n); }
    PageFilled(st.pages, page, starts);
    BrokenIsFilled(st, b, page, carried);
  }

  lemma BrokenIsFilled(st: Paging, b: Block, page: Page, carried: Page)
    requires st.current == page + carried && st.size == Total(st.current) && BreaksBefore(st, |b.text|)
    requires page != [] && !page[|page| - 1].title && !HasParagraph(carried)
    ensures Filled(page, carried + [b])
  {
    var next := carried + [b];
    assert next[..|carried|] == carried && next[|carried|] == b;
    assert CannotTake(page + carried, b);
    assert FilledAt(page, next, |carried|);
  }

  lemma AddedFills(st: Paging, blocks: Page, starts: set<nat>, b: Block)
    requires PagingOk(st, blocks, starts) && FillingOk(st, starts)
    ensures FillingOk(Added(st, b), starts)
  {
    if st.current != [] && BreaksBefore(st, |b.text|) { BreakFills(st, starts, b); } else { PushFills(st, starts, b); }
  }

  lemma {:induction false} AddedAllFills(st: Paging, before: Page, starts: set<nat>, blocks: Page)
    requires PagingOk(st, before, starts) && FillingOk(st, starts)
    ensures FillingOk(AddedAll(st, blocks), starts)
  {
    if blocks != [] {
      var init := blocks[..|blocks| - 1];
      AddedAllFills(st, before, starts, init);
      AddedAllOk(st, before, starts, init);
      AddedFills(AddedAll(st, init), before + init, starts, blocks[|blocks| - 1]);
    }
  }

  /** Closed at a chapter, a page need not be full. */
  lemma ChapterEndFills(st: Paging, starts: set<nat>)
    requires FillingOk(st, starts)
    ensures AllFilled(Closed(st, false).pages, starts)
    ensures FillingOk(Closed(st, false), starts + {|Flatten(st.pages) + st.current|})
  {
    var closed := Closed(st, false);
    assert st.current[..|st.current|] == st.current;
    if st.current != [] {
      PageFilled(st.pages, st.current, starts);
      FlattenAppend(st.pages, st.current);
    }
    CountIsLength(closed.pages);
    assert st.current == [] ==> Flatten(st.pages) + st.current == Flatten(st.pages);
  }

  lemma AddedChapterFills(st: Paging, before: Page, starts: set<nat>, c: Page)
    requires PagingOk(st, before, starts) && FillingOk(st, starts)
    ensures FillingOk(AddedChapter(st, c), starts + if HasTitle(c) then {|before|} else {})
  {
    assert starts + {} == starts;
    if c != [] && HasTitle(c) {
      ChapterEndOk(st, before, starts);
      ChapterEndFills(st, starts);
      AddedAllFills(Closed(st, false), before, starts + {|before|}, c);
    } else if c != [] {
      AddedAllFills(st, before, starts, c);
    }
  }

  lemma {:induction false} AddedChaptersFill(chapters: seq<Page>)
    ensures FillingOk(AddedChapters(chapters), TitledStarts(chapters))
  {
    if chapters != [] {
      var n := |chapters| - 1;
      AddedChaptersFill(chapters[..n]);
      AddedChaptersOk(chapters[..n]);
      AddedChapterFills(AddedChapters(chapters[..n]), Flatten(chapters[..n]), TitledStarts(chapters[..n]), chapters[n]);
    }
  }

  /**
   * Every page that has a next one, unless a titled chapter starts there, is filled: with the titles carried over to the next
   * page it could not have taken the block after them.
   */
  lemma PagesAreFilled(chapters: seq<Page>)
    ensures AllFilled(PagesOf(chapters), TitledStarts(chapters))
  {
    AddedChaptersFill(chapters);
    ChapterEndFills(AddedChapters(chapters), TitledStarts(chapters));
  }

  lemma {:induction false} TotalConcat(a: Page, b: Page)
    ensures Total(a + b) == Total(a) + Total(b)
  {
    if b == [] {
      assert a + b == a;
    } else {
      TotalConcat(a, b[..|b| - 1]);
      assert (a + b)[..|a + b| - 1] == a + b[..|b| - 1];
    }
  }

  lemma {:induction false} FirstPages(pages: seq<Page>)
    requires |pages| >= 2
    ensures pages[0] + pages[1] <= Flatten(pages)
  {
    var n := |pages| - 1;
    if n >= 2 {
      FirstPages(pages[..n]);
    } else {
      assert pages[..n] == [pages[0]] && Flatten([pages[0]]) == [] + pages[0] == pages[0];
    }
  }

  lemma {:induction false} NoTitledStarts(chapters: seq<Page>)
    requires forall c :: c in chapters ==> !HasTitle(c)
    ensures TitledStarts(chapters) == {}
  {
    if chapters != [] { NoTitledStarts(chapters[..|chapters| - 1]); }
  }

  /** Chapters without titles that have at most 1800 characters and 120 blocks between them make at most one page. */
  lemma ShortBookIsOnePage(chapters: seq<Page>)
    requires (forall c :: c in chapters ==> !HasTitle(c)) && Total(Flatten(chapters)) <= 1800 && |Flatten(chapters)| <= 120
    ensures |PagesOf(chapters)| <= 1
  {
    var pages, all := PagesOf(chapters), Flatten(chapters);
    if |pages| >= 2 {
      PagesAreFilled(chapters);
      NoTitledStarts(chapters);
      PagesKeepBlocks(chapters);
      FirstPages(pages);
      assert Filled(pages[0], pages[0 + 1]);
      var j: nat :| j < |pages[1]| && FilledAt(pages[0], pages[1], j);
      FilledIsLong(pages[0], pages[1], j, all);
      assert false;
    }
  }

  lemma FilledIsLong(page: Page, next: Page, j: nat, all: Page)
    requires page + next <= all && j < |next| && FilledAt(page, next, j)
    ensures Total(all) > 1800 || |all| > 120
  {
    var full := page + next[..j] + [next[j]];
    TotalAppend(page + next[..j], next[j]);
    assert all == full + all[|full|..];
    TotalConcat(full, all[|full|..]);
  }

  // ---------- main properties ----------

  /** Pages hold all the blocks of all the chapters, in order. */
  lemma PagesKeepBlocks(chapters: seq<Page>)
    ensures Flatten(PagesOf(chapters)) == Flatten(chapters)
  {
    AddedChaptersOk(chapters);
    ChapterEndOk(AddedChapters(chapters), Flatten(chapters), TitledStarts(chapters));
    var done := Closed(AddedChapters(chapters), false);
    assert Flatten(done.pages) + [] == Flatten(done.pages);
  }

  /**
   * No page is empty; none grows past the limits once it has a paragraph; a page ends with a title only where a titled chapter
   * follows or the book ends; and every titled chapter starts a page.
   */
  lemma PagesAreWellCut(chapters: seq<Page>)
    ensures PagesOk(PagesOf(chapters), TitledStarts(chapters) + {|Flatten(chapters)|})
  {
    AddedChaptersOk(chapters);
    ChapterEndOk(AddedChapters(chapters), Flatten(chapters), TitledStarts(chapters));
  }

  /** A page can end with a title: when the next chapter has one too. */
  lemma PageCanEndWithTitle(a: Block, b: Block)
    requires a.title && b.title
    ensures PagesOf([[a], [b]]) == [[a], [b]]
  {
    assert [[a], [b]][..1] == [[a]] && [[a]][..0] == [];
    assert [a][..0] == [] && [b][..0] == [];
    assert [a][..1] == [a] && [b][..1] == [b];
    assert [a][0].title && [b][0].title;
    assert AddedAll(Paging([], [], 0), [a]) == Added(Paging([], [], 0), a);
    assert AddedChapters([[a]]) == Paging([], [a], |a.text|);
    assert Closed(Paging([], [a], |a.text|), false) == Paging([[a]], [], 0);
    assert AddedAll(Paging([[a]], [], 0), [b]) == Paging([[a]], [b], |b.text|);
  }

  /** The last block of page k, counted through the book. */
  lemma {:induction false} LastOfPage(pages: seq<Page>, k: nat)
    requires k < |pages| && pages[k] != []
    ensures 0 < Count(pages, k + 1) <= |Flatten(pages)| && Flatten(pages)[Count(pages, k + 1) - 1] == pages[k][|pages[k]| - 1]
  {
    var n := |pages| - 1;
    CountIsLength(pages[..n]);
    CountSame(pages, pages[..n], if k < n then k + 1 else n);
    if k < n { LastOfPage(pages[..n], k); }
  }

  predicate EndsWithTitle(page: Page) { page != [] && page[|page| - 1].title }

  /** Block number s of the book follows a title. */
  predicate FollowsTitle(blocks: Page, s: nat) { 0 < s <= |blocks| && blocks[s - 1].title }

  ghost predicate SomePageEndsWithTitle(pages: seq<Page>) { exists k :: 0 <= k < |pages| && EndsWithTitle(pages[k]) }

  ghost predicate SomeStartFollowsTitle(blocks: Page, starts: set<nat>) { exists s :: s in starts && FollowsTitle(blocks, s) }

  lemma TitleEndNeedsStart(pages: seq<Page>, starts: set<nat>)
    requires PagesOk(pages, starts) && SomePageEndsWithTitle(pages)
    ensures SomeStartFollowsTitle(Flatten(pages), starts)
  {
    var k :| 0 <= k < |pages| && EndsWithTitle(pages[k]);
    assert EndsWell(pages, k, starts);
    LastOfPage(pages, k);
    assert FollowsTitle(Flatten(pages), Count(pages, k + 1));
  }

  lemma StartMakesTitleEnd(pages: seq<Page>, starts: set<nat>)
    requires PagesOk(pages, starts) && SomeStartFollowsTitle(Flatten(pages), starts)
    ensures SomePageEndsWithTitle(pages)
  {
    var s :| s in starts && FollowsTitle(Flatten(pages), s);
    assert StartsAt(pages, s);
    var k :| 0 <= k <= |pages| && Count(pages, k) == s;
    assert EndsWell(pages, k - 1, starts);
    LastOfPage(pages, k - 1);
    assert EndsWithTitle(pages[k - 1]);
  }

  /** A page ends with a title exactly when a titled chapter, or the end of the book, follows one. */
  lemma TitleEndsPageIff(chapters: seq<Page>)
    ensures SomePageEndsWithTitle(PagesOf(chapters)) <==> SomeStartFollowsTitle(Flatten(chapters), TitledStarts(chapters) + {|Flatten(chapters)|})
  {
    PagesKeepBlocks(chapters);
    PagesAreWellCut(chapters);
    var pages, starts := PagesOf(chapters), TitledStarts(chapters) + {|Flatten(chapters)|};
    if SomePageEndsWithTitle(pages) { TitleEndNeedsStart(pages, starts); }
    if SomeStartFollowsTitle(Flatten(chapters), starts) { StartMakesTitleEnd(pages, starts); }
  }

  // ---------- with the texts split ----------

  /** The blocks of a chapter, long texts split into pieces. */
  function SplitBlock(segment: Text -> seq<Range>, b: Block): Page
    requires LawfulSegmenter(segment)
  {
    assert IsSegmentation(b.text, segment(b.text));
    var ranges := SplitRanges(b.text, segment(b.text), TARGET_CHARS, MAX_CHARS);
    PiecesOf(b, ranges, |ranges|)
  }

  function PiecesOf(b: Block, ranges: seq<Range>, n: nat): (r: Page)
    requires n <= |ranges|
    ensures |r| == n && forall k :: 0 <= k < n ==> r[k] == Block(b.title, Sliced(b.text, ranges[k]))
  {
    seq(n, k requires 0 <= k < n => Block(b.title, Sliced(b.text, ranges[k])))
  }

  function Sliced(text: Text, r: Range): Text { if r.0 <= r.1 <= |text| then text[r.0..r.1] else [] }

  function SplitChapter(segment: Text -> seq<Range>, chapter: Page): Page
    requires LawfulSegmenter(segment)
  {
    if chapter == [] then [] else SplitChapter(segment, chapter[..|chapter| - 1]) + SplitBlock(segment, chapter[|chapter| - 1])
  }

  function SplitBook(segment: Text -> seq<Range>, chapters: seq<Page>): seq<Page>
    requires LawfulSegmenter(segment)
  {
    if chapters == [] then [] else SplitBook(segment, chapters[..|chapters| - 1]) + [SplitChapter(segment, chapters[|chapters| - 1])]
  }

  /** A text longer than 2500 characters becomes pieces of about 1800, every one of the kind of its block; any other block stays. */
  lemma BlocksAreSplit(segment: Text -> seq<Range>, b: Block)
    requires LawfulSegmenter(segment)
    ensures exists ranges :: IsSplit(b.text, segment(b.text), 1800, 2500, ranges) && ArePiecesOf(b, ranges, SplitBlock(segment, b))
    ensures |b.text| <= 2500 ==> SplitBlock(segment, b) == [b]
  {
    assert IsSegmentation(b.text, segment(b.text));
    SplitIs(b.text, segment(b.text), 1800, 2500);
    assert ArePiecesOf(b, SplitRanges(b.text, segment(b.text), 1800, 2500), SplitBlock(segment, b));
    if |b.text| <= 2500 { assert b.text[0..|b.text|] == b.text; }
  }

  predicate ArePiecesOf(b: Block, ranges: seq<Range>, pieces: Page) {
    |pieces| == |ranges| && forall k :: 0 <= k < |pieces| ==>
      pieces[k].title == b.title && (ranges[k].0 <= ranges[k].1 <= |b.text| ==> pieces[k].text == b.text[ranges[k].0..ranges[k].1])
  }

  /** All the characters of blocks that are not white space. */
  function BlockChars(blocks: Page): Text {
    if blocks == [] then [] else BlockChars(blocks[..|blocks| - 1]) + NonSpace(blocks[|blocks| - 1].text)
  }

  lemma {:induction false} BlockCharsConcat(a: Page, b: Page)
    ensures BlockChars(a + b) == BlockChars(a) + BlockChars(b)
  {
    if b == [] {
      assert a + b == a;
    } else {
      var init, last := b[..|b| - 1], b[|b| - 1];
      BlockCharsConcat(a, init);
      assert (a + b)[..|a + b| - 1] == a + init;
      Associative(BlockChars(a), BlockChars(init), NonSpace(last.text));
    }
  }

  lemma {:induction false} PieceChars(b: Block, ranges: seq<Range>, n: nat)
    requires n <= |ranges| && forall k :: 0 <= k < |ranges| ==> ranges[k].0 <= ranges[k].1 <= |b.text|
    ensures BlockChars(PiecesOf(b, ranges, n)) == ContentUpTo(b.text, ranges, n)
  {
    if n > 0 {
      PieceChars(b, ranges, n - 1);
      assert PiecesOf(b, ranges, n)[..n - 1] == PiecesOf(b, ranges, n - 1);
      CharsAreNonSpace(b.text, ranges[n - 1].0, ranges[n - 1].1);
    }
  }

  lemma SplitBlockKeepsChars(segment: Text -> seq<Range>, b: Block)
    requires LawfulSegmenter(segment)
    ensures BlockChars(SplitBlock(segment, b)) == NonSpace(b.text)
  {
    var spans := segment(b.text);
    assert IsSegmentation(b.text, spans);
    PieceRangesInText(b.text, spans);
    PieceChars(b, SplitRanges(b.text, spans, TARGET_CHARS, MAX_CHARS), |SplitRanges(b.text, spans, TARGET_CHARS, MAX_CHARS)|);
    SplitKeepsText(b.text, spans, TARGET_CHARS, MAX_CHARS);
    CharsAreNonSpace(b.text, 0, |b.text|);
    assert b.text[0..|b.text|] == b.text;
  }

  lemma PieceRangesInText(text: Text, spans: seq<Range>)
    requires IsSegmentation(text, spans)
    ensures forall k :: 0 <= k < |SplitRanges(text, spans, TARGET_CHARS, MAX_CHARS)| ==>
      SplitRanges(text, spans, TARGET_CHARS, MAX_CHARS)[k].0 <= SplitRanges(text, spans, TARGET_CHARS, MAX_CHARS)[k].1 <= |text|
  {
    if |text| > MAX_CHARS { SplitFits(text, spans, TARGET_CHARS, MAX_CHARS); }
  }

  lemma {:induction false} SplitChapterKeepsChars(segment: Text -> seq<Range>, chapter: Page)
    requires LawfulSegmenter(segment)
    ensures BlockChars(SplitChapter(segment, chapter)) == BlockChars(chapter)
  {
    if chapter != [] {
      var init, b := chapter[..|chapter| - 1], chapter[|chapter| - 1];
      SplitChapterKeepsChars(segment, init);
      SplitBlockKeepsChars(segment, b);
      BlockCharsConcat(SplitChapter(segment, init), SplitBlock(segment, b));
    }
  }

  lemma {:induction false} SplitBookKeepsChars(segment: Text -> seq<Range>, chapters: seq<Page>)
    requires LawfulSegmenter(segment)
    ensures BlockChars(Flatten(SplitBook(segment, chapters))) == BlockChars(Flatten(chapters))
  {
    if chapters != [] {
      var init, c := chapters[..|chapters| - 1], chapters[|chapters| - 1];
      SplitBookKeepsChars(segment, init);
      SplitChapterKeepsChars(segment, c);
      FlattenAppend(SplitBook(segment, init), SplitChapter(segment, c));
      BlockCharsConcat(Flatten(SplitBook(segment, init)), SplitChapter(segment, c));
      BlockCharsConcat(Flatten(init), c);
    }
  }

  /** Importing a book loses no character: its pages read the same as its chapters, white space aside. */
  lemma ImportLosesNothing(segment: Text -> seq<Range>, chapters: seq<Page>)
    requires LawfulSegmenter(segment)
    ensures BlockChars(Flatten(PagesOf(SplitBook(segment, chapters)))) == BlockChars(Flatten(chapters))
  {
    PagesKeepBlocks(SplitBook(segment, chapters));
    SplitBookKeepsChars(segment, chapters);
  }

  // ---------- as it runs ----------

  lemma {:induction false} AddedAllGrows(st: Paging, blocks: Page)
    ensures |st.pages| <= |AddedAll(st, blocks).pages|
  {
    if blocks != [] { AddedAllGrows(st, blocks[..|blocks| - 1]); }
  }

  lemma {:induction false} AddedRestGrows(st: Paging, blocks: Page, i: nat)
    requires i <= |blocks|
    ensures |AddedAll(st, blocks[..i]).pages| <= |AddedAll(st, blocks).pages|
  {
    if i < |blocks| {
      var init := blocks[..|blocks| - 1];
      AddedRestGrows(st, init, i);
      assert init[..i] == blocks[..i];
    } else {
      assert blocks[..i] == blocks;
    }
  }

  lemma AddedChapterGrows(st: Paging, blocks: Page)
    ensures |st.pages| <= |AddedChapter(st, blocks).pages|
  {
    AddedAllGrows(if HasTitle(blocks) then Closed(st, false) else st, blocks);
  }

  lemma {:induction false} AddedChaptersGrow(chapters: seq<Page>, i: nat)
    requires i <= |chapters|
    ensures |AddedChapters(chapters[..i]).pages| <= |AddedChapters(chapters).pages|
  {
    if i < |chapters| {
      var init := chapters[..|chapters| - 1];
      AddedChaptersGrow(init, i);
      assert init[..i] == chapters[..i];
      AddedChapterGrows(AddedChapters(init), chapters[|chapters| - 1]);
    } else {
      assert chapters[..i] == chapters;
    }
  }

  class Paginator {
    var pages: seq<Page>
    var current: Page
    var size: nat
    const maxPages: nat

    constructor (maxPages: nat)
      ensures State() == Paging([], [], 0) && this.maxPages == maxPages
    {
      this.maxPages := maxPages;
      pages, current, size := [], [], 0;
    }

    ghost function State(): Paging
      reads this
    {
      Paging(pages, current, size)
    }

    /** Closes the page being filled; not ok when there are too many pages. */
    method ClosePage(keepTitleWithNext: bool) returns (ok: bool)
      modifies this
      ensures State() == Closed(old(State()), keepTitleWithNext)
      ensures |pages| > maxPages && |old(pages)| <= maxPages ==> !ok
      ensures |pages| <= maxPages ==> ok
    {
      var n := |current|;
      if keepTitleWithNext {
        while n > 1 && current[n - 1].title
          invariant 0 <= n <= |current| && KeptCount(current, n) == KeptCount(current, |current|)
        {
          n := n - 1;
        }
      }
      ok := true;
      var carried := current[n..];
      if n > 0 {
        pages := pages + [current[..n]];
        ok := |pages| <= maxPages;
      }
      current := carried;
      size := SumOf(carried);
    }

    /** Adds a block, on a new page if it would make this one too long. */
    method Add(b: Block) returns (ok: bool)
      modifies this
      requires |pages| <= maxPages
      ensures State() == Added(old(State()), b) && (ok <==> |pages| <= maxPages)
    {
      ok := true;
      var breaks := false;
      if current != [] { breaks := BreakBefore(|b.text|); }
      if breaks { ok := ClosePage(true); }
      current := current + [b];
      size := size + |b.text|;
    }

    method BreakBefore(length: nat) returns (breaks: bool)
      ensures breaks == BreaksBefore(State(), length)
    {
      if !HasParagraph(current) { return false; }
      if |current| >= MAX_BLOCKS { return true; }
      var total := size + length;
      if total > MAX_CHARS { return true; }
      if total <= TARGET_CHARS { return false; }
      breaks := Off(total, TARGET_CHARS) >= Off(size, TARGET_CHARS);
    }

    method AddChapter(blocks: Page) returns (ok: bool)
      modifies this
      requires |pages| <= maxPages
      ensures ok <==> |AddedChapter(old(State()), blocks).pages| <= maxPages
      ensures ok ==> State() == AddedChapter(old(State()), blocks)
    {
      if blocks == [] { return true; }
      ghost var start := if HasTitle(blocks) then Closed(State(), false) else State();
      AddedAllGrows(start, blocks);
      ok := true;
      if HasTitle(blocks) { ok := ClosePage(false); }
      if !ok { return; }
      for i := 0 to |blocks|
        invariant State() == AddedAll(start, blocks[..i]) && |pages| <= maxPages
      {
        assert blocks[..i + 1][..i] == blocks[..i];
        ok := Add(blocks[i]);
        if !ok {
          AddedRestGrows(start, blocks, i + 1);
          return;
        }
      }
      assert blocks[..|blocks|] == blocks;
    }
  }

  method SumOf(blocks: Page) returns (sum: nat)
    ensures sum == Total(blocks)
  {
    sum := 0;
    for i := 0 to |blocks|
      invariant sum == Total(blocks[..i])
    {
      assert blocks[..i + 1][..i] == blocks[..i];
      sum := sum + |blocks[i].text|;
    }
    assert blocks[..|blocks|] == blocks;
  }

  /** All the pages, or an error when there are more than maxPages. */
  method Paginate(chapters: seq<Page>, maxPages: nat := MAX_PAGES) returns (r: Result)
    ensures r.Pages? ==> |r.pages| <= maxPages && Flatten(r.pages) == Flatten(chapters)
    ensures r.Pages? ==> PagesOk(r.pages, TitledStarts(chapters) + {|Flatten(chapters)|}) && AllFilled(r.pages, TitledStarts(chapters))
    ensures r == if |PagesOf(chapters)| <= maxPages then Pages(PagesOf(chapters)) else TooManyPages
  {
    var p := new Paginator(maxPages);
    var ok := true;
    for i := 0 to |chapters|
      invariant fresh(p) && p.maxPages == maxPages
      invariant p.State() == AddedChapters(chapters[..i]) && |p.pages| <= maxPages
    {
      assert chapters[..i + 1][..i] == chapters[..i];
      ok := p.AddChapter(chapters[i]);
      if !ok {
        AddedChaptersGrow(chapters, i + 1);
        return TooManyPages;
      }
    }
    assert chapters[..|chapters|] == chapters;
    ok := p.ClosePage(false);
    r := if ok then Pages(p.pages) else TooManyPages;
    PagesKeepBlocks(chapters);
    PagesAreWellCut(chapters);
    PagesAreFilled(chapters);
  }
}
