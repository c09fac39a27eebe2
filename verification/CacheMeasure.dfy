/** measure and check_memory of cache.c: wiring the first size bytes into a cycle, and repairing it. */
module CacheMeasure {
  import opened Arith
  import opened PointerChain
  import opened Lanes
  import opened Tables
  import opened LibMem

  /** All pages, in their current order. */
  function AllPages(state: MemState): Layout
    reads state
  {
    Layout(state.pages, state.lines, state.words)
  }

  /** n pages in address order. */
  function InOrderPages(n: nat, pagesize: nat): (pages: seq<int>)
    ensures |pages| == n
  {
    seq(n, i requires 0 <= i => Mul(i, pagesize))
  }

  /** All of memory, page by page, whatever the page list says. */
  function Whole(state: MemState): Layout
    reads state
    requires state.pagesize > 0
  {
    Layout(InOrderPages(state.mem.Length / state.pagesize, state.pagesize), state.lines, state.words)
  }

  /** Inside every page each word points to the next line. */
  ghost predicate InPage(m: seq<int>, g: Layout) {
    g.Separated(|m|) && forall i: nat :: i < |g.pages| ==> PageLinks(m, g, i, |g.lines|)
  }

  /** Every page of a list occurs in another. */
  ghost predicate Within(pages: seq<int>, all: seq<int>) {
    forall i :: 0 <= i < |pages| ==> pages[i] in all
  }

  /**
   What everything in cache.c relies on: the links inside all pages of memory, and a list of pages of
   memory, in which a page may even occur twice.
   */
  ghost predicate Usable(state: MemState)
    reads state, state.mem
  {
    && state.S().Valid() && state.p != state.mem && state.p.Length == MAX_MEM_PARALLELISM
    && state.pages != [] && Within(state.pages, Whole(state).pages)
    && state.lines == BitOrder(state.nlines, state.line) && state.words == BitOrder(state.nwords, state.word)
    && InPage(state.mem[..], Whole(state))
  }

  /** No page is listed twice. */
  ghost predicate Probeable(state: MemState)
    reads state, state.mem
  {
    Usable(state) && Distinct(state.pages)
  }

  /** Lines of the last page that a size uses. */
  function LastOfSize(size: nat, s: Shape): nat
    requires s.pagesize > 0 && s.line > 0
  {
    if size % s.pagesize == 0 then s.nlines else size % s.pagesize / s.line
  }

  /** A size that fits the pages and does not end in less than a line. */
  ghost predicate Measurable(size: nat, npages: nat, s: Shape) {
    && s.pagesize > 0 && s.line > 0 && size > 0 && PagesFor(size, s.pagesize) <= npages
    && (size % s.pagesize == 0 || s.line <= size % s.pagesize)
  }

  lemma MeasurableCounts(size: nat, npages: nat, s: Shape)
    requires s.Valid() && Measurable(size, npages, s)
    ensures 1 <= PagesFor(size, s.pagesize) && 1 <= LastOfSize(size, s) <= s.nlines
    ensures size / s.line == Mul(PagesFor(size, s.pagesize) - 1, s.nlines) + LastOfSize(size, s)
    ensures LastOfSize(size, s) < s.nlines <==> size % s.pagesize != 0
  {
    hide Mul, Multiple;
    var rem := CeilSplit(size, s.pagesize);
    var np := PagesFor(size, s.pagesize);
    QuotientSum(np - 1, rem, s);
    WholeOrPart(size, np, rem, s.pagesize);
    QuotientPositive(rem, s.line);
    ShapeCounts(s);
  }

  lemma WholeOrPart(size: nat, np: nat, rem: nat, pagesize: nat)
    requires np >= 1 && size == Mul(np - 1, pagesize) + rem && 1 <= rem <= pagesize
    ensures if rem == pagesize then size % pagesize == 0 else size % pagesize == rem
  {
    if rem == pagesize {
      DivUnique(size, np, 0, pagesize);
    } else {
      DivUnique(size, np - 1, rem, pagesize);
    }
  }

  /** The words on the chain are the size/sizeof(char*) that check_memory expects exactly when size ends on a line. */
  lemma WordCountExact(size: nat, npages: nat, s: Shape)
    requires s.Valid() && Measurable(size, npages, s)
    ensures Mul(s.nwords, size / s.line) == size / s.word <==> size % s.line < s.word
  {
    hide Mul;
    var q, r := size / s.line, size % s.line;
    DivParts(size, s.line);
    MulAssoc(q, s.nwords, s.word);
    MulCommutes(s.nwords, q);
    QuotientOf(Mul(q, s.nwords), r, s.word);
    QuotientPositive(r, s.word);
  }

  /** In-page links up to the given line of page i, and all of them on other pages. */
  ghost predicate InPageBut(m: seq<int>, g: Layout, i: nat, lines: nat)
    requires g.Separated(|m|) && i < |g.pages| && lines <= |g.lines|
  {
    (forall t: nat :: t < |g.pages| && t != i ==> PageLinks(m, g, t, |g.lines|)) && PageLinks(m, g, i, lines)
  }

  lemma LinkKeeps(m: seq<int>, m': seq<int>, g: Layout, i: nat, j: nat)
    requires |m| == |m'| && g.Separated(|m|) && i < |g.pages| && j < |g.lines| && OnlyLine(m, m', g, i, j)
    requires InPage(m, g)
    ensures InPageBut(m', g, i, j + 1)
    ensures j == |g.lines| - 1 ==> InPage(m', g)
  {
    forall t: nat | t < |g.pages| && t != i ensures PageLinks(m', g, t, |g.lines|) {
      KeepPage(m, m', g, i, j, t, |g.lines|);
    }
    forall j', k | 0 <= j' < j && 0 <= k < |g.words|
      ensures m'[g.Addr(i, j', k)] == g.Addr(i, j' + 1, k)
    {
      assert g.InRange(i, j', k);
      assert PageLinks(m, g, i, |g.lines|);
    }
  }

  /** One line changed as seen from all of memory is one line changed as seen from a list without repetition. */
  lemma TransferOnly(m: seq<int>, m': seq<int>, w: Layout, h: Layout, u: nat, i: nat, j: nat)
    requires |m| == |m'| && w.Separated(|m|) && h.Separated(|m|) && u < |w.pages| && i < |h.pages|
    requires h.lines == w.lines && h.words == w.words && Distinct(h.pages) && Within(h.pages, w.pages)
    requires w.pages[u] == h.pages[i] && OnlyLine(m, m', w, u, j)
    ensures OnlyLine(m, m', h, i, j)
  {
    hide Within, Layout.Unique;
    forall i', j', k' | h.InRange(i', j', k') && (i' != i || j' != j)
      ensures m'[h.Addr(i', j', k')] == m[h.Addr(i', j', k')]
    {
      var u' := PageIndex(h.pages, w.pages, i');
      if u' == u {
        assert h.pages[i'] == h.pages[i];
        assert i' == i;
      }
      assert w.InRange(u', j', k') && w.Addr(u', j', k') == h.Addr(i', j', k');
    }
  }

  lemma TransferTo(m: seq<int>, w: Layout, h: Layout, u: nat, i: nat, j: nat, u2: nat, i2: nat, j2: nat, rotate: bool)
    requires w.Separated(|m|) && h.Separated(|m|) && u < |w.pages| && i < |h.pages| && u2 < |w.pages| && i2 < |h.pages|
    requires h.lines == w.lines && h.words == w.words && j < |w.lines| && j2 < |w.lines|
    requires w.pages[u] == h.pages[i] && w.pages[u2] == h.pages[i2] && LineTo(m, w, u, j, u2, j2, rotate)
    ensures LineTo(m, h, i, j, i2, j2, rotate)
  {
    hide Layout.Unique;
    forall k | 0 <= k < |h.words|
      ensures m[h.Addr(i, j, k)] == h.Addr(i2, j2, if rotate then NextWord(h, k) else k)
    {
      assert h.Addr(i, j, k) == w.Addr(u, j, k);
    }
  }

  /** The first pages of a list that are linked one to the next. */
  ghost predicate Stepping(m: seq<int>, h: Layout, upto: nat)
    requires h.NonEmpty()
  {
    Distinct(h.pages) ==> h.Separated(|m|) && forall t: nat :: t < upto && t + 1 < |h.pages| ==> StepLinks(m, h, t)
  }

  lemma StepOn(m: seq<int>, m': seq<int>, w: Layout, h: Layout, i: nat, u: nat, u2: nat)
    requires |m| == |m'| && w.Separated(|m|) && w.NonEmpty() && h.NonEmpty() && i + 1 < |h.pages| && u < |w.pages| && u2 < |w.pages|
    requires h.lines == w.lines && h.words == w.words && Within(h.pages, w.pages)
    requires w.pages[u] == h.pages[i] && w.pages[u2] == h.pages[i + 1] && Stepping(m, h, i)
    requires OnlyLine(m, m', w, u, |w.lines| - 1) && LineTo(m', w, u, |w.lines| - 1, u2, 0, false)
    ensures Stepping(m', h, i + 1)
  {
    hide Within, Layout.Unique, OnlyLine, LineTo;
    if Distinct(h.pages) {
      TransferOnly(m, m', w, h, u, i, |w.lines| - 1);
      TransferTo(m', w, h, u, i, |w.lines| - 1, u2, i + 1, 0, false);
      forall t: nat | t < i ensures StepLinks(m', h, t) {
        KeepStep(m, m', h, i, |h.lines| - 1, t);
      }
      NowStep(m', h, i);
    }
  }

  /** Rewiring all pages of size bytes: in-page links stay, last lines lead to the next page. */
  method WirePages(mem: array<int>, pages: seq<int>, lines: seq<int>, words: seq<int>, npages: nat, ghost w: Layout)
    requires w.Separated(mem.Length) && w.NonEmpty() && w.lines == lines && w.words == words && InPage(mem[..], w)
    requires 1 <= npages <= |pages| && Within(pages, w.pages)
    modifies mem
    ensures InPage(mem[..], w)
    ensures Stepping(mem[..], Layout(pages[..npages], lines, words), npages - 1)
  {
    hide Layout.Unique, PageLinks, OnlyLine, LineTo, InPage, Within, Stepping;
    ghost var h := Layout(pages[..npages], lines, words);
    WithinPrefix(pages, w.pages, npages);
    SteppingStart(mem[..], w, h);
    var i := 0;
    while i < npages - 1
      invariant 0 <= i <= npages - 1 && InPage(mem[..], w) && Stepping(mem[..], h, i)
    {
      ghost var m := mem[..];
      ghost var u := PageIndex(pages, w.pages, i);
      ghost var u2 := PageIndex(pages, w.pages, i + 1);
      LinkWords(mem, pages[i] + lines[|lines| - 1], pages[i + 1] + lines[0], words, false, w, u, |lines| - 1, u2, 0);
      LinkKeeps(m, mem[..], w, u, |lines| - 1);
      StepOn(m, mem[..], w, h, i, u, u2);
      i := i + 1;
    }
  }

  lemma WithinPrefix(pages: seq<int>, all: seq<int>, n: nat)
    requires n <= |pages| && Within(pages, all)
    ensures Within(pages[..n], all)
  {
  }

  lemma SteppingStart(m: seq<int>, w: Layout, h: Layout)
    requires w.Separated(|m|) && h.NonEmpty() && h.lines == w.lines && h.words == w.words && Within(h.pages, w.pages)
    ensures Stepping(m, h, 0)
  {
    hide Within, Layout.Unique;
    if Distinct(h.pages) {
      ReorderSeparated(w, h.pages, |m|);
      assert w.(pages := h.pages) == h;
    }
  }

  lemma NowStep(m: seq<int>, g: Layout, i: nat)
    requires g.Separated(|m|) && g.NonEmpty() && i + 1 < |g.pages| && LineTo(m, g, i, |g.lines| - 1, i + 1, 0, false)
    ensures StepLinks(m, g, i)
  {
  }

  /** Pages that are linked one to the next, closed from line last-1 of the last one, are one chain. */
  lemma WiredChain(m: seq<int>, m': seq<int>, h: Layout, last: nat)
    requires |m| == |m'| && h.NonEmpty() && Distinct(h.pages) && 1 <= last <= |h.lines|
    requires InPage(m, h) && Stepping(m, h, |h.pages| - 1)
    requires OnlyLine(m, m', h, |h.pages| - 1, last - 1) && LineTo(m', h, |h.pages| - 1, last - 1, 0, 0, true)
    ensures Chained(m', h, last)
  {
    hide Layout.Unique, PageLinks, OnlyLine, StepLinks;
    var n := |h.pages|;
    LinkKeeps(m, m', h, n - 1, last - 1);
    forall i: nat | i < n - 1 ensures StepLinks(m', h, i) {
      KeepStep(m, m', h, n - 1, last - 1, i);
    }
    WrapNow(m', h, last);
    LinksChain(m', h, last);
  }

  lemma WrapNow(m: seq<int>, h: Layout, last: nat)
    requires h.Separated(|m|) && h.NonEmpty() && 1 <= last <= |h.lines| && LineTo(m, h, |h.pages| - 1, last - 1, 0, 0, true)
    ensures WrapLinks(m, h, last)
  {
  }

  /** Repairing the one line that measure redirected inside a page. */
  lemma Repaired(m: seq<int>, m': seq<int>, g: Layout, i: nat, last: nat)
    requires |m| == |m'| && g.Separated(|m|) && i < |g.pages| && 1 <= last < |g.lines|
    requires InPageRest(m, g, i, last) && OnlyLine(m, m', g, i, last - 1) && LineTo(m', g, i, last - 1, i, last, false)
    ensures InPage(m', g)
  {
    forall t: nat | t < |g.pages| && t != i ensures PageLinks(m', g, t, |g.lines|) {
      KeepPage(m, m', g, i, last - 1, t, |g.lines|);
    }
    forall j, k | 0 <= j < |g.lines| - 1 && 0 <= k < |g.words|
      ensures m'[g.Addr(i, j, k)] == g.Addr(i, j + 1, k)
    {
      assert g.InRange(i, j, k);
    }
  }

  /** All in-page links but those of line last-1 of page i. */
  ghost predicate InPageRest(m: seq<int>, g: Layout, i: nat, last: nat)
    requires g.Separated(|m|) && i < |g.pages| && 1 <= last < |g.lines|
  {
    && (forall t: nat :: t < |g.pages| && t != i ==> PageLinks(m, g, t, |g.lines|))
    && forall j, k :: 0 <= j < |g.lines| - 1 && j != last - 1 && 0 <= k < |g.words| ==> m[g.Addr(i, j, k)] == g.Addr(i, j + 1, k)
  }

  lemma RestKept(m: seq<int>, m': seq<int>, g: Layout, i: nat, last: nat)
    requires |m| == |m'| && g.Separated(|m|) && i < |g.pages| && 1 <= last < |g.lines|
    requires InPage(m, g) && OnlyLine(m, m', g, i, last - 1)
    ensures InPageRest(m', g, i, last)
  {
    forall t: nat | t < |g.pages| && t != i ensures PageLinks(m', g, t, |g.lines|) {
      KeepPage(m, m', g, i, last - 1, t, |g.lines|);
    }
    assert PageLinks(m, g, i, |g.lines|);
    forall j, k | 0 <= j < |g.lines| - 1 && j != last - 1 && 0 <= k < |g.words|
      ensures m'[g.Addr(i, j, k)] == g.Addr(i, j + 1, k)
    {
      assert g.InRange(i, j, k);
    }
  }

  /** The pages that hold the first size bytes, when g lists all pages. */
  function Prefix(g: Layout, size: nat, s: Shape): Layout
    requires s.pagesize > 0 && PagesFor(size, s.pagesize) <= |g.pages|
  {
    g.(pages := g.pages[..PagesFor(size, s.pagesize)])
  }

  /** The memory is one cycle of nwords * (size/line) words through the first pages of the list. */
  ghost predicate Wired(during: seq<int>, g: Layout, size: nat, s: Shape)
    requires Measurable(size, |g.pages|, s)
  {
    var h, last := Prefix(g, size, s), LastOfSize(size, s);
    last <= |g.lines| && |Cells(h, last)| == Mul(s.nwords, size / s.line) && Chained(during, h, last)
  }

  lemma ChainIsWired(during: seq<int>, g: Layout, npages: nat, last: nat, size: nat, s: Shape)
    requires s.Valid() && Measurable(size, |g.pages|, s) && |g.words| == s.nwords && |g.lines| == s.nlines
    requires npages == PagesFor(size, s.pagesize) && last == LastOfSize(size, s)
    requires Chained(during, g.(pages := g.pages[..npages]), last)
    ensures Wired(during, g, size, s)
  {
    hide Mul, Multiple, PagesFor, Layout.Unique, LaneLinks, Cells;
    MeasurableCounts(size, |g.pages|, s);
  }

  /** measure has wired a list without repetition; nothing is said of a list that repeats a page. */
  lemma MeasureWires(m: seq<int>, during: seq<int>, w: Layout, g: Layout, npages: nat, last: nat, size: nat, s: Shape, u: nat, u0: nat)
    requires s.Valid() && Measurable(size, |g.pages|, s) && |g.words| == s.nwords && |g.lines| == s.nlines
    requires npages == PagesFor(size, s.pagesize) >= 1 && last == LastOfSize(size, s) && 1 <= last <= |g.lines|
    requires |m| == |during| && InPage(m, w) && w.lines == g.lines && w.words == g.words && g.words != [] && Within(g.pages, w.pages)
    requires u < |w.pages| && u0 < |w.pages| && w.pages[u] == g.pages[npages - 1] && w.pages[u0] == g.pages[0]
    requires Stepping(m, g.(pages := g.pages[..npages]), npages - 1)
    requires OnlyLine(m, during, w, u, last - 1) && LineTo(during, w, u, last - 1, u0, 0, true)
    ensures Distinct(g.pages[..npages]) ==> Wired(during, g, size, s)
  {
    hide Layout.Unique, OnlyLine, LineTo, Within, Distinct, Stepping, Wired, PagesFor, PageLinks, StepLinks, Multiple, Mul;
    var h := g.(pages := g.pages[..npages]);
    if Distinct(h.pages) {
      WithinPrefix(g.pages, w.pages, npages);
      assert w.(pages := h.pages) == h;
      ReorderKeeps(m, w, h.pages);
      TransferOnly(m, during, w, h, u, npages - 1, last - 1);
      TransferTo(during, w, h, u, npages - 1, last - 1, u0, 0, 0, true);
      WiredChain(m, during, h, last);
      ChainIsWired(during, g, npages, last, size, s);
    }
  }

  /**
   measure: while it runs, the memory is wired to the size unless the list repeats a page; afterwards
   all in-page links are intact again.  The median time is whatever the benchmark took.
   */
  method Measure(state: MemState, size: nat, time: real) returns (t: real, ghost during: seq<int>)
    requires Usable(state) && Measurable(size, |state.pages|, state.S())
    modifies state.mem, state.p
    ensures Usable(state) && t == time
    ensures Distinct(state.pages[..PagesFor(size, state.pagesize)]) ==> Wired(during, AllPages(state), size, state.S())
    ensures state.p[0] == state.pages[0] + state.lines[0] + state.words[0]
  {
    hide Mul, Multiple, BitOrder, Layout.Unique, PageLinks, OnlyLine, StepLinks, LineTo, Cells, PagesFor, Wired, Chained, Within, Distinct, Stepping;
    ghost var w := Whole(state);
    MeasurableCounts(size, |state.pages|, state.S());
    UsableLayout(state);
    var npages := (size + state.pagesize - 1) / state.pagesize;
    PagesForIs(size, state.pagesize);
    var nlines := state.nlines;
    if size % state.pagesize != 0 {
      nlines := size % state.pagesize / state.line;
    }
    ghost var u := PageIndex(state.pages, w.pages, npages - 1);
    ghost var u0 := PageIndex(state.pages, w.pages, 0);
    WirePages(state.mem, state.pages, state.lines, state.words, npages, w);
    ghost var m := state.mem[..];
    LinkWords(state.mem, state.pages[npages - 1] + state.lines[nlines - 1], state.pages[0] + state.lines[0], state.words, true,
              w, u, nlines - 1, u0, 0);
    during := state.mem[..];
    MeasureWires(m, during, w, AllPages(state), npages, nlines, size, state.S(), u, u0);
    state.p[0] := state.pages[0] + state.lines[0] + state.words[0];
    t := time;
    LinkKeeps(m, during, w, u, nlines - 1);
    if nlines < state.nlines {
      RestKept(m, during, w, u, nlines);
      LinkWords(state.mem, state.pages[npages - 1] + state.lines[nlines - 1], state.pages[npages - 1] + state.lines[nlines],
                state.words, false, w, u, nlines - 1, u, nlines);
      Repaired(during, state.mem[..], w, u, nlines);
    }
  }

  lemma UsableLayout(state: MemState)
    requires Usable(state)
    ensures Whole(state).NonEmpty() && |state.lines| == state.nlines && |state.words| == state.nwords
    ensures state.nlines >= 1 && state.nwords >= 1 && state.pagesize > 0 && state.line > 0
  {
    hide Mul, Multiple, BitOrder, InPage;
    ShapeCounts(state.S());
    assert state.pages[0] in Whole(state).pages;
  }

  lemma PagesForIs(size: nat, pagesize: nat)
    requires pagesize > 0
    ensures PagesFor(size, pagesize) == (size + pagesize - 1) / pagesize
  {
  }

  // ---------- the order of the pages does not matter ----------

  lemma PageIndex(pages: seq<int>, all: seq<int>, i: nat) returns (i0: nat)
    requires Within(pages, all) && i < |pages|
    ensures i0 < |all| && all[i0] == pages[i]
  {
    assert pages[i] in all;
    i0 :| 0 <= i0 < |all| && all[i0] == pages[i];
  }

  lemma ReorderSeparated(g: Layout, pages: seq<int>, size: nat)
    requires g.Separated(size) && Distinct(pages) && Within(pages, g.pages)
    ensures g.(pages := pages).Separated(size)
  {
    hide Within;
    var h := g.(pages := pages);
    forall i, j, k | h.InRange(i, j, k) ensures 0 <= h.Addr(i, j, k) < size {
      var i0 := PageIndex(pages, g.pages, i);
      assert h.Addr(i, j, k) == g.Addr(i0, j, k);
    }
    forall i, j, k, i', j', k' |
      h.InRange(i, j, k) && h.InRange(i', j', k') && h.Addr(i, j, k) == h.Addr(i', j', k')
      ensures i == i' && j == j' && k == k'
    {
      var i0 := PageIndex(pages, g.pages, i);
      var i1 := PageIndex(pages, g.pages, i');
      assert g.Addr(i0, j, k) == g.Addr(i1, j', k');
    }
  }

  /** Any reordering of the page list keeps the in-page links. */
  lemma ReorderKeeps(m: seq<int>, g: Layout, pages: seq<int>)
    requires InPage(m, g) && Distinct(pages) && Within(pages, g.pages)
    ensures InPage(m, g.(pages := pages))
  {
    hide Within, Layout.Unique;
    var h := g.(pages := pages);
    ReorderSeparated(g, pages, |m|);
    forall i: nat | i < |pages| ensures PageLinks(m, h, i, |g.lines|) {
      var i0 := PageIndex(pages, g.pages, i);
      assert PageLinks(m, g, i0, |g.lines|);
      forall j, k | 0 <= j < |g.lines| - 1 && 0 <= k < |g.words|
        ensures m[h.Addr(i, j, k)] == h.Addr(i, j + 1, k)
      {
        assert h.Addr(i, j, k) == g.Addr(i0, j, k) && h.Addr(i, j + 1, k) == g.Addr(i0, j + 1, k);
      }
    }
  }

  // ---------- check_memory ----------

  lemma {:induction false} ChaseWraps(m: seq<int>, start: int, cells: set<int>, k: nat)
    requires SingleCycle(m, start, cells)
    ensures Chase(m, start, |cells| + k) == Chase(m, start, k)
  {
    if k > 0 {
      ChaseWraps(m, start, cells, k - 1);
    }
  }

  /** Neither the word after p nor the second word of the list is met twice on the way round. */
  lemma NoEarlyMeeting(m: seq<int>, start: int, cells: set<int>, k: nat)
    requires SingleCycle(m, start, cells) && 2 <= k <= |cells|
    ensures Chase(m, start, k + 1) != Chase(m, start, 2)
  {
    ChaseWraps(m, start, cells, 0);
    ChaseWraps(m, start, cells, 1);
  }

  /** The two loops of check_memory over the page list: from the page found last, then from the start. */
  method FindPage(pages: seq<int>, npages: nat, first: nat, page: int) returns (j: nat, bad: bool)
    requires first < npages <= |pages|
    ensures bad <==> page !in pages[..npages]
    ensures if bad then j == first else j < npages && pages[j] == page
  {
    bad := false;
    j := first;
    while j < npages && page != pages[j]
      invariant first <= j <= npages && forall t :: first <= t < j ==> page != pages[t]
    {
      j := j + 1;
    }
    if j == npages {
      j := 0;
      while j < first && page != pages[j]
        invariant j <= first && forall t :: 0 <= t < j ==> page != pages[t]
      {
        j := j + 1;
      }
      if j == first {
        bad := true;
      }
    }
    assert !bad ==> pages[..npages][j] == page;
  }

  /** The walk of check_memory along a cycle through the first npages pages of the list. */
  method Walk(mem: array<int>, start: int, pages: seq<int>, npages: nat, pagesize: nat, ghost cells: set<int>)
    returns (words: nat, bad: bool, unwanted: bool)
    requires pagesize > 0 && 1 <= npages <= |pages| && SingleCycle(mem[..], start, cells)
    requires forall p :: p in cells ==> PageIn(p, pages, npages, pagesize)
    ensures !bad && !unwanted && words == |cells|
  {
    hide SingleCycle, Chase, PageIn;
    ghost var m := mem[..];
    var first: nat;
    words, first, bad, unwanted := 1, 0, false, false;
    CycleStart(m, start, cells);
    var p, q := mem[start], mem[start];
    while p != start
      invariant 1 <= words <= |cells| && p == Chase(m, start, words) && q == Chase(m, start, 1)
      invariant !bad && !unwanted && first < npages
      decreases |cells| - words
    {
      CycleCell(m, start, cells, words);
      words := words + 1;
      first, bad := LookUp(pages, npages, first, p, pagesize);
      p := mem[p];
      CycleCell(m, start, cells, words - 1);
      CycleNext(m, start, cells, words);
      CycleNext(m, start, cells, 1);
      if mem[p] == mem[q] {
        NoEarlyMeeting(m, start, cells, words);
        unwanted := true;
        return;
      }
    }
    CycleClosed(m, start, cells, words);
  }

  /**
   check_memory on memory that measure has wired to a size: it reports no bad reference and no unwanted
   cycle, and a wrong word count exactly when the size ends a word or more after a line.
   */
  method CheckMemory(mem: array<int>, g: Layout, s: Shape, size: nat) returns (bad: bool, unwanted: bool, wrong: bool)
    requires s.Valid() && g == TableLayout(g.pages, s) && Measurable(size, |g.pages|, s) && Wired(mem[..], g, size, s)
    requires forall i :: 0 <= i < |g.pages| ==> Multiple(g.pages[i], s.pagesize)
    ensures !bad && !unwanted && (wrong <==> size % s.line >= s.word)
  {
    hide SingleCycle, Cells, Wired, Measurable, TableLayout, PageIn;
    WiredFacts(mem[..], g, size, s);
    ghost var cells := Cells(Prefix(g, size, s), LastOfSize(size, s));
    var npages := (size + s.pagesize - 1) / s.pagesize;
    var nwords := size / s.word;
    var words;
    words, bad, unwanted := Walk(mem, g.pages[0] + g.lines[0] + g.words[0], g.pages, npages, s.pagesize, cells);
    wrong := words != nwords;
  }

  /** p lies on one of the first n pages of the list. */
  ghost predicate PageIn(p: int, pages: seq<int>, n: nat, pagesize: nat)
    requires pagesize > 0 && n <= |pages|
  {
    p - p % pagesize in pages[..n]
  }

  /** The lookup for one reference. */
  method LookUp(pages: seq<int>, npages: nat, first0: nat, p: int, pagesize: nat) returns (first: nat, bad: bool)
    requires pagesize > 0 && first0 < npages <= |pages|
    ensures first < npages && (bad <==> !PageIn(p, pages, npages, pagesize))
  {
    var page := p - p % pagesize;
    var j;
    j, bad := FindPage(pages, npages, first0, page);
    SmallMod(j, npages);
    first := j % npages;
  }

  /** What a wired size says to the walk: the cycle, its length against the expected one, and the pages of its cells. */
  lemma WiredFacts(m: seq<int>, g: Layout, size: nat, s: Shape)
    requires s.Valid() && g == TableLayout(g.pages, s) && Measurable(size, |g.pages|, s) && Wired(m, g, size, s)
    requires forall i :: 0 <= i < |g.pages| ==> Multiple(g.pages[i], s.pagesize)
    ensures s.word > 0 && s.line > 0 && s.pagesize > 0 && g.NonEmpty()
    ensures PagesFor(size, s.pagesize) == (size + s.pagesize - 1) / s.pagesize && 1 <= PagesFor(size, s.pagesize) <= |g.pages|
    ensures LastOfSize(size, s) <= |g.lines|
    ensures var cells, n := Cells(Prefix(g, size, s), LastOfSize(size, s)), PagesFor(size, s.pagesize);
            && SingleCycle(m, g.pages[0] + g.lines[0] + g.words[0], cells)
            && (|cells| == size / s.word <==> size % s.line < s.word)
            && forall p :: p in cells ==> PageIn(p, g.pages, n, s.pagesize)
  {
    hide Mul, Multiple, BitOrder, LaneLinks, SingleCycle, Cells, Layout.Unique, PagesFor, LastOfSize;
    var h, last := Prefix(g, size, s), LastOfSize(size, s);
    MeasurableCounts(size, |g.pages|, s);
    PagesForIs(size, s.pagesize);
    WordCountExact(size, |g.pages|, s);
    assert g.pages[0] + g.lines[0] + g.words[0] == h.Addr(0, 0, 0);
    forall p | p in Cells(h, last) ensures PageIn(p, g.pages, PagesFor(size, s.pagesize), s.pagesize) {
      CellPage(h, s, last, p);
    }
  }

  lemma CycleStart(m: seq<int>, start: int, cells: set<int>)
    requires SingleCycle(m, start, cells)
    ensures |cells| >= 1 && 0 <= start < |m| && m[start] == Chase(m, start, 1)
  {
    assert |cells| != 0;
    assert Chase(m, start, 0) == start && start in cells;
    assert Chase(m, start, 1) == Deref(m, Chase(m, start, 0));
  }

  lemma CycleCell(m: seq<int>, start: int, cells: set<int>, k: nat)
    requires SingleCycle(m, start, cells) && k <= |cells| && Chase(m, start, k) != start
    ensures k < |cells| && Chase(m, start, k) in cells && 0 <= Chase(m, start, k) < |m|
    ensures m[Chase(m, start, k)] == Chase(m, start, k + 1)
  {
  }

  lemma CycleNext(m: seq<int>, start: int, cells: set<int>, k: nat)
    requires SingleCycle(m, start, cells) && k <= |cells|
    ensures 0 <= Chase(m, start, k) < |m| && m[Chase(m, start, k)] == Chase(m, start, k + 1)
  {
    if k == |cells| {
      CycleStart(m, start, cells);
    }
  }

  lemma CycleClosed(m: seq<int>, start: int, cells: set<int>, k: nat)
    requires SingleCycle(m, start, cells) && 1 <= k <= |cells| && Chase(m, start, k) == start
    ensures k == |cells|
  {
    assert k < |cells| ==> Chase(m, start, 0) != Chase(m, start, k);
  }

  /** The page of a cell on the chain is in the list. */
  lemma CellPage(g: Layout, s: Shape, last: nat, x: int)
    requires s.Valid() && g == TableLayout(g.pages, s) && last <= |g.lines| && x in Cells(g, last)
    requires forall i :: 0 <= i < |g.pages| ==> Multiple(g.pages[i], s.pagesize)
    ensures x - x % s.pagesize in g.pages
  {
    hide Mul, Multiple, BitOrder;
    var i, j, k :| 0 <= i < |g.pages| && 0 <= j < LinesOn(g, last, i) && 0 <= k < |g.words| && x == g.Addr(i, j, k);
    LineRange(s, j);
    WordRange(s, k);
    NonNegative(g.pages[i], s.pagesize);
    PageOf(g.pages[i], g.lines[j] + g.words[k], s.pagesize);
  }

  lemma PageOf(page: int, off: nat, pagesize: nat)
    requires Multiple(page, pagesize) && off < pagesize
    ensures (page + off) - (page + off) % pagesize == page
  {
    DivUnique(page + off, page / pagesize, off, pagesize);
  }

  // ---------- setting up ----------

  lemma WholeChainInPage(m: seq<int>, g: Layout)
    requires Chained(m, g, |g.lines|)
    ensures InPage(m, g)
  {
    forall i: nat | i < |g.pages| ensures PageLinks(m, g, i, |g.lines|) {
      assert PageLinks(m, g, i, LinesOn(g, |g.lines|, i));
    }
  }

  /** n distinct multiples of pagesize below n*pagesize are all of them. */
  lemma AllPagesListed(pages: seq<int>, pagesize: nat, n: nat, i: nat)
    requires pagesize > 0 && Paged(pages, pagesize, Mul(n, pagesize)) && |pages| == n && i < n
    ensures Mul(i, pagesize) in pages
  {
    hide Mul, Multiple;
    var all := set q: nat | q < n :: Mul(q, pagesize);
    MultiplesCount(n, pagesize);
    forall x | x in pages ensures x in all {
      var t :| 0 <= t < |pages| && pages[t] == x;
      var q := MultipleQuotient(x, pagesize);
      if q >= n {
        MulMono(n, q, pagesize);
      }
    }
    DistinctSize(pages);
    assert Elements(pages) <= all;
    SameSize(Elements(pages), all);
    assert Mul(i, pagesize) in all;
  }

  lemma SameSize(a: set<int>, b: set<int>)
    requires a <= b && |a| >= |b|
    ensures a == b
  {
    assert b == a + (b - a);
    assert b - a == {};
  }

  lemma {:induction false} MultiplesCount(n: nat, unit: nat)
    requires unit > 0
    ensures |set q: nat | q < n :: Mul(q, unit)| == n
  {
    hide Mul;
    if n == 0 {
      assert (set q: nat | q < n :: Mul(q, unit)) == {};
    } else {
      MultiplesCount(n - 1, unit);
      var before := set q: nat | q < n - 1 :: Mul(q, unit);
      forall q: nat | q < n - 1 ensures Mul(q, unit) != Mul(n - 1, unit) {
        MulLess(q, n - 1, unit);
      }
      assert (set q: nat | q < n :: Mul(q, unit)) == before + {Mul(n - 1, unit)};
    }
  }

  /** The list can be put in address order: it already holds every page once. */
  lemma ReorderAll(m: seq<int>, g: Layout, pagesize: nat)
    requires pagesize > 0 && Chained(m, g, |g.lines|) && Paged(g.pages, pagesize, Mul(|g.pages|, pagesize))
    ensures InPage(m, g.(pages := InOrderPages(|g.pages|, pagesize)))
    ensures Distinct(InOrderPages(|g.pages|, pagesize))
  {
    hide Mul, Multiple, Chained, InPage;
    var n := |g.pages|;
    var pages := InOrderPages(n, pagesize);
    WholeChainInPage(m, g);
    InOrder(pages, n, pagesize);
    forall i | 0 <= i < n ensures pages[i] in g.pages {
      AllPagesListed(g.pages, pagesize, n, i);
    }
    ReorderKeeps(m, g, pages);
  }

  lemma OwnPages(pages: seq<int>)
    ensures Within(pages, pages)
  {
  }

  /**
   collect_data, up to the first measurement: initialize all of maxlen, then put the page list back in
   address order.  All lines of the last page must have been linked, as with whole pages they are.
   */
  method Prepare(state: MemState)
    requires state.Sized() && state.WidthFits() && state.len == state.maxlen
    requires FullyLinked(state.len, state.line, state.pagesize)
    modifies state, state.p
    ensures Probeable(state) && fresh(state.mem) && |state.pages| == PagesFor(state.maxlen, state.pagesize)
    ensures state.pagesize == old(state.pagesize) && state.line == old(state.line) && state.maxlen == old(state.maxlen)
    ensures state.pages == InOrderPages(|state.pages|, state.pagesize)
  {
    hide Mul, Multiple, BitOrder, Chained, InPage, LastLines, PagesFor, Within, Distinct, Paged, InOrderPages;
    MemInitialize(state);
    ShapeCounts(state.S());
    var g := state.G();
    assert g.pages == state.pages;
    ReorderAll(state.mem[..], g, state.pagesize);
    MulMultiple(|g.pages|, state.pagesize);
    state.pages := InOrderPages(|g.pages|, state.pagesize);
    assert Whole(state) == g.(pages := state.pages);
    OwnPages(state.pages);
  }
}
