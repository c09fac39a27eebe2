/** line_initialize and line_test of lib_mem.c: chains through the first word of lines. */
module LineChains {
  import opened Arith
  import opened BitReversal
  import opened PointerChain
  import opened Lanes
  import opened Tables
  import opened LibMem

  /** The first word of the first n lines of every page. */
  function Heads(g: Layout, n: nat): Layout
    requires n <= |g.lines|
  {
    Layout(g.pages, g.lines[..n], [0])
  }

  lemma HeadsSeparated(g: Layout, n: nat, size: nat)
    requires g.Separated(size) && g.words != [] && g.words[0] == 0 && n <= |g.lines|
    ensures Heads(g, n).Separated(size)
    ensures forall i, j :: 0 <= i < |g.pages| && 0 <= j < n ==> Heads(g, n).Addr(i, j, 0) == g.Addr(i, j, 0)
  {
    var h := Heads(g, n);
    forall i, j | 0 <= i < |g.pages| && 0 <= j < n
      ensures h.Addr(i, j, 0) == g.Addr(i, j, 0)
    {
    }
  }

  /** One store: the first word of line j of page i points to the first word of line j2 of page i2. */
  method SetHead(mem: array<int>, g: Layout, i: nat, j: nat, i2: nat, j2: nat)
    requires g.Separated(mem.Length) && g.words == [0]
    requires i < |g.pages| && j < |g.lines| && i2 < |g.pages| && j2 < |g.lines|
    modifies mem
    ensures mem[..] == old(mem[..])[g.Addr(i, j, 0) := g.Addr(i2, j2, 0)]
    ensures OnlyLine(old(mem[..]), mem[..], g, i, j)
    ensures LineTo(mem[..], g, i, j, i2, j2, false) && LineTo(mem[..], g, i, j, i2, j2, true)
  {
    assert g.InRange(i, j, 0) && g.pages[i] + g.lines[j] == g.Addr(i, j, 0);
    assert g.pages[i2] + g.lines[j2] == g.Addr(i2, j2, 0);
    mem[g.pages[i] + g.lines[j]] := g.pages[i2] + g.lines[j2];
  }

  /** The loops of line_initialize. */
  method LinkHeads(mem: array<int>, g: Layout)
    requires g.Separated(mem.Length) && g.NonEmpty() && g.words == [0]
    modifies mem
    ensures Chained(mem[..], g, |g.lines|)
  {
    hide Built, LaneLinks, Chained, OnlyLine, LineTo;
    var npages, nlines := |g.pages|, |g.lines|;
    NothingBuilt(mem[..], g);
    var i := 0;
    while i < npages
      invariant 0 <= i <= npages
      invariant i < npages ==> Built(mem[..], g, i, 0)
      invariant i == npages ==> LaneLinks(mem[..], g, nlines)
    {
      var j := 0;
      while j < nlines - 1
        invariant 0 <= j < nlines && Built(mem[..], g, i, j)
      {
        ghost var before := mem[..];
        SetHead(mem, g, i, j, i, j + 1);
        BuiltLine(before, mem[..], g, i, j);
        j := j + 1;
      }
      ghost var before := mem[..];
      SetHead(mem, g, i, j, if i < npages - 1 then i + 1 else 0, 0);
      if i < npages - 1 {
        BuiltPage(before, mem[..], g, i);
      } else {
        BuiltWrap(before, mem[..], g, nlines);
      }
      i := i + 1;
    }
    LinksChain(mem[..], g, nlines);
  }

  /** The lines of the pages in use, as line_initialize links them. */
  function HeadLayout(state: MemState): Layout
    reads state
    requires state.npages <= |state.pages|
  {
    Layout(state.pages[..state.npages], state.lines, [0])
  }

  ghost predicate HeadsReady(state: MemState)
    reads state, state.mem
  {
    && state.S().Valid() && 1 <= state.npages <= |state.pages|
    && Paged(state.pages, state.pagesize, state.mem.Length)
    && state.lines == BitOrder(state.nlines, state.line)
    && HeadLayout(state).Separated(state.mem.Length)
    && Chained(state.mem[..], HeadLayout(state), state.nlines)
  }

  /** Steps of the chase to line j of page i, with n lines a page. */
  function HeadStep(n: nat, i: nat, j: nat): nat {
    Mul(i, n) + j
  }

  /** The chase goes through the first words of the lines in table order, page by page. */
  ghost predicate HeadsRun(m: seq<int>, pages: seq<int>, lines: seq<int>)
    requires pages != [] && lines != []
  {
    forall i: nat, j: nat :: i < |pages| && j < |lines| ==>
                               Chase(m, pages[0] + lines[0], HeadStep(|lines|, i, j)) == pages[i] + lines[j]
  }

  lemma ChainedHeadsRun(m: seq<int>, g: Layout)
    requires Chained(m, g, |g.lines|) && g.words == [0]
    ensures HeadsRun(m, g.pages, g.lines)
  {
    hide LaneLinks, SingleCycle, Cells, Mul;
    forall i: nat, j: nat | i < |g.pages| && j < |g.lines|
      ensures Chase(m, g.pages[0] + g.lines[0], HeadStep(|g.lines|, i, j)) == g.pages[i] + g.lines[j]
    {
      LanesRun(m, g, |g.lines|, i, j, 0);
      MulSmall(Mul(|g.pages| - 1, |g.lines|) + |g.lines|);
    }
  }

  method LineInitialize(state: MemState)
    requires state.Sized()
    modifies state, state.p
    ensures fresh(state.mem) && HeadsReady(state)
    ensures state.npages == PagesFor(state.len, state.pagesize)
    ensures state.len == old(state.len) && state.line == old(state.line) && state.pagesize == old(state.pagesize)
    ensures state.lines != [] && HeadsRun(state.mem[..], state.pages[..state.npages], state.lines)
    ensures state.p[0] == state.pages[0] + state.lines[0] == state.pages[0]
  {
    hide Mul, Multiple, BitOrder, Chained, HeadsRun;
    BaseInitialize(state);
    PointerCount(state.len, state.S());
    ShapeCounts(state.S());
    var t := WordsInitialize(state.nlines, state.line);
    state.lines := t[..];
    state.width := 1;
    PrefixPaged(state.pages, state.npages, state.pagesize, state.mem.Length);
    TablesSeparated(state.pages[..state.npages], state.S(), state.mem.Length);
    FirstWord(state.S());
    var g := HeadLayout(state);
    HeadsSeparated(TableLayout(g.pages, state.S()), state.nlines, state.mem.Length);
    assert Heads(TableLayout(g.pages, state.S()), state.nlines) == g;
    LinkHeads(state.mem, g);
    ChainedHeadsRun(state.mem[..], g);
    state.p[0] := state.pages[0] + state.lines[0];
  }

  // ---------- line_test ----------

  /** Redirect line j of every page to the next page, or, to repair, to line j+1 of the same page. */
  method Redirect(mem: array<int>, g: Layout, j: nat, repair: bool)
    requires g.Separated(mem.Length) && g.NonEmpty() && g.words == [0] && j + 1 < |g.lines|
    modifies mem
    ensures mem[..] == Redirected(old(mem[..]), g, j, repair, |g.pages|)
  {
    hide OnlyLine, LineTo, Layout.Separated;
    var npages := |g.pages|;
    var i := 0;
    while i < npages - 1
      invariant 0 <= i <= npages - 1
      invariant mem[..] == Redirected(old(mem[..]), g, j, repair, i)
    {
      if repair {
        SetHead(mem, g, i, j, i, j + 1);
      } else {
        SetHead(mem, g, i, j, i + 1, 0);
      }
      i := i + 1;
    }
    if repair {
      SetHead(mem, g, npages - 1, j, npages - 1, j + 1);
    } else {
      SetHead(mem, g, npages - 1, j, 0, 0);
    }
  }

  function Target(g: Layout, j: nat, repair: bool, i: nat): int
    requires g.NonEmpty() && j + 1 < |g.lines| && i < |g.pages|
  {
    if repair then g.Addr(i, j + 1, 0)
    else if i + 1 < |g.pages| then g.Addr(i + 1, 0, 0)
    else g.Addr(0, 0, 0)
  }

  ghost function Redirected(m: seq<int>, g: Layout, j: nat, repair: bool, upto: nat): (m': seq<int>)
    requires g.Separated(|m|) && g.NonEmpty() && j + 1 < |g.lines| && upto <= |g.pages|
    ensures |m'| == |m|
  {
    if upto == 0 then m
    else Redirected(m, g, j, repair, upto - 1)[g.Addr(upto - 1, j, 0) := Target(g, j, repair, upto - 1)]
  }

  ghost predicate Tail(g: Layout, j: nat, upto: nat, x: int)
    requires g.NonEmpty() && j < |g.lines| && upto <= |g.pages|
  {
    exists i :: 0 <= i < upto && x == g.Addr(i, j, 0)
  }

  lemma {:induction false} RedirectedCells(m: seq<int>, g: Layout, j: nat, repair: bool, upto: nat)
    requires g.Separated(|m|) && g.NonEmpty() && j + 1 < |g.lines| && upto <= |g.pages|
    ensures var m' := Redirected(m, g, j, repair, upto);
            && (forall i :: 0 <= i < upto ==> m'[g.Addr(i, j, 0)] == Target(g, j, repair, i))
            && (forall x :: 0 <= x < |m| && !Tail(g, j, upto, x) ==> m'[x] == m[x])
  {
    if upto > 0 {
      RedirectedCells(m, g, j, repair, upto - 1);
      var m0, m' := Redirected(m, g, j, repair, upto - 1), Redirected(m, g, j, repair, upto);
      assert m' == m0[g.Addr(upto - 1, j, 0) := Target(g, j, repair, upto - 1)];
      forall x | 0 <= x < |m| && !Tail(g, j, upto, x)
        ensures m'[x] == m[x]
      {
        assert x != g.Addr(upto - 1, j, 0);
        assert !Tail(g, j, upto - 1, x);
      }
    }
  }

  /** While redirected, the first lines of all pages, up to line j, form one cycle. */
  lemma RedirectedCycle(m: seq<int>, g: Layout, j: nat)
    requires g.Separated(|m|) && g.NonEmpty() && g.words == [0] && j + 1 < |g.lines|
    requires LaneLinks(m, g, |g.lines|)
    ensures Chained(Redirected(m, g, j, false, |g.pages|), Heads(g, j + 1), j + 1)
  {
    var n := j + 1;
    var m', h := Redirected(m, g, j, false, |g.pages|), Heads(g, n);
    RedirectedCells(m, g, j, false, |g.pages|);
    HeadsSeparated(g, n, |m|);
    forall i: nat | i < |g.pages| ensures PageLinks(m', h, i, n) {
      RedirectedPage(m, m', g, i, j);
    }
    LinksChain(m', h, n);
  }

  lemma RedirectedPage(m: seq<int>, m': seq<int>, g: Layout, i: nat, j: nat)
    requires |m| == |m'| && g.Separated(|m|) && g.NonEmpty() && g.words == [0] && j + 1 < |g.lines| && i < |g.pages|
    requires LaneLinks(m, g, |g.lines|) && Heads(g, j + 1).Separated(|m|)
    requires forall i, t :: 0 <= i < |g.pages| && 0 <= t < j + 1 ==> Heads(g, j + 1).Addr(i, t, 0) == g.Addr(i, t, 0)
    requires forall x :: 0 <= x < |m| && !Tail(g, j, |g.pages|, x) ==> m'[x] == m[x]
    ensures PageLinks(m', Heads(g, j + 1), i, j + 1)
  {
    var h := Heads(g, j + 1);
    assert PageLinks(m, g, i, LinesOn(g, |g.lines|, i));
    forall t, k | 0 <= t < j && 0 <= k < 1
      ensures m'[h.Addr(i, t, k)] == h.Addr(i, t + 1, k)
    {
      assert g.InRange(i, t, 0);
      assert !Tail(g, j, |g.pages|, g.Addr(i, t, 0));
      assert h.Addr(i, t, 0) == g.Addr(i, t, 0) && h.Addr(i, t + 1, 0) == g.Addr(i, t + 1, 0);
    }
  }

  /** Repairing after redirecting restores every cell. */
  lemma RepairRestores(m: seq<int>, g: Layout, j: nat)
    requires g.Separated(|m|) && g.NonEmpty() && g.words == [0] && j + 1 < |g.lines|
    requires LaneLinks(m, g, |g.lines|)
    ensures Redirected(Redirected(m, g, j, false, |g.pages|), g, j, true, |g.pages|) == m
  {
    hide Redirected;
    var m' := Redirected(m, g, j, false, |g.pages|);
    RedirectedCells(m, g, j, false, |g.pages|);
    RedirectedCells(m', g, j, true, |g.pages|);
    var m'' := Redirected(m', g, j, true, |g.pages|);
    forall x | 0 <= x < |m|
      ensures m''[x] == m[x]
    {
      if Tail(g, j, |g.pages|, x) {
        var i :| 0 <= i < |g.pages| && x == g.Addr(i, j, 0);
        assert PageLinks(m, g, i, LinesOn(g, |g.lines|, i));
      }
    }
  }

  /** x is the first word of a block of size bytes inside one of the pages. */
  ghost predicate BlockStart(x: int, pages: seq<int>, pagesize: nat, size: nat) {
    Multiple(x, size) && exists i :: 0 <= i < |pages| && pages[i] <= x < pages[i] + pagesize
  }

  lemma BlockHeads(pages: seq<int>, pagesize: nat, n: nat, size: nat, x: int)
    requires IsPow2(n) && size > 0 && pagesize == Mul(n, size)
    requires forall i :: 0 <= i < |pages| ==> Multiple(pages[i], pagesize)
    ensures x in Cells(Layout(pages, BitOrder(n, size), [0]), n) <==> BlockStart(x, pages, pagesize, size)
  {
    hide Mul, Multiple, BitOrder;
    var g := Layout(pages, BitOrder(n, size), [0]);
    MulMultiple(n, size);
    if x in Cells(g, n) {
      var i, j, k :| 0 <= i < |pages| && 0 <= j < LinesOn(g, n, i) && 0 <= k < |g.words| && x == g.Addr(i, j, k);
      BitOrderRange(n, size, j);
      NonNegative(g.lines[j], size);
      MultipleTransitive(pages[i], pagesize, size);
      MultipleSum(pages[i], g.lines[j], size);
      assert x == pages[i] + g.lines[j];
    }
    if BlockStart(x, pages, pagesize, size) {
      var i :| 0 <= i < |pages| && pages[i] <= x < pages[i] + pagesize;
      MultipleTransitive(pages[i], pagesize, size);
      MultipleDifference(x, pages[i], size);
      BitOrderCovers(n, size, x - pages[i]);
      var j :| 0 <= j < |g.lines| && g.lines[j] == x - pages[i];
      assert x == g.Addr(i, j, 0);
    }
  }

  /** One cycle of n words a page that visits the first word of every block of line bytes. */
  ghost predicate OneWordPerBlock(m: seq<int>, start: int, pages: seq<int>, pagesize: nat, n: nat, line: nat) {
    exists cells: set<int> ::
      && SingleCycle(m, start, cells) && |cells| == Mul(|pages|, n)
      && forall x :: x in cells <==> BlockStart(x, pages, pagesize, line)
  }

  /**
   line_test for a line of times lines of the chain, n to a page: while the benchmark runs, the memory
   is one cycle over the first word of every block of that size; afterwards memory is as it was.
   */
  method LineTest(state: MemState, line: nat, ghost n: nat, ghost times: nat) returns (ghost during: seq<int>)
    requires HeadsReady(state) && line > 0 && IsPow2(n) && IsPow2(times)
    requires state.pagesize == Mul(n, line) && line == Mul(times, state.line) && state.nlines == Mul(n, times)
    modifies state.mem
    ensures state.mem[..] == old(state.mem[..])
    ensures |during| == state.mem.Length
    ensures OneWordPerBlock(during, state.pages[0] + state.lines[0], state.pages[..state.npages], state.pagesize, n, line)
    ensures 1 <= n <= |state.lines| && HeadsRun(during, state.pages[..state.npages], state.lines[..n])
  {
    hide Mul, Multiple, BitOrder, LaneLinks, Redirected, Cells, HeadsRun;
    MulMultiple(n, line);
    var nlines := state.pagesize / line;
    var g := HeadLayout(state);
    BitOrderPrefix(n, times, state.line);
    assert Heads(g, n) == Layout(g.pages, BitOrder(n, line), [0]);
    ghost var m := state.mem[..];
    if nlines < state.nlines {
      Redirect(state.mem, g, nlines - 1, false);
      RedirectedCycle(m, g, nlines - 1);
    } else {
      assert g.lines[..n] == g.lines;
      assert Heads(g, n) == g;
    }
    during := state.mem[..];
    ChainedHeadsRun(during, Heads(g, n));
    // what BENCH1 times runs here
    if nlines < state.nlines {
      Redirect(state.mem, g, nlines - 1, true);
      RepairRestores(m, g, nlines - 1);
    }
    HeadFacts(during, state.S(), Heads(g, n), n, line, times);
  }

  lemma HeadFacts(during: seq<int>, s: Shape, h: Layout, n: nat, line: nat, times: nat)
    requires s.Valid() && IsPow2(n) && line == Mul(times, s.line) && line > 0 && s.nlines == Mul(n, times)
    requires h == Layout(h.pages, BitOrder(n, line), [0]) && Chained(during, h, n)
    requires forall i :: 0 <= i < |h.pages| ==> Multiple(h.pages[i], s.pagesize)
    ensures OneWordPerBlock(during, h.pages[0] + h.lines[0], h.pages, s.pagesize, n, line)
  {
    hide Mul, Multiple, BitOrder, LaneLinks, Cells, SingleCycle;
    MulAssoc(n, times, s.line);
    MulPlus(|h.pages| - 1, 1, n);
    MulSmall(n);
    MulSmall(Mul(|h.pages| - 1, n) + n);
    assert h.Addr(0, 0, 0) == h.pages[0] + h.lines[0];
    var cells := Cells(h, n);
    forall x ensures x in cells <==> BlockStart(x, h.pages, s.pagesize, line) {
      BlockHeads(h.pages, s.pagesize, n, line, x);
    }
    assert SingleCycle(during, h.pages[0] + h.lines[0], cells) && |cells| == Mul(|h.pages|, n);
  }
}
