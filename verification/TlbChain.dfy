/** tlb_initialize of lib_mem.c: a chain that uses one word of every page. */
module TlbChain {
  import opened Arith
  import opened PointerChain
  import opened Tables
  import opened LibMem
  import opened BitReversal
  import opened Shuffles
  import Thrash

  /** The word used on page i: from page to page the offsets run through the table. */
  function Stop(pages: seq<int>, lines: seq<int>, i: nat): int
    requires i < |pages| && lines != []
  {
    pages[i] + lines[i % |lines|]
  }

  function Stops(pages: seq<int>, lines: seq<int>): (s: seq<int>)
    requires lines != []
    ensures |s| == |pages|
  {
    seq(|pages|, i requires 0 <= i < |pages| => Stop(pages, lines, i))
  }

  /** Offsets that stay inside a page. */
  ghost predicate Inside(lines: seq<int>, pagesize: nat) {
    lines != [] && forall j :: 0 <= j < |lines| ==> 0 <= lines[j] < pagesize
  }

  /** The first page stays first; the others are put in an order of a single cycle. */
  method ShufflePages(pages: array<int>, pagesize: nat, size: nat, rand: nat -> nat)
    requires pages.Length >= 1 && Paged(pages[..], pagesize, size)
    modifies pages
    ensures Paged(pages[..], pagesize, size)
    ensures Reshuffled(pages[..], old(pages[..]), Order(ChosenEarlier(rand, pages.Length - 1)))
  {
    hide Paged, Shuffled, Order, Swap, Reshuffled;
    var n := pages.Length - 1;
    ghost var start, picks := pages[..], ChosenEarlier(rand, n);
    if n == 0 {
      SameTail(start, picks);
      return;
    }
    var i := n - 1;
    while i > 0
      invariant 0 <= i < n && pages[0] == start[0]
      invariant Shuffled(pages[..][1..], picks, i) == Shuffled(start[1..], picks, n - 1)
      decreases i
    {
      ghost var before := pages[..];
      var t := rand(i) % i + 1;
      var l := pages[t];
      pages[t] := pages[i + 1];
      pages[i + 1] := l;
      TailSwap(before, pages[..], t - 1, i);
      ShuffledStep(before[1..], picks, i);
      i := i - 1;
    }
    ShuffledEnd(pages[..][1..], picks);
    TailShuffled(pages[..], start, picks);
    TailPaged(pages[..], start, picks, pagesize, size);
  }

  /** The first entry is the same, the entries after it are rearranged in the given order. */
  ghost predicate Reshuffled(s: seq<int>, s0: seq<int>, order: seq<nat>) {
    && |s| == |s0| == |order| + 1 && s[0] == s0[0]
    && forall p :: 0 <= p < |order| ==> order[p] < |order| && s[1 + p] == s0[1 + order[p]]
  }

  lemma SameTail(s: seq<int>, picks: seq<nat>)
    requires |s| == 1 && picks == []
    ensures Reshuffled(s, s, Order(picks))
  {
  }

  lemma TailSwap(s: seq<int>, t: seq<int>, a: nat, b: nat)
    requires a + 1 < |s| && b + 1 < |s| && t == s[a + 1 := s[b + 1]][b + 1 := s[a + 1]]
    ensures t[0] == s[0] && t[1..] == Swap(s[1..], a, b)
  {
  }

  lemma TailShuffled(s: seq<int>, s0: seq<int>, picks: seq<nat>)
    requires |s| == |s0| == |picks| + 1 >= 2 && s[0] == s0[0] && Picks(picks)
    requires s[1..] == Shuffled(s0[1..], picks, |picks| - 1)
    ensures Reshuffled(s, s0, Order(picks))
  {
    hide Order, Shuffled;
    ShuffledOrder(s0[1..], picks, |picks| - 1);
    assert picks[..|picks| - 1 + 1] == picks;
    forall p | 0 <= p < |picks| ensures Order(picks)[p] < |picks| && s[1 + p] == s0[1 + Order(picks)[p]] {
      assert s[1 + p] == s[1..][p];
    }
  }

  lemma TailPaged(s: seq<int>, s0: seq<int>, picks: seq<nat>, pagesize: nat, size: nat)
    requires Picks(picks) && Reshuffled(s, s0, Order(picks)) && Paged(s0, pagesize, size)
    ensures Paged(s, pagesize, size)
  {
    hide Order, Multiple;
    OrderIsOrder(picks);
    var o := Order(picks);
    forall i | 0 <= i < |s| ensures s[i] == s0[if i == 0 then 0 else 1 + o[i - 1]] {
      assert i > 0 ==> s[1 + (i - 1)] == s0[1 + o[i - 1]];
    }
  }

  /** With several pages after the first, none of them keeps its place. */
  lemma EveryPageMoves(s: seq<int>, s0: seq<int>, rand: nat -> nat, i: nat)
    requires |s| >= 3 && 1 <= i < |s| && Distinct(s0) && Reshuffled(s, s0, Order(ChosenEarlier(rand, |s| - 1)))
    ensures s[i] != s0[i]
  {
    hide Order, ChosenEarlier, Cyclic, IsOrder;
    var picks := ChosenEarlier(rand, |s| - 1);
    OrderIsOrder(picks);
    CyclicExactly(picks);
    CyclicMoves(Order(picks), i - 1);
    MovedPage(s, s0, Order(picks), i);
  }

  lemma MovedPage(s: seq<int>, s0: seq<int>, order: seq<nat>, i: nat)
    requires 1 <= i < |s| && Distinct(s0) && Reshuffled(s, s0, order) && order[i - 1] != i - 1
    ensures s[i] != s0[i]
  {
    assert s[1 + (i - 1)] == s0[1 + order[i - 1]];
  }

  /** The loop that links the pages. */
  method LinkPages(mem: array<int>, pages: seq<int>, lines: seq<int>)
    requires pages != [] && lines != [] && forall i :: 0 <= i < |pages| ==> 0 <= Stops(pages, lines)[i] < mem.Length
    modifies mem
    ensures mem[..] == Thrash.Followed(old(mem[..]), Stops(pages, lines), |pages|)
  {
    ghost var stops := Stops(pages, lines);
    assert Stop(pages, lines, 0) == pages[0] + lines[0];
    var i := 0;
    while i < |pages| - 1
      invariant 0 <= i < |pages| && mem[..] == Thrash.Followed(old(mem[..]), stops, i)
    {
      assert stops[i] == Stop(pages, lines, i) && stops[i + 1] == Stop(pages, lines, i + 1);
      mem[pages[i] + lines[i % |lines|]] := pages[i + 1] + lines[(i + 1) % |lines|];
      i := i + 1;
    }
    assert stops[i] == Stop(pages, lines, i);
    mem[pages[i] + lines[i % |lines|]] := pages[0] + lines[0];
  }

  lemma StopInPage(pages: seq<int>, lines: seq<int>, pagesize: nat, size: nat, i: nat)
    requires Paged(pages, pagesize, size) && Inside(lines, pagesize) && i < |pages|
    ensures pages[i] <= Stop(pages, lines, i) < pages[i] + pagesize && 0 <= Stop(pages, lines, i) < size
  {
  }

  lemma StopsDistinct(pages: seq<int>, lines: seq<int>, pagesize: nat, size: nat)
    requires Paged(pages, pagesize, size) && Inside(lines, pagesize)
    ensures Distinct(Stops(pages, lines))
    ensures forall i :: 0 <= i < |pages| ==> 0 <= Stops(pages, lines)[i] < size
  {
    hide Multiple;
    var s := Stops(pages, lines);
    forall i | 0 <= i < |pages| ensures 0 <= s[i] < size {
      StopInPage(pages, lines, pagesize, size, i);
    }
    forall i, j | 0 <= i < j < |s| ensures s[i] != s[j] {
      if s[i] == s[j] {
        AlignedSplit(pages[i], lines[i % |lines|], pages[j], lines[j % |lines|], pagesize);
      }
    }
  }

  predicate OnPage(x: int, page: int, pagesize: nat) {
    page <= x < page + pagesize
  }

  ghost predicate Inhabited(cells: set<int>, page: int, pagesize: nat) {
    exists x :: x in cells && OnPage(x, page, pagesize)
  }

  ghost predicate Housed(x: int, pages: seq<int>, pagesize: nat) {
    exists i :: 0 <= i < |pages| && OnPage(x, pages[i], pagesize)
  }

  /** All cells lie on the pages, and every page has one. */
  ghost predicate Spread(cells: set<int>, pages: seq<int>, pagesize: nat) {
    && (forall x :: x in cells ==> Housed(x, pages, pagesize))
    && (forall i :: 0 <= i < |pages| ==> Inhabited(cells, pages[i], pagesize))
  }

  /** One cycle of as many words as there are pages, with a word of every page. */
  ghost predicate OneWordPerPage(m: seq<int>, start: int, pages: seq<int>, pagesize: nat) {
    exists cells: set<int> :: SingleCycle(m, start, cells) && |cells| == |pages| && Spread(cells, pages, pagesize)
  }

  /** The word of page i lies on page i, and every word on one of the pages. */
  lemma StopsOnPages(pages: seq<int>, lines: seq<int>, pagesize: nat, size: nat)
    requires Paged(pages, pagesize, size) && Inside(lines, pagesize)
    ensures forall i :: 0 <= i < |pages| ==> OnPage(Stops(pages, lines)[i], pages[i], pagesize)
  {
    forall i | 0 <= i < |pages| ensures OnPage(Stops(pages, lines)[i], pages[i], pagesize) {
      StopInPage(pages, lines, pagesize, size, i);
    }
  }

  lemma CellsOnPages(s: seq<int>, pages: seq<int>, pagesize: nat)
    requires |s| == |pages| && forall i :: 0 <= i < |pages| ==> OnPage(s[i], pages[i], pagesize)
    ensures Spread(Elements(s), pages, pagesize)
  {
    hide OnPage;
    forall x | x in Elements(s) ensures Housed(x, pages, pagesize) {
      var i :| 0 <= i < |s| && s[i] == x;
      assert OnPage(s[i], pages[i], pagesize);
    }
    forall i | 0 <= i < |pages| ensures Inhabited(Elements(s), pages[i], pagesize) {
      assert s[i] in Elements(s) && OnPage(s[i], pages[i], pagesize);
    }
  }

  lemma StopsCycle(m: seq<int>, pages: seq<int>, lines: seq<int>, pagesize: nat)
    requires pages != [] && Paged(pages, pagesize, |m|) && Inside(lines, pagesize)
    requires forall i :: 0 <= i < |pages| ==> 0 <= Stops(pages, lines)[i] < |m|
    ensures OneWordPerPage(Thrash.Followed(m, Stops(pages, lines), |pages|), pages[0] + lines[0], pages, pagesize)
  {
    var s := Stops(pages, lines);
    assert s[0] == Stop(pages, lines, 0) == pages[0] + lines[0];
    hide Thrash.Followed, SingleCycle, Paged, Segment, Distinct, Elements, Inside, OnPage, Stops, Spread;
    StopsDistinct(pages, lines, pagesize, |m|);
    StopsOnPages(pages, lines, pagesize, |m|);
    Thrash.FollowedSegment(m, s);
    CycleFromPath(Thrash.Followed(m, s, |s|), s);
    CellsOnPages(s, pages, pagesize);
    assert SingleCycle(Thrash.Followed(m, s, |pages|), pages[0] + lines[0], Elements(s));
  }

  lemma TableInside(words: nat, word: nat, pagesize: nat)
    requires word > 0 && words == pagesize / word >= 1
    ensures Inside(BitOrder(words, word), pagesize) && BitOrder(words, word)[0] == 0
  {
    hide Mul, BitOrder;
    DivParts(pagesize, word);
    Thrash.TableBounds(words, word);
    Thrash.FirstOffset(words, word);
  }

  // ---------- the offsets in use ----------

  /** The offset used on page i. */
  function Offset(lines: seq<int>, i: nat): int
    requires lines != []
  {
    lines[i % |lines|]
  }

  /** Among n numbers in a row every remainder modulo n occurs. */
  lemma InRow(a: nat, n: nat, r: nat) returns (x: nat)
    requires r < n
    ensures a <= x < a + n && x % n == r
  {
    hide Mul;
    DivParts(a, n);
    Turn(a, if r >= a % n then r - a % n else r + n - a % n, n);
    x := if r >= a % n then a + (r - a % n) else a + (r + n - a % n);
  }

  /** And only once. */
  lemma OnceInRow(a: nat, n: nat, x: nat, y: nat)
    requires a <= x < y < a + n
    ensures x % n != y % n
  {
    Turn(x, y - x, n);
  }

  /** Pages a, a+1 and so on, as many as a page has words, use different offsets. */
  ghost predicate WindowApart(lines: seq<int>, a: nat)
    requires lines != []
  {
    forall x: nat, y: nat :: a <= x < y < a + |lines| ==> Offset(lines, x) != Offset(lines, y)
  }

  lemma WindowDistinct(lines: seq<int>, a: nat)
    requires lines != []
    ensures WindowApart(lines, a) <==> Distinct(lines)
  {
    var n := |lines|;
    if WindowApart(lines, a) {
      forall i, j | 0 <= i < j < n ensures lines[i] != lines[j] {
        var x := InRow(a, n, i);
        var y := InRow(a, n, j);
        assert Offset(lines, x) == lines[i] && Offset(lines, y) == lines[j];
        assert x < y || y < x;
      }
    }
    if Distinct(lines) {
      forall x: nat, y: nat | a <= x < y < a + n ensures Offset(lines, x) != Offset(lines, y) {
        OnceInRow(a, n, x, y);
      }
    }
  }

  /** Every offset of a word in a page of that many words is used on one of those pages. */
  ghost predicate WindowCovers(lines: seq<int>, word: nat, a: nat)
    requires lines != []
  {
    forall o: nat :: Multiple(o, word) && o < Mul(|lines|, word) ==>
                       exists x: nat :: a <= x < a + |lines| && Offset(lines, x) == o
  }

  /**
   Any run of as many pages as a page has words uses each offset once, and so loads every set of the
   cache evenly, exactly when the number of words is a power of two.
   */
  lemma OffsetsRunRound(nlines: nat, word: nat, a: nat)
    requires nlines >= 1 && word > 0
    ensures WindowApart(BitOrder(nlines, word), a) <==> IsPow2(nlines)
    ensures IsPow2(nlines) ==> WindowCovers(BitOrder(nlines, word), word, a)
  {
    hide BitOrder, Mul, Multiple;
    var lines := BitOrder(nlines, word);
    WindowDistinct(lines, a);
    DistinctExactlyForPow2(nlines, word);
    if IsPow2(nlines) {
      forall o: nat | Multiple(o, word) && o < Mul(nlines, word)
        ensures exists x: nat :: a <= x < a + nlines && Offset(lines, x) == o
      {
        BitOrderCovers(nlines, word, o);
        var i :| 0 <= i < nlines && lines[i] == o;
        var x := InRow(a, nlines, i);
        assert Offset(lines, x) == o;
      }
    }
  }

  /** The i-th word of the chase lies on page i, at the offset that is next in the table. */
  ghost predicate RunsThrough(m: seq<int>, start: int, pages: seq<int>, lines: seq<int>)
    requires lines != []
  {
    forall i: nat :: i < |pages| ==> Chase(m, start, i) == pages[i] + lines[i % |lines|]
  }

  lemma StopAt(pages: seq<int>, lines: seq<int>, i: nat)
    requires lines != [] && i < |pages|
    ensures Stops(pages, lines)[i] == pages[i] + lines[i % |lines|] && (i == 0 ==> i % |lines| == 0)
  {
    if i == 0 {
      SmallMod(0, |lines|);
    }
  }

  lemma StopsRun(m: seq<int>, pages: seq<int>, lines: seq<int>, pagesize: nat)
    requires pages != [] && lines != [] && Paged(pages, pagesize, |m|) && Inside(lines, pagesize)
    requires forall i :: 0 <= i < |pages| ==> 0 <= Stops(pages, lines)[i] < |m|
    ensures RunsThrough(Thrash.Followed(m, Stops(pages, lines), |pages|), pages[0] + lines[0], pages, lines)
  {
    hide Thrash.Followed, Paged, Inside, Segment, Distinct, Stops, Chase;
    StopsDistinct(pages, lines, pagesize, |m|);
    Thrash.FollowedSegment(m, Stops(pages, lines));
    SegmentRuns(Thrash.Followed(m, Stops(pages, lines), |pages|), pages, lines);
  }

  lemma SegmentRuns(m: seq<int>, pages: seq<int>, lines: seq<int>)
    requires pages != [] && lines != [] && Segment(m, Stops(pages, lines))
    ensures RunsThrough(m, pages[0] + lines[0], pages, lines)
  {
    hide Segment, Stops, Chase;
    StopAt(pages, lines, 0);
    forall i: nat | i < |pages| ensures Chase(m, pages[0] + lines[0], i) == pages[i] + lines[i % |lines|] {
      ChaseFollows(m, Stops(pages, lines), i);
      StopAt(pages, lines, i);
    }
  }

  /** The chain through all pages. */
  method LinkRun(mem: array<int>, pages: seq<int>, lines: seq<int>, pagesize: nat)
    requires pages != [] && Paged(pages, pagesize, mem.Length) && Inside(lines, pagesize)
    modifies mem
    ensures RunsThrough(mem[..], pages[0] + lines[0], pages, lines)
    ensures OneWordPerPage(mem[..], pages[0] + lines[0], pages, pagesize)
  {
    hide OneWordPerPage, RunsThrough, Thrash.Followed, Paged, Stops;
    ghost var m := mem[..];
    StopsDistinct(pages, lines, pagesize, mem.Length);
    LinkPages(mem, pages, lines);
    StopsCycle(m, pages, lines, pagesize);
    StopsRun(m, pages, lines, pagesize);
  }

  /**
   tlb_initialize over pages that were allocated one by one: one cycle with one word of every page, at
   offsets that run through the table, entered at the start of the first.  addr lists the pages, rand the
   random numbers in use at each exchange; there are len/pagesize pages.
   */
  method TlbInitialize(state: MemState, addr: seq<int>, rand: nat -> nat)
    requires 0 < state.word <= state.pagesize && state.p.Length == MAX_MEM_PARALLELISM && state.mem != state.p
    requires |addr| == state.len / state.pagesize >= 1 && Paged(addr, state.pagesize, state.mem.Length)
    modifies state, state.mem, state.p
    ensures state.mem == old(state.mem) && state.pagesize == old(state.pagesize) && state.len == old(state.len)
    ensures state.npages == |state.pages| == |addr| && Reshuffled(state.pages, addr, Order(ChosenEarlier(rand, |addr| - 1)))
    ensures state.p[0] == state.pages[0] == addr[0]
    ensures state.nlines == state.pagesize / state.word >= 1
    ensures RunsThrough(state.mem[..], state.p[0], state.pages, BitOrder(state.nlines, state.word))
    ensures OneWordPerPage(state.mem[..], state.p[0], state.pages, state.pagesize)
  {
    hide Mul, Multiple, BitOrder, OneWordPerPage, RunsThrough, Order, Paged, Inside, ChosenEarlier, Log2, Rev, Reshuffled;
    var nlines := state.pagesize / state.word;
    QuotientPositive(state.pagesize, state.word);
    state.nwords, state.nlines, state.npages := 1, nlines, state.len / state.pagesize;
    var lines := WordsInitialize(nlines, state.word);
    TableInside(nlines, state.word, state.pagesize);
    var pages := OrderPages(addr, state.pagesize, state.mem.Length, rand);
    FirstStays(pages, addr, Order(ChosenEarlier(rand, |addr| - 1)));
    state.words, state.lines, state.pages := [], lines[..], pages;
    LinkRun(state.mem, state.pages, state.lines, state.pagesize);
    state.p[0] := state.pages[0] + state.lines[0];
  }

  /** The pages in the order of the chain. */
  method OrderPages(addr: seq<int>, pagesize: nat, size: nat, rand: nat -> nat) returns (pages: seq<int>)
    requires addr != [] && Paged(addr, pagesize, size)
    ensures Paged(pages, pagesize, size) && Reshuffled(pages, addr, Order(ChosenEarlier(rand, |addr| - 1)))
  {
    hide Paged, Order, ChosenEarlier, Reshuffled;
    var list := new int[|addr|](i requires 0 <= i < |addr| => addr[i]);
    assert list[..] == addr;
    ShufflePages(list, pagesize, size, rand);
    pages := list[..];
  }

  lemma FirstStays(s: seq<int>, s0: seq<int>, order: seq<nat>)
    requires Reshuffled(s, s0, order)
    ensures |s| == |s0| >= 1 && s[0] == s0[0]
  {
  }
}
