/** The chain builders of lib_mem.c that run through pages, lines and words. */
module LibMem {
  import opened Arith
  import opened BitReversal
  import opened PointerChain
  import opened Lanes
  import opened Tables
  import opened Shuffles

  const MAX_MEM_PARALLELISM: nat := 16

  // ---------- linking one line at a time ----------

  /** Only the words of line j of page i changed. */
  ghost predicate OnlyLine(m: seq<int>, m': seq<int>, g: Layout, i: nat, j: nat)
    requires |m| == |m'| && g.Separated(|m|)
  {
    forall i', j', k' :: g.InRange(i', j', k') && (i' != i || j' != j) ==> m'[g.Addr(i', j', k')] == m[g.Addr(i', j', k')]
  }

  /** Every word of line j of page i points to the same word, or the next one, of line j2 of page i2. */
  ghost predicate LineTo(m: seq<int>, g: Layout, i: nat, j: nat, i2: nat, j2: nat, rotate: bool)
    requires g.Separated(|m|) && i < |g.pages| && j < |g.lines| && i2 < |g.pages| && j2 < |g.lines|
  {
    forall k :: 0 <= k < |g.words| ==> m[g.Addr(i, j, k)] == g.Addr(i2, j2, if rotate then NextWord(g, k) else k)
  }

  /** Cells that are not words of line j of page i did not change. */
  ghost predicate Elsewhere(m: seq<int>, m': seq<int>, g: Layout, i: nat, j: nat)
    requires |m| == |m'| && i < |g.pages| && j < |g.lines|
  {
    forall x :: 0 <= x < |m| && !OnLine(g, i, j, x) ==> m'[x] == m[x]
  }

  ghost predicate OnLine(g: Layout, i: nat, j: nat, x: int)
    requires i < |g.pages| && j < |g.lines|
  {
    exists k :: 0 <= k < |g.words| && x == g.Addr(i, j, k)
  }

  lemma KeepPage(m: seq<int>, m': seq<int>, g: Layout, i: nat, j: nat, i': nat, n: nat)
    requires |m| == |m'| && g.Separated(|m|) && OnlyLine(m, m', g, i, j)
    requires i' < |g.pages| && n <= |g.lines| && (i' != i || n - 1 <= j) && PageLinks(m, g, i', n)
    ensures PageLinks(m', g, i', n)
  {
    forall j', k' | 0 <= j' < n - 1 && 0 <= k' < |g.words|
      ensures m'[g.Addr(i', j', k')] == g.Addr(i', j' + 1, k')
    {
      assert g.InRange(i', j', k');
    }
  }

  lemma KeepStep(m: seq<int>, m': seq<int>, g: Layout, i: nat, j: nat, i': nat)
    requires |m| == |m'| && g.Separated(|m|) && g.NonEmpty() && OnlyLine(m, m', g, i, j)
    requires i' + 1 < |g.pages| && (i' != i || j != |g.lines| - 1) && StepLinks(m, g, i')
    ensures StepLinks(m', g, i')
  {
    var j', next := |g.lines| - 1, i' + 1;
    forall k' | 0 <= k' < |g.words|
      ensures m'[g.Addr(i', j', k')] == g.Addr(next, 0, k')
    {
      assert g.InRange(i', j', k');
    }
  }

  /** The chain as far as line j of page i. */
  ghost predicate Built(m: seq<int>, g: Layout, i: nat, j: nat)
    requires g.Separated(|m|) && g.NonEmpty() && i < |g.pages| && j < |g.lines|
  {
    && (forall i' :: 0 <= i' < i ==> PageLinks(m, g, i', |g.lines|) && StepLinks(m, g, i'))
    && PageLinks(m, g, i, j + 1)
  }

  lemma KeepBefore(m: seq<int>, m': seq<int>, g: Layout, i: nat, j: nat)
    requires |m| == |m'| && g.Separated(|m|) && g.NonEmpty() && i < |g.pages| && j < |g.lines|
    requires Built(m, g, i, j) && OnlyLine(m, m', g, i, j)
    ensures Built(m', g, i, j)
  {
    forall i' | 0 <= i' < i
      ensures PageLinks(m', g, i', |g.lines|) && StepLinks(m', g, i')
    {
      KeepPage(m, m', g, i, j, i', |g.lines|);
      KeepStep(m, m', g, i, j, i');
    }
    KeepPage(m, m', g, i, j, i, j + 1);
  }

  lemma BuiltLine(m: seq<int>, m': seq<int>, g: Layout, i: nat, j: nat)
    requires |m| == |m'| && g.Separated(|m|) && g.NonEmpty() && i < |g.pages| && j + 1 < |g.lines|
    requires Built(m, g, i, j) && OnlyLine(m, m', g, i, j) && LineTo(m', g, i, j, i, j + 1, false)
    ensures Built(m', g, i, j + 1)
  {
    KeepBefore(m, m', g, i, j);
    forall j', k | 0 <= j' < j + 1 && 0 <= k < |g.words|
      ensures m'[g.Addr(i, j', k)] == g.Addr(i, j' + 1, k)
    {
    }
  }

  lemma BuiltPage(m: seq<int>, m': seq<int>, g: Layout, i: nat)
    requires |m| == |m'| && g.Separated(|m|) && g.NonEmpty() && i + 1 < |g.pages|
    requires Built(m, g, i, |g.lines| - 1) && OnlyLine(m, m', g, i, |g.lines| - 1)
    requires LineTo(m', g, i, |g.lines| - 1, i + 1, 0, false)
    ensures Built(m', g, i + 1, 0)
  {
    KeepBefore(m, m', g, i, |g.lines| - 1);
    assert StepLinks(m', g, i);
  }

  lemma BuiltWrap(m: seq<int>, m': seq<int>, g: Layout, last: nat)
    requires |m| == |m'| && g.Separated(|m|) && g.NonEmpty() && 1 <= last <= |g.lines|
    requires var i := |g.pages| - 1;
             Built(m, g, i, last - 1) && OnlyLine(m, m', g, i, last - 1) && LineTo(m', g, i, last - 1, 0, 0, true)
    ensures LaneLinks(m', g, last)
  {
    KeepBefore(m, m', g, |g.pages| - 1, last - 1);
  }

  /**
   for (k = 0; k < nwords; ++k): words in table order, from the line at one address to the line at
   another.  These are line j of page i and line j2 of page i2 of the layout.
   */
  method LinkWords(mem: array<int>, from: int, to: int, words: seq<int>, rotate: bool,
                   ghost g: Layout, ghost i: nat, ghost j: nat, ghost i2: nat, ghost j2: nat)
    requires g.Separated(mem.Length) && i < |g.pages| && j < |g.lines| && i2 < |g.pages| && j2 < |g.lines|
    requires from == g.pages[i] + g.lines[j] && to == g.pages[i2] + g.lines[j2] && words == g.words
    modifies mem
    ensures OnlyLine(old(mem[..]), mem[..], g, i, j)
    ensures LineTo(mem[..], g, i, j, i2, j2, rotate)
    ensures Elsewhere(old(mem[..]), mem[..], g, i, j)
  {
    hide OnlyLine, Elsewhere, WordsTo;
    ghost var m := mem[..];
    var k := 0;
    NoWordsYet(m, g, i, j, i2, j2, rotate);
    while k < |words|
      invariant k <= |words|
      invariant OnlyLine(m, mem[..], g, i, j) && Elsewhere(m, mem[..], g, i, j)
      invariant WordsTo(mem[..], g, i, j, i2, j2, rotate, k)
    {
      var next := if rotate then (if k == |words| - 1 then 0 else k + 1) else k;
      assert g.InRange(i, j, k) && from + words[k] == g.Addr(i, j, k) && to + words[next] == g.Addr(i2, j2, next);
      NextWordTo(m, mem[..], g, i, j, i2, j2, rotate, k);
      mem[from + words[k]] := to + words[next];
      k := k + 1;
    }
    AllWordsTo(mem[..], g, i, j, i2, j2, rotate);
  }

  /** The first n words of line j of page i are linked. */
  ghost predicate WordsTo(m: seq<int>, g: Layout, i: nat, j: nat, i2: nat, j2: nat, rotate: bool, n: nat)
    requires g.Separated(|m|) && i < |g.pages| && j < |g.lines| && i2 < |g.pages| && j2 < |g.lines| && n <= |g.words|
  {
    forall k :: 0 <= k < n ==> m[g.Addr(i, j, k)] == g.Addr(i2, j2, if rotate then NextWord(g, k) else k)
  }

  lemma NoWordsYet(m: seq<int>, g: Layout, i: nat, j: nat, i2: nat, j2: nat, rotate: bool)
    requires g.Separated(|m|) && i < |g.pages| && j < |g.lines| && i2 < |g.pages| && j2 < |g.lines|
    ensures OnlyLine(m, m, g, i, j) && Elsewhere(m, m, g, i, j) && WordsTo(m, g, i, j, i2, j2, rotate, 0)
  {
  }

  lemma NextWordTo(m0: seq<int>, m: seq<int>, g: Layout, i: nat, j: nat, i2: nat, j2: nat, rotate: bool, k: nat)
    requires |m0| == |m| && g.Separated(|m|) && g.InRange(i, j, k) && i2 < |g.pages| && j2 < |g.lines|
    requires OnlyLine(m0, m, g, i, j) && Elsewhere(m0, m, g, i, j) && WordsTo(m, g, i, j, i2, j2, rotate, k)
    ensures var after := m[g.Addr(i, j, k) := g.Addr(i2, j2, if rotate then NextWord(g, k) else k)];
            && OnlyLine(m0, after, g, i, j) && Elsewhere(m0, after, g, i, j)
            && WordsTo(after, g, i, j, i2, j2, rotate, k + 1)
  {
    hide Elsewhere;
    var after := m[g.Addr(i, j, k) := g.Addr(i2, j2, if rotate then NextWord(g, k) else k)];
    forall k' | 0 <= k' < k ensures g.Addr(i, j, k') != g.Addr(i, j, k) {
      assert g.InRange(i, j, k');
    }
    StillElsewhere(m0, m, g, i, j, k, after[g.Addr(i, j, k)]);
  }

  lemma StillElsewhere(m0: seq<int>, m: seq<int>, g: Layout, i: nat, j: nat, k: nat, x: int)
    requires |m0| == |m| && g.Separated(|m|) && g.InRange(i, j, k) && Elsewhere(m0, m, g, i, j)
    ensures Elsewhere(m0, m[g.Addr(i, j, k) := x], g, i, j)
  {
  }

  lemma AllWordsTo(m: seq<int>, g: Layout, i: nat, j: nat, i2: nat, j2: nat, rotate: bool)
    requires g.Separated(|m|) && i < |g.pages| && j < |g.lines| && i2 < |g.pages| && j2 < |g.lines|
    requires WordsTo(m, g, i, j, i2, j2, rotate, |g.words|)
    ensures LineTo(m, g, i, j, i2, j2, rotate)
  {
  }

  /** for (k = 0; k < line; k += sizeof(char*)): every word of line j of page i, in address order, to line j+1. */
  method LinkLine(mem: array<int>, g: Layout, s: Shape, i: nat, j: nat)
    requires s.Valid() && g == TableLayout(g.pages, s) && g.Separated(mem.Length)
    requires i < |g.pages| && j + 1 < |g.lines|
    modifies mem
    ensures OnlyLine(old(mem[..]), mem[..], g, i, j)
    ensures LineTo(mem[..], g, i, j, i, j + 1, false)
  {
    hide Mul, Multiple, BitOrder, Rev;
    var from, to := g.pages[i] + g.lines[j], g.pages[i] + g.lines[j + 1];
    var k := 0;
    NothingBelow(0, s.word);
    forall w | 0 <= w < |g.words| ensures 0 <= g.words[w] < s.line {
      WordRange(s, w);
    }
    while k < s.line
      invariant Multiple(k, s.word) && k <= s.line
      invariant OnlyLine(old(mem[..]), mem[..], g, i, j)
      invariant forall w :: 0 <= w < |g.words| && g.words[w] < k ==> mem[g.Addr(i, j, w)] == g.Addr(i, j + 1, w)
    {
      var w := WordAt(s, k);
      assert from + k == g.Addr(i, j, w) && to + k == g.Addr(i, j + 1, w);
      mem[from + k] := to + k;
      assert OnlyLine(old(mem[..]), mem[..], g, i, j);
      forall v | 0 <= v < |g.words| && g.words[v] < k + s.word
        ensures mem[g.Addr(i, j, v)] == g.Addr(i, j + 1, v)
      {
        WordRange(s, v);
        if g.words[v] > k {
          MultipleGap(k, g.words[v], s.word);
        } else if g.words[v] == k {
          assert g.Addr(i, j, v) == from + k;
        }
      }
      NextMultiple(k, s);
      k := k + s.word;
    }
  }

  lemma NothingBelow(x: int, unit: nat)
    requires unit > 0 && x == 0
    ensures Multiple(x, unit)
  {
  }

  ghost function WordIndex(s: Shape, k: nat): nat
    requires s.Valid() && Multiple(k, s.word) && k < s.line
    ensures WordIndex(s, k) < s.nwords && BitOrder(s.nwords, s.word)[WordIndex(s, k)] == k
  {
    BitOrderCovers(s.nwords, s.word, k);
    var w :| 0 <= w < s.nwords && BitOrder(s.nwords, s.word)[w] == k;
    w
  }

  lemma WordAt(s: Shape, k: nat) returns (w: nat)
    requires s.Valid() && Multiple(k, s.word) && k < s.line
    ensures w < s.nwords && BitOrder(s.nwords, s.word)[w] == k
  {
    w := WordIndex(s, k);
  }

  lemma NextMultiple(k: nat, s: Shape)
    requires s.Valid() && Multiple(k, s.word) && k < s.line
    ensures Multiple(k + s.word, s.word) && k + s.word <= s.line
  {
    hide Mul, Multiple;
    ShapeCounts(s);
    MulMultiple(1, s.word);
    MulSmall(s.word);
    MultipleSum(k, s.word, s.word);
    MultipleGap(k, s.line, s.word);
  }

  // ---------- how many pages and lines ----------

  function LastOf(rest: int, nlines: nat): (last: nat)
    requires nlines >= 1
    ensures 1 <= last <= nlines
  {
    if rest < 1 then 1 else if rest > nlines then nlines else rest
  }

  /** Lines of the last page that mem_initialize puts on the chain: its counter only counts in-page links. */
  function LastLines(npointers: nat, npages: nat, nlines: nat): (last: nat)
    requires npages >= 1 && nlines >= 1
    ensures 1 <= last <= nlines
  {
    LastOf(npointers - Mul(npages - 1, nlines - 1), nlines)
  }

  function PagesFor(len: nat, pagesize: nat): nat
    requires pagesize > 0
  {
    (len + pagesize - 1) / pagesize
  }

  lemma CeilSplit(len: nat, pagesize: nat) returns (rem: nat)
    requires len > 0 && pagesize > 0
    ensures PagesFor(len, pagesize) >= 1
    ensures len == Mul(PagesFor(len, pagesize) - 1, pagesize) + rem && 1 <= rem <= pagesize
    ensures rem == pagesize <==> Multiple(len, pagesize)
  {
    var q, r := (len - 1) / pagesize, (len - 1) % pagesize;
    assert len - 1 == q * pagesize + r;
    DivUnique(len + pagesize - 1, q + 1, r, pagesize);
    rem := r + 1;
    if rem == pagesize {
      DivUnique(len, q + 1, 0, pagesize);
    } else {
      DivUnique(len, q, rem, pagesize);
    }
  }

  lemma QuotientSum(a: nat, rem: nat, s: Shape)
    requires s.Valid() && rem <= s.pagesize
    ensures (Mul(a, s.pagesize) + rem) / s.line == Mul(a, s.nlines) + rem / s.line
    ensures rem / s.line <= s.nlines
    ensures rem / s.line == s.nlines <==> rem == s.pagesize
  {
    hide Mul, Multiple;
    DivParts(rem, s.line);
    var q, r := rem / s.line, rem % s.line;
    MulAssoc(a, s.nlines, s.line);
    MulPlus(Mul(a, s.nlines), q, s.line);
    DivMul(Mul(a, s.nlines) + q, r, s.line);
    if q > s.nlines {
      MulLess(s.nlines, q, s.line);
    } else if q < s.nlines {
      MulLess(q, s.nlines, s.line);
    }
  }

  /** npointers lies between whole pages before the last one and all whole pages. */
  lemma PointerCount(len: nat, s: Shape)
    requires len > 0 && s.Valid()
    ensures var np, n := PagesFor(len, s.pagesize), len / s.line;
            && np >= 1 && Mul(np - 1, s.nlines) <= n <= Mul(np, s.nlines)
            && (n == Mul(np, s.nlines) <==> Multiple(len, s.pagesize))
  {
    hide Mul, Multiple;
    var rem := CeilSplit(len, s.pagesize);
    var np := PagesFor(len, s.pagesize);
    QuotientSum(np - 1, rem, s);
    MulPlus(np - 1, 1, s.nlines);
    MulSmall(s.nlines);
  }

  /** With whole pages the last page has all its lines. */
  lemma WholeLast(len: nat, s: Shape)
    requires s.Valid() && len > 0 && Multiple(len, s.pagesize)
    ensures PagesFor(len, s.pagesize) >= 1 && LastLines(len / s.line, PagesFor(len, s.pagesize), s.nlines) == s.nlines
  {
    hide Mul, Multiple;
    PointerCount(len, s);
    LineArith(PagesFor(len, s.pagesize), s.nlines);
  }

  /** mem_initialize over len bytes links all lines of the last page as well. */
  predicate FullyLinked(len: nat, line: nat, pagesize: nat) {
    && len > 0 && line > 0 && pagesize >= line && PagesFor(len, pagesize) >= 1 && pagesize / line >= 1
    && LastLines(len / line, PagesFor(len, pagesize), pagesize / line) == pagesize / line
  }

  /** It does whenever the lines in len are as many as the counter needs; whole pages are one case. */
  lemma FullyLinkedExactly(len: nat, s: Shape)
    requires s.Valid() && len > 0
    ensures PagesFor(len, s.pagesize) >= 1
    ensures FullyLinked(len, s.line, s.pagesize) <==>
            s.nlines == 1 || len / s.line >= Mul(PagesFor(len, s.pagesize) - 1, s.nlines - 1) + s.nlines
    ensures Multiple(len, s.pagesize) ==> FullyLinked(len, s.line, s.pagesize)
  {
    hide Mul, Multiple, LastLines, PagesFor;
    PointerCount(len, s);
    ShapeCounts(s);
    QuotientPositive(s.pagesize, s.line);
    if Multiple(len, s.pagesize) {
      WholeLast(len, s);
    }
    LastIsFull(len / s.line, PagesFor(len, s.pagesize), s.nlines);
  }

  lemma LastIsFull(npointers: nat, npages: nat, nlines: nat)
    requires npages >= 1 && nlines >= 1
    ensures LastLines(npointers, npages, nlines) == nlines <==>
            nlines == 1 || npointers >= Mul(npages - 1, nlines - 1) + nlines
  {
  }

  /** Lines on the whole chain. */
  function ChainLines(len: nat, s: Shape): nat
    requires len > 0 && s.pagesize > 0 && s.line > 0 && s.nlines >= 1 && PagesFor(len, s.pagesize) >= 1
  {
    var np := PagesFor(len, s.pagesize);
    Mul(np - 1, s.nlines) + LastLines(len / s.line, np, s.nlines)
  }

  /**
   The chain has as many lines as len holds exactly when len is a whole number of pages or lies in
   a single page; otherwise the last page gets too many (or, below one line, one too many).
   */
  lemma ChainLengthExact(len: nat, s: Shape)
    requires len > 0 && s.Valid()
    ensures PagesFor(len, s.pagesize) >= 1
    ensures ChainLines(len, s) == len / s.line <==>
            Multiple(len, s.pagesize) || (PagesFor(len, s.pagesize) == 1 && len / s.line >= 1)
  {
    hide Mul, Multiple;
    PointerCount(len, s);
    var np, n := PagesFor(len, s.pagesize), len / s.line;
    LineArith(np, s.nlines);
    if np == 1 {
      MulSmall(s.nlines);
      MulSmall(s.nlines - 1);
    }
  }

  lemma LineArith(np: nat, nlines: nat)
    requires np >= 1 && nlines >= 1
    ensures Mul(np - 1, nlines) == Mul(np - 1, nlines - 1) + (np - 1)
    ensures Mul(np, nlines) == Mul(np - 1, nlines) + nlines
  {
    assert (np - 1) * nlines == (np - 1) * (nlines - 1) + (np - 1);
  }

  /** One cycle, lane by lane, through all of the pages but for the last lines of the last one. */
  ghost predicate Chained(m: seq<int>, g: Layout, last: nat) {
    && g.Separated(|m|) && g.NonEmpty() && 1 <= last <= |g.lines|
    && LaneLinks(m, g, last)
    && SingleCycle(m, g.Addr(0, 0, 0), Cells(g, last))
    && |Cells(g, last)| == Mul(|g.words|, Mul(|g.pages| - 1, |g.lines|) + last)
  }

  // ---------- struct mem_state ----------

  class MemState {
    const word: nat           // sizeof(char*)
    const p: array<int>       // starting points
    var mem: array<int>       // the cells from base on
    var len: nat
    var maxlen: nat
    var width: nat
    var line: nat
    var pagesize: nat
    var nwords: nat
    var nlines: nat
    var npages: nat
    var pages: seq<int>
    var lines: seq<int>
    var words: seq<int>

    function S(): Shape
      reads this
    {
      Shape(word, line, pagesize, nwords, nlines)
    }

    /** What a caller sets up: sizes that are powers of two of each other, and a length to cover. */
    ghost predicate Sized()
      reads this
    {
      && word > 0 && line > 0 && pagesize > 0
      && Shape(word, line, pagesize, line / word, pagesize / line).Valid()
      && 0 < len <= maxlen && p.Length == MAX_MEM_PARALLELISM
    }

    /** The tables as mem_initialize leaves them. */
    ghost predicate Ready()
      reads this, mem
    {
      && S().Valid() && 0 < len <= maxlen && p.Length == MAX_MEM_PARALLELISM
      && npages == PagesFor(len, pagesize) <= |pages|
      && |pages| == PagesFor(maxlen, pagesize)
      && Paged(pages, pagesize, mem.Length)
      && lines == BitOrder(nlines, line) && words == BitOrder(nwords, word)
      && mem != p
    }

    function G(): Layout
      reads this
      requires npages <= |pages|
    {
      Layout(pages[..npages], lines, words)
    }

    /** npointers: lines in len bytes. */
    ghost function Pointers(): nat
      reads this
    {
      if line > 0 then len / line else 0
    }

    ghost function Last(): nat
      reads this
    {
      if npages >= 1 && nlines >= 1 then LastLines(Pointers(), npages, nlines) else 0
    }

    /** In-page links of the chain. */
    ghost function Links(): nat
      reads this
    {
      if npages >= 1 && nlines >= 1 && Last() >= 1 then LinkCount(npages, nlines, Last()) else 0
    }

    /** width start points, no more than there are lines. */
    ghost predicate WidthFits()
      reads this
    {
      1 <= width <= Pointers() || Pointers() <= 1
    }

    /** What mem_initialize leaves behind. */
    ghost predicate ChainReady()
      reads this, mem
    {
      && Ready() && npages >= 1
      && G() == TableLayout(pages[..npages], S())
      && Chained(mem[..], G(), Last())
    }

    constructor (word: nat)
      ensures this.word == word && p.Length == MAX_MEM_PARALLELISM && fresh(p) && fresh(mem)
    {
      this.word := word;
      p := new int[MAX_MEM_PARALLELISM](_ => 0);
      mem := new int[0];
      len, maxlen, width, line, pagesize, nwords, nlines, npages := 0, 0, 0, 0, 0, 0, 0, 0;
      pages, lines, words := [], [], [];
    }
  }

  lemma PagesMono(len: nat, maxlen: nat, pagesize: nat)
    requires len <= maxlen && pagesize > 0
    ensures PagesFor(len, pagesize) <= PagesFor(maxlen, pagesize)
  {
    var a, b := (len + pagesize - 1) / pagesize, (maxlen + pagesize - 1) / pagesize;
    var r, t := (len + pagesize - 1) % pagesize, (maxlen + pagesize - 1) % pagesize;
    assert len + pagesize - 1 == a * pagesize + r && maxlen + pagesize - 1 == b * pagesize + t;
    if b < a {
      MulLess(b, a, pagesize);
    }
  }

  method BaseInitialize(state: MemState)
    requires state.Sized()
    modifies state
    ensures state.pagesize > 0
    ensures fresh(state.mem) && state.mem.Length == Mul(PagesFor(state.maxlen, state.pagesize), state.pagesize)
    ensures state.S().Valid() && state.npages == PagesFor(state.len, state.pagesize) <= |state.pages|
    ensures |state.pages| == PagesFor(state.maxlen, state.pagesize) && Paged(state.pages, state.pagesize, state.mem.Length)
    ensures state.len == old(state.len) && state.maxlen == old(state.maxlen) && state.width == old(state.width)
    ensures state.line == old(state.line) && state.pagesize == old(state.pagesize)
  {
    hide Mul, Multiple;
    state.nwords := state.line / state.word;
    state.nlines := state.pagesize / state.line;
    state.npages := (state.len + state.pagesize - 1) / state.pagesize;
    var nmpages := (state.maxlen + state.pagesize - 1) / state.pagesize;
    PagesMono(state.len, state.maxlen, state.pagesize);
    var rand: nat -> nat := *;
    var pages := Permutation(nmpages, state.pagesize, rand);
    state.pages := pages[..];
    state.lines, state.words := [], [];
    state.mem := new int[Mul(nmpages, state.pagesize)];
  }

  lemma PrefixPaged(pages: seq<int>, n: nat, pagesize: nat, size: nat)
    requires n <= |pages| && Paged(pages, pagesize, size)
    ensures Paged(pages[..n], pagesize, size)
  {
  }

  lemma LinksChain(m: seq<int>, g: Layout, last: nat)
    requires g.Separated(|m|) && g.NonEmpty() && 1 <= last <= |g.lines| && LaneLinks(m, g, last)
    ensures Chained(m, g, last)
  {
    LanesCycle(m, g, last);
  }

  /** The word from which start point k chases: the one in use on the line that in-page link l leaves. */
  ghost function PointerAt(g: Layout, l: nat, k: nat): int
    requires g.NonEmpty()
  {
    var n := |g.lines| - 1;
    if n > 0 && l / n < |g.pages| then g.Addr(l / n, l % n, k % |g.words|) else 0
  }

  /**
   After l in-page links start point k is set exactly when link k*stride is among them, evenly spaced
   along the chain; the others are as before.
   */
  ghost predicate Starts(p: seq<int>, p0: seq<int>, g: Layout, stride: nat, l: nat)
    requires g.NonEmpty()
  {
    |p| == |p0| && forall k :: 0 <= k < |p| ==> p[k] == if Mul(k, stride) < l then PointerAt(g, Mul(k, stride), k) else p0[k]
  }

  lemma PointerHere(g: Layout, i: nat, j: nat, k: nat)
    requires g.NonEmpty() && i < |g.pages| && j < |g.lines| - 1
    ensures PointerAt(g, Mul(i, |g.lines| - 1) + j, k) == g.Addr(i, j, k % |g.words|)
  {
    DivUnique(Mul(i, |g.lines| - 1) + j, i, j, |g.lines| - 1);
  }

  /** Start points lie on the chain. */
  lemma PointerOnChain(g: Layout, last: nat, l: nat, k: nat)
    requires g.NonEmpty() && 1 <= last <= |g.lines| && l < LinkCount(|g.pages|, |g.lines|, last)
    ensures PointerAt(g, l, k) in Cells(g, last)
  {
    var n := |g.lines| - 1;
    ManyLines(|g.pages|, |g.lines|, last);
    hide Mul;
    MulPlus(|g.pages| - 1, 1, n);
    MulSmall(n);
    DivParts(l, n);
    var i := l / n;
    if i >= |g.pages| {
      MulMono(|g.pages|, i, n);
    }
    assert PointerAt(g, l, k) == g.Addr(i, l % n, k % |g.words|);
    assert l % n < LinesOn(g, last, i);
  }

  /** In-page links of the whole chain. */
  function LinkCount(npages: nat, nlines: nat, last: nat): nat
    requires npages >= 1 && nlines >= 1 && last >= 1
  {
    Mul(npages - 1, nlines - 1) + (last - 1)
  }

  lemma StartsNone(p: seq<int>, g: Layout, stride: nat)
    requires g.NonEmpty()
    ensures Starts(p, p, g, stride, 0)
  {
  }

  /** No start point falls between l and l+1 but the one at l, if any. */
  lemma StartsSkip(p: seq<int>, p0: seq<int>, g: Layout, stride: nat, l: nat)
    requires g.NonEmpty() && stride > 0 && Starts(p, p0, g, stride, l) && (l % stride != 0 || l / stride >= |p|)
    ensures Starts(p, p0, g, stride, l + 1)
  {
    hide Mul, PointerAt;
    forall k | 0 <= k < |p| ensures Mul(k, stride) != l {
      MulMultiple(k, stride);
    }
  }

  lemma StartsMore(p: seq<int>, p0: seq<int>, g: Layout, stride: nat, l: nat, x: int)
    requires g.NonEmpty() && stride > 0 && Starts(p, p0, g, stride, l) && l % stride == 0 && l / stride < |p|
    requires x == PointerAt(g, l, l / stride)
    ensures Starts(p[l / stride := x], p0, g, stride, l + 1)
  {
    hide Mul, PointerAt;
    var q := l / stride;
    DivParts(l, stride);
    forall k | 0 <= k < |p| ensures Mul(k, stride) == l <==> k == q {
      if Mul(k, stride) == l {
        MulInjective(k, q, stride);
      }
    }
  }

  /** Every stride-th line holds one of the start points for parallel chases. */
  method SetStart(p: array<int>, ghost p0: seq<int>, g: Layout, stride: nat, i: nat, j: nat, l: nat)
    requires g.NonEmpty() && i < |g.pages| && j < |g.lines| - 1 && l == Mul(i, |g.lines| - 1) + j && stride > 0
    requires p.Length == MAX_MEM_PARALLELISM && Starts(p[..], p0, g, stride, l)
    modifies p
    ensures Starts(p[..], p0, g, stride, l + 1)
  {
    hide Starts, Mul, PointerAt;
    if l % stride == 0 && l / stride < MAX_MEM_PARALLELISM {
      var k := l / stride;
      PointerHere(g, i, j, k);
      StartsMore(p[..], p0, g, stride, l, g.pages[i] + g.lines[j] + g.words[k % |g.words|]);
      p[k] := g.pages[i] + g.lines[j] + g.words[k % |g.words|];
    } else {
      StartsSkip(p[..], p0, g, stride, l);
    }
  }

  /** The distance between start points, as mem_initialize computes it where it is used. */
  function Stride(npointers: nat, width: nat): nat {
    if width == 0 then 0 else npointers / width
  }

  /** The lines of one page, as far as the pointer count allows, and the start points among them. */
  method BuildPage(mem: array<int>, p: array<int>, ghost p0: seq<int>, g: Layout, s: Shape, i: nat, l0: nat, npointers: nat, width: nat,
                   ghost last: nat)
    returns (j: nat, l: nat)
    requires s.Valid() && g == TableLayout(g.pages, s) && g.Separated(mem.Length) && g.NonEmpty() && i < |g.pages|
    requires p != mem && p.Length == MAX_MEM_PARALLELISM && (1 <= width <= npointers || npointers <= 1)
    requires 1 <= last <= |g.lines| && Built(mem[..], g, i, 0) && l0 == Mul(i, |g.lines| - 1)
    requires i < |g.pages| - 1 ==> l0 + |g.lines| <= npointers
    requires i == |g.pages| - 1 ==> last == LastOf(npointers - l0, |g.lines|)
    requires Starts(p[..], p0, g, Stride(npointers, width), l0)
    modifies mem, p
    ensures j == LinesOn(g, last, i) - 1 && l == l0 + j
    ensures Built(mem[..], g, i, j)
    ensures Starts(p[..], p0, g, Stride(npointers, width), l)
  {
    hide Mul, Multiple, BitOrder, Built, TableLayout, Starts, Layout.Unique;
    StrideFits(npointers, width);
    j, l := 0, l0;
    while j < |g.lines| - 1 && l < npointers - 1
      invariant 0 <= j < LinesOn(g, last, i) && l == l0 + j
      invariant Built(mem[..], g, i, j)
      invariant Starts(p[..], p0, g, Stride(npointers, width), l)
    {
      ghost var before := mem[..];
      LinkLine(mem, g, s, i, j);
      BuiltLine(before, mem[..], g, i, j);
      SetStart(p, p0, g, npointers / width, i, j, l);
      j := j + 1;
      l := l + 1;
    }
  }

  lemma StrideFits(npointers: nat, width: nat)
    ensures 1 <= width <= npointers ==> npointers / width > 0
  {
    if width > 0 {
      QuotientPositive(npointers, width);
    }
  }

  /** The loop over the pages. */
  method BuildChain(mem: array<int>, p: array<int>, g: Layout, s: Shape, npointers: nat, width: nat)
    requires s.Valid() && g == TableLayout(g.pages, s) && g.Separated(mem.Length) && g.NonEmpty()
    requires Mul(|g.pages| - 1, |g.lines|) <= npointers
    requires p != mem && p.Length == MAX_MEM_PARALLELISM && (1 <= width <= npointers || npointers <= 1)
    modifies mem, p
    ensures Chained(mem[..], g, LastLines(npointers, |g.pages|, |g.lines|))
    ensures Starts(p[..], old(p[..]), g, Stride(npointers, width), LinkCount(|g.pages|, |g.lines|, LastLines(npointers, |g.pages|, |g.lines|)))
  {
    hide Mul, Multiple, BitOrder, Built, TableLayout, Cells, LaneLinks, Starts, Stride;
    var npages, nlines := |g.pages|, |g.lines|;
    ghost var last := LastLines(npointers, npages, nlines);
    var l, i, j := 0, 0, 0;
    MulSmall(nlines - 1);
    NothingBuilt(mem[..], g);
    StartsNone(p[..], g, Stride(npointers, width));
    while i < npages
      invariant 0 <= i <= npages
      invariant i < npages ==> l == Mul(i, nlines - 1) && Built(mem[..], g, i, 0)
      invariant i == npages ==> j == last - 1 && l == LinkCount(npages, nlines, last) && Built(mem[..], g, npages - 1, last - 1)
      invariant Starts(p[..], old(p[..]), g, Stride(npointers, width), l)
    {
      MoreLines(i, npages, nlines, npointers);
      j, l := BuildPage(mem, p, old(p[..]), g, s, i, l, npointers, width, last);
      if i < npages - 1 {
        ghost var before := mem[..];
        LinkWords(mem, g.pages[i] + g.lines[j], g.pages[i + 1] + g.lines[0], g.words, false, g, i, j, i + 1, 0);
        BuiltPage(before, mem[..], g, i);
        MulPlus(i, 1, nlines - 1);
      }
      i := i + 1;
    }
    ghost var before := mem[..];
    LinkWords(mem, g.pages[npages - 1] + g.lines[j], g.pages[0] + g.lines[0], g.words, true, g, npages - 1, j, 0, 0);
    BuiltWrap(before, mem[..], g, last);
    LinksChain(mem[..], g, last);
  }

  lemma NothingBuilt(m: seq<int>, g: Layout)
    requires g.Separated(|m|) && g.NonEmpty()
    ensures Built(m, g, 0, 0)
  {
  }

  /** The first start point is the first word, as soon as there is a link to start from. */
  lemma FirstStart(p: seq<int>, p0: seq<int>, g: Layout, stride: nat, links: nat)
    requires g.NonEmpty() && Starts(p, p0, g, stride, links) && links > 0 && p != [] && |g.lines| >= 2
    ensures p[0] == g.Addr(0, 0, 0)
  {
    MulSmall(stride);
    DivUnique(0, 0, 0, |g.lines| - 1);
    DivUnique(0, 0, 0, |g.words|);
  }

  /** Start point k lies on the line that link k*stride leaves, at the k-th word of a line, counted round. */
  lemma StartWord(p: seq<int>, p0: seq<int>, g: Layout, stride: nat, links: nat, k: nat, i: nat, j: nat)
    requires g.NonEmpty() && Starts(p, p0, g, stride, links) && k < |p| && i < |g.pages| && j < |g.lines| - 1
    requires Mul(k, stride) == Mul(i, |g.lines| - 1) + j < links
    ensures p[k] == g.pages[i] + g.lines[j] + g.words[k % |g.words|]
  {
    PointerHere(g, i, j, k);
  }

  /** No two chases start at the same word. */
  lemma StartsDiffer(p: seq<int>, p0: seq<int>, g: Layout, size: nat, stride: nat, last: nat, k: nat, k': nat)
    requires g.Separated(size) && g.NonEmpty() && 1 <= last <= |g.lines| && stride > 0
    requires Starts(p, p0, g, stride, LinkCount(|g.pages|, |g.lines|, last)) && k < k' < |p|
    requires Mul(k', stride) < LinkCount(|g.pages|, |g.lines|, last)
    ensures p[k] != p[k']
  {
    hide Mul, LinkCount, Starts;
    MulLess(k, k', stride);
    var l, l' := Mul(k, stride), Mul(k', stride);
    var i, j := LinkPlace(|g.pages|, |g.lines|, last, l);
    var i', j' := LinkPlace(|g.pages|, |g.lines|, last, l');
    StartWord(p, p0, g, stride, LinkCount(|g.pages|, |g.lines|, last), k, i, j);
    StartWord(p, p0, g, stride, LinkCount(|g.pages|, |g.lines|, last), k', i', j');
    assert g.InRange(i, j, k % |g.words|) && g.InRange(i', j', k' % |g.words|);
  }

  /** The line that link l leaves. */
  lemma LinkPlace(npages: nat, nlines: nat, last: nat, l: nat) returns (i: nat, j: nat)
    requires npages >= 1 && 1 <= last <= nlines && l < LinkCount(npages, nlines, last)
    ensures i < npages && j < nlines - 1 && l == Mul(i, nlines - 1) + j
  {
    hide Mul;
    ManyLines(npages, nlines, last);
    var n := nlines - 1;
    DivParts(l, n);
    i, j := l / n, l % n;
    MulPlus(npages - 1, 1, n);
    MulSmall(n);
    if i >= npages {
      MulMono(npages, i, n);
    }
  }

  /** Slots that hold no word of the chain beforehand all hold one afterwards exactly when the last of them falls on an in-page link. */
  lemma AllStartsExactly(p: seq<int>, p0: seq<int>, g: Layout, stride: nat, last: nat, width: nat)
    requires g.NonEmpty() && 1 <= last <= |g.lines| && Starts(p, p0, g, stride, LinkCount(|g.pages|, |g.lines|, last))
    requires 1 <= width <= |p| && forall k :: 0 <= k < width ==> p0[k] !in Cells(g, last)
    ensures (forall k :: 0 <= k < width ==> p[k] in Cells(g, last)) <==> Mul(width - 1, stride) < LinkCount(|g.pages|, |g.lines|, last)
  {
    hide Mul, Cells, LinkCount, PointerAt;
    if Mul(width - 1, stride) < LinkCount(|g.pages|, |g.lines|, last) {
      forall k | 0 <= k < width ensures p[k] in Cells(g, last) {
        MulMono(k, width - 1, stride);
        PointerOnChain(g, last, Mul(k, stride), k);
      }
    } else {
      assert p[width - 1] == p0[width - 1];
    }
  }

  /** Over whole pages, with a width that divides the number of lines, that is when a page has more lines than there are start points. */
  lemma WholePagesStartAll(len: nat, s: Shape, width: nat)
    requires s.Valid() && len > 0 && Multiple(len, s.pagesize) && width >= 1 && Multiple(len / s.line, width)
    ensures PagesFor(len, s.pagesize) >= 1
    ensures Mul(width - 1, Stride(len / s.line, width)) < LinkCount(PagesFor(len, s.pagesize), s.nlines, s.nlines) <==> width < s.nlines
  {
    hide Mul, Multiple, PagesFor;
    PointerCount(len, s);
    ShapeCounts(s);
    var np, nl := PagesFor(len, s.pagesize), s.nlines;
    var stride := MultipleQuotient(len / s.line, width);
    assert Mul(width, stride) == Mul(np, nl) by {
      MulCommutes(width, stride);
    }
    MulPlus(width - 1, 1, stride);
    MulSmall(stride);
    MulCommutes(np, nl);
    MulCommutes(np - 1, nl - 1);
    MulPlus(nl - 1, 1, np);
    MulSmall(np);
    MulPlus(np - 1, 1, nl - 1);
    MulSmall(nl - 1);
    MulCommutes(np, nl - 1);
    if width < nl {
      if stride <= np {
        MulMono(stride, np, width);
        MulLess(width, nl, np);
        MulCommutes(np, width);
        MulCommutes(width, stride);
      }
    } else if stride > np {
      MulMono(nl, width, stride);
      MulLess(np, stride, nl);
      MulCommutes(stride, nl);
    }
  }

  /**
   mem_initialize: whatever the length, one cycle through whole pages and LastLines lines of the last
   page.  Start point k is the word in use after k*stride in-page links, if there are as many; all of
   them lie on the cycle.
   */
  method MemInitialize(state: MemState)
    requires state.Sized() && state.WidthFits()
    modifies state, state.p
    ensures state.ChainReady() && fresh(state.mem)
    ensures state.mem.Length == Mul(|state.pages|, state.pagesize)
    ensures state.len == old(state.len) && state.maxlen == old(state.maxlen) && state.width == old(state.width)
    ensures state.line == old(state.line) && state.pagesize == old(state.pagesize)
    ensures Starts(state.p[..], old(state.p[..]), state.G(), Stride(state.Pointers(), state.width), state.Links())
    ensures forall l: nat, k: nat :: l < state.Links() ==> PointerAt(state.G(), l, k) in Cells(state.G(), state.Last())
    ensures state.Links() > 0 ==> state.p[0] == state.pages[0]
  {
    hide Mul, Multiple, BitOrder, LaneLinks, Cells, Chained, LastLines, Starts, Stride;
    BaseInitialize(state);
    PointerCount(state.len, state.S());
    ShapeCounts(state.S());
    var w := WordsInitialize(state.nwords, state.word);
    var t := WordsInitialize(state.nlines, state.line);
    state.words := w[..];
    state.lines := t[..];
    var g := state.G();
    PrefixPaged(state.pages, state.npages, state.pagesize, state.mem.Length);
    TablesSeparated(g.pages, state.S(), state.mem.Length);
    BuildChain(state.mem, state.p, g, state.S(), state.len / state.line, state.width);
    FirstWord(state.S());
    forall l: nat, k: nat | l < state.Links() ensures PointerAt(g, l, k) in Cells(g, state.Last()) {
      PointerOnChain(g, state.Last(), l, k);
    }
    if state.Links() > 0 {
      MulSmall(state.nlines - 1);
      ManyLines(|g.pages|, |g.lines|, state.Last());
      FirstStart(state.p[..], old(state.p[..]), g, Stride(state.Pointers(), state.width), state.Links());
    }
  }

  lemma ManyLines(npages: nat, nlines: nat, last: nat)
    requires npages >= 1 && nlines >= 1 && 1 <= last <= nlines && LinkCount(npages, nlines, last) > 0
    ensures nlines >= 2
  {
  }

  /** The first line and the first word are at offset 0. */
  lemma FirstWord(s: Shape)
    requires s.Valid()
    ensures s.nlines >= 1 && s.nwords >= 1
    ensures BitOrder(s.nlines, s.line)[0] == 0 && BitOrder(s.nwords, s.word)[0] == 0
  {
    RevZero(Log2(s.nlines));
    RevZero(Log2(s.nwords));
    MulSmall(s.line);
    MulSmall(s.word);
  }

  /** While more pages follow, the counter never stops a page early. */
  lemma MoreLines(i: nat, npages: nat, nlines: nat, npointers: nat)
    requires i < npages && nlines >= 1 && Mul(npages - 1, nlines) <= npointers
    ensures i < npages - 1 ==> Mul(i, nlines - 1) + nlines <= npointers
  {
    if i < npages - 1 {
      LineArith(npages, nlines);
      MulMono(i + 1, npages - 1, nlines - 1);
      MulPlus(i, 1, nlines - 1);
      MulSmall(nlines - 1);
    }
  }
}
