/** The offset tables of lib_mem.c: words_initialize, and permutation from lib_timing.c. */
module Tables {
  import opened Arith
  import opened BitReversal
  import opened PointerChain
  import opened Lanes

  /** What words_initialize(max, scale) returns: bit-reversed indices, scaled. */
  function BitOrder(max: nat, scale: nat): (words: seq<int>)
    ensures |words| == max
  {
    seq(max, i requires 0 <= i < max => Mul(Rev(Log2(max), i), scale))
  }

  function Halvings(i: nat): nat {
    if i == 0 then 0 else 1 + Halvings(i / 2)
  }

  lemma {:induction false} Log2Halvings(n: nat)
    ensures Log2(n) == Halvings(n / 2)
  {
    if n > 1 {
      Log2Halvings(n / 2);
    }
  }

  method WordsInitialize(max: nat, scale: nat) returns (words: array<int>)
    ensures fresh(words) && words[..] == BitOrder(max, scale)
  {
    words := new int[max](_ => 0);
    var i: nat, bits := max / 2, 0;
    while i != 0
      invariant bits + Halvings(i) == Halvings(max / 2)
      decreases i
    {
      i := i / 2;
      bits := bits + 1;
    }
    Log2Halvings(max);
    i := 0;
    while i < max
      invariant i <= max
      invariant forall k :: 0 <= k < i ==> words[k] == Mul(Rev(bits, k), scale)
    {
      var r := ReverseLoop(bits, i);
      words[i] := Mul(r, scale);
      i := i + 1;
    }
  }

  lemma Pow2Log(max: nat)
    requires IsPow2(max)
    ensures max == Pow2(Log2(max))
  {
    var k: nat :| max == Pow2(k);
    Log2Unique(max, k);
  }

  /** The offsets are pairwise distinct exactly for powers of two. */
  lemma DistinctExactlyForPow2(max: nat, scale: nat)
    requires max >= 1 && scale > 0
    ensures Distinct(BitOrder(max, scale)) <==> IsPow2(max)
  {
    hide Mul, Rev;
    var bits, w := Log2(max), BitOrder(max, scale);
    if max == Pow2(bits) {
      forall i, j | 0 <= i < j < |w| ensures w[i] != w[j] {
        if w[i] == w[j] {
          MulInjective(Rev(bits, i), Rev(bits, j), scale);
          RevInjective(bits, i, j);
        }
      }
    } else {
      if IsPow2(max) {
        Pow2Log(max);
      }
      RevLow(bits, 0, 1);
      MulSmall(Pow2(bits));
      assert w[0] == w[Pow2(bits)];
    }
  }

  /** For a power of two the offsets are the multiples of scale below max*scale. */
  lemma BitOrderRange(max: nat, scale: nat, i: nat)
    requires IsPow2(max) && scale > 0 && i < max
    ensures Multiple(BitOrder(max, scale)[i], scale)
    ensures BitOrder(max, scale)[i] + scale <= Mul(max, scale)
  {
    hide Mul, Multiple;
    Pow2Log(max);
    MulMultiple(Rev(Log2(max), i), scale);
    MulLess(Rev(Log2(max), i), max, scale);
  }

  lemma BitOrderCovers(max: nat, scale: nat, x: nat)
    requires IsPow2(max) && Multiple(x, scale) && x < Mul(max, scale)
    ensures x in BitOrder(max, scale)
  {
    hide Mul, Rev;
    Pow2Log(max);
    var q := MultipleQuotient(x, scale);
    if q >= max {
      MulMono(max, q, scale);
    }
    RevRev(Log2(max), q);
    assert BitOrder(max, scale)[Rev(Log2(max), q)] == x;
  }

  lemma Pow2Product(few: nat, times: nat)
    requires IsPow2(few) && IsPow2(times)
    ensures few <= Mul(few, times) && IsPow2(Mul(few, times))
    ensures Log2(Mul(few, times)) == Log2(few) + Log2(times)
  {
    hide Log2;
    var f, t := Log2(few), Log2(times);
    Pow2Log(few);
    Pow2Log(times);
    Pow2Sum(f, t);
    Pow2Mono(f, f + t);
    assert Mul(few, times) == Pow2(f + t);
    Log2Unique(Pow2(f + t), f + t);
  }

  /** The first few of them are the multiples of a coarser step. */
  lemma BitOrderPrefix(few: nat, times: nat, scale: nat)
    requires IsPow2(few) && IsPow2(times)
    ensures few <= Mul(few, times) && IsPow2(Mul(few, times))
    ensures BitOrder(Mul(few, times), scale)[..few] == BitOrder(few, Mul(times, scale))
  {
    hide Mul, Rev, Pow2, Log2, IsPow2;
    var f, t, max := Log2(few), Log2(times), Mul(few, times);
    Pow2Product(few, times);
    Pow2Log(few);
    Pow2Log(times);
    forall i | 0 <= i < few
      ensures BitOrder(max, scale)[i] == BitOrder(few, Mul(times, scale))[i]
    {
      RevSpread(f, t, i);
      MulAssoc(Rev(f, i), times, scale);
    }
  }

  lemma RevSpread(f: nat, t: nat, i: nat)
    requires i < Pow2(f)
    ensures Rev(f + t, i) == Mul(Rev(f, i), Pow2(t))
  {
    RevPrefix(f + t, f, i);
  }

  // ---------- page lists ----------

  /** Distinct pages inside a memory of size bytes. */
  ghost predicate Paged(pages: seq<int>, pagesize: nat, size: nat) {
    && Distinct(pages)
    && (forall i :: 0 <= i < |pages| ==> Multiple(pages[i], pagesize) && pages[i] + pagesize <= size)
  }

  lemma InOrder(s: seq<int>, max: nat, scale: nat)
    requires scale > 0 && |s| == max && forall i :: 0 <= i < max ==> s[i] == Mul(i, scale)
    ensures Paged(s, scale, Mul(max, scale))
  {
    hide Mul, Multiple;
    forall i | 0 <= i < max
      ensures Multiple(s[i], scale) && s[i] + scale <= Mul(max, scale)
    {
      MulMultiple(i, scale);
      MulLess(i, max, scale);
    }
    forall i, j | 0 <= i < j < max ensures s[i] != s[j] {
      MulLess(i, j, scale);
    }
  }

  function Swap(s: seq<int>, a: nat, b: nat): (t: seq<int>)
    requires a < |s| && b < |s|
    ensures |t| == |s|
  {
    s[a := s[b]][b := s[a]]
  }

  lemma SwapPaged(s: seq<int>, a: nat, b: nat, pagesize: nat, size: nat)
    requires a < |s| && b < |s| && Paged(s, pagesize, size)
    ensures Paged(Swap(s, a, b), pagesize, size)
  {
    hide Multiple;
  }

  // ---------- the tables address distinct cells ----------

  /**
   sizeof(char*), line size and page size, each a power of two times the one before, with the
   counts that base_initialize derives from them.
   */
  datatype Shape = Shape(word: nat, line: nat, pagesize: nat, nwords: nat, nlines: nat) {
    ghost predicate Valid() {
      && word > 0 && line > 0 && pagesize > 0
      && IsPow2(nwords) && line == Mul(nwords, word)
      && IsPow2(nlines) && pagesize == Mul(nlines, line)
    }
  }

  /** The counts are the quotients. */
  lemma ShapeCounts(s: Shape)
    requires s.Valid()
    ensures s.nwords == s.line / s.word && s.nlines == s.pagesize / s.line
    ensures Multiple(s.line, s.word) && Multiple(s.pagesize, s.line) && s.nwords >= 1 && s.nlines >= 1
  {
    hide Mul, Multiple;
    MulMultiple(s.nwords, s.word);
    MulMultiple(s.nlines, s.line);
  }

  /** The three tables that mem_initialize uses. */
  function TableLayout(pages: seq<int>, s: Shape): Layout {
    Layout(pages, BitOrder(s.nlines, s.line), BitOrder(s.nwords, s.word))
  }

  lemma WordRange(s: Shape, k: nat)
    requires s.Valid() && k < s.nwords
    ensures var w := BitOrder(s.nwords, s.word)[k]; Multiple(w, s.word) && 0 <= w && w + s.word <= s.line
  {
    BitOrderRange(s.nwords, s.word, k);
  }

  lemma LineRange(s: Shape, j: nat)
    requires s.Valid() && j < s.nlines
    ensures var l := BitOrder(s.nlines, s.line)[j]; Multiple(l, s.line) && 0 <= l && l + s.line <= s.pagesize
  {
    BitOrderRange(s.nlines, s.line, j);
  }

  lemma TablesSeparated(pages: seq<int>, s: Shape, size: nat)
    requires s.Valid() && Paged(pages, s.pagesize, size)
    ensures TableLayout(pages, s).Separated(size)
  {
    var g := TableLayout(pages, s);
    assert s.nlines >= 1 && s.nwords >= 1;
    hide Mul, Multiple, BitOrder;
    forall j | 0 <= j < |g.lines| ensures Multiple(g.lines[j], s.line) && 0 <= g.lines[j] && g.lines[j] + s.line <= s.pagesize {
      LineRange(s, j);
    }
    forall k | 0 <= k < |g.words| ensures 0 <= g.words[k] < s.line {
      WordRange(s, k);
    }
    forall i | 0 <= i < |pages| ensures 0 <= pages[i] {
      NonNegative(pages[i], s.pagesize);
    }
    DistinctExactlyForPow2(s.nlines, s.line);
    DistinctExactlyForPow2(s.nwords, s.word);
    forall i, j, k, i', j', k' |
      g.InRange(i, j, k) && g.InRange(i', j', k') && g.Addr(i, j, k) == g.Addr(i', j', k')
      ensures i == i' && j == j' && k == k'
    {
      AlignedSplit(pages[i], g.lines[j] + g.words[k], pages[i'], g.lines[j'] + g.words[k'], s.pagesize);
      AlignedSplit(g.lines[j], g.words[k], g.lines[j'], g.words[k'], s.line);
    }
  }

  lemma NonNegative(x: int, unit: nat)
    requires Multiple(x, unit)
    ensures x >= 0
  {
  }

  /** x is an aligned word of one of the pages. */
  ghost predicate WordOfPages(x: int, pages: seq<int>, s: Shape) {
    Multiple(x, s.word) && exists i :: 0 <= i < |pages| && pages[i] <= x < pages[i] + s.pagesize
  }

  /** With whole pages the chain covers every aligned word of its pages and nothing else. */
  lemma CellsAreAllWords(pages: seq<int>, s: Shape, x: int)
    requires s.Valid() && forall i :: 0 <= i < |pages| ==> Multiple(pages[i], s.pagesize)
    ensures x in Cells(TableLayout(pages, s), s.nlines) <==> WordOfPages(x, pages, s)
  {
    hide Mul, Multiple, BitOrder;
    var g := TableLayout(pages, s);
    if x in Cells(g, s.nlines) {
      var i, j, k :| 0 <= i < |pages| && 0 <= j < LinesOn(g, s.nlines, i) && 0 <= k < |g.words| && x == g.Addr(i, j, k);
      LineRange(s, j);
      WordRange(s, k);
      AlignedSum(pages[i], g.lines[j], g.words[k], s);
    }
    if WordOfPages(x, pages, s) {
      var i :| 0 <= i < |pages| && pages[i] <= x < pages[i] + s.pagesize;
      var l, w := OffsetParts(pages[i], x - pages[i], s);
      BitOrderCovers(s.nlines, s.line, l);
      BitOrderCovers(s.nwords, s.word, w);
      var j :| 0 <= j < |g.lines| && g.lines[j] == l;
      var k :| 0 <= k < |g.words| && g.words[k] == w;
      assert x == g.Addr(i, j, k);
    }
  }

  lemma PageIsWords(s: Shape)
    requires s.Valid()
    ensures Multiple(s.line, s.word) && Multiple(s.pagesize, s.line) && Multiple(s.pagesize, s.word)
  {
    ShapeCounts(s);
    MultipleTransitive(s.pagesize, s.line, s.word);
  }

  lemma AlignedSum(page: int, l: int, w: int, s: Shape)
    requires s.Valid() && Multiple(page, s.pagesize) && Multiple(l, s.line) && Multiple(w, s.word)
    ensures Multiple(page + l + w, s.word)
  {
    hide Mul, Multiple;
    PageIsWords(s);
    MultipleTransitive(page, s.pagesize, s.word);
    MultipleTransitive(l, s.line, s.word);
    MultipleSum(page, l, s.word);
    MultipleSum(page + l, w, s.word);
  }

  lemma OffsetParts(page: int, off: nat, s: Shape) returns (l: nat, w: nat)
    requires s.Valid() && Multiple(page, s.pagesize) && off < s.pagesize && Multiple(page + off, s.word)
    ensures off == l + w && Multiple(l, s.line) && l < Mul(s.nlines, s.line)
    ensures Multiple(w, s.word) && w < Mul(s.nwords, s.word)
  {
    hide Mul, Multiple;
    l, w := SplitOffset(off, s.line);
    PageIsWords(s);
    MultipleTransitive(page, s.pagesize, s.word);
    MultipleDifference(page + off, page, s.word);
    MultipleTransitive(l, s.line, s.word);
    MultipleDifference(off, l, s.word);
  }
}
