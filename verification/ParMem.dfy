/** The start points of par_mem in lib_mem.c: ways chases run side by side through one chain. */
module ParMem {
  import opened Arith
  import opened PointerChain
  import opened Lanes
  import opened Tables
  import opened LibMem

  /** The line at which chase j of ways starts, counted over all pages. */
  function LineOf(total: nat, ways: nat, j: nat): nat
    requires ways > 0
  {
    Mul(j, total / ways)
  }

  /** The word of that line. */
  function WordOf(nwords: nat, ways: nat, j: nat): nat
    requires ways > 0
  {
    Mul(j, nwords) / ways
  }

  /** A chase starts on a line that exists, or on the first. */
  lemma LineBelow(total: nat, ways: nat, j: nat)
    requires j < ways
    ensures LineOf(total, ways, j) < total || LineOf(total, ways, j) == 0
  {
    hide Mul;
    var chunk := total / ways;
    DivParts(total, ways);
    MulCommutes(chunk, ways);
    MulLess(j, ways, chunk);
    if chunk == 0 {
      MulCommutes(j, 0);
      MulSmall(j);
    }
  }

  lemma WordBelow(nwords: nat, ways: nat, j: nat)
    requires j < ways && nwords > 0
    ensures WordOf(nwords, ways, j) < nwords
  {
    hide Mul;
    MulLess(j, ways, nwords);
    MulCommutes(ways, nwords);
    DivParts(Mul(j, nwords), ways);
    if nwords <= Mul(j, nwords) / ways {
      MulMono(nwords, Mul(j, nwords) / ways, ways);
    }
  }

  lemma LinesRise(total: nat, ways: nat, a: nat, b: nat)
    requires a < b < ways
    ensures LineOf(total, ways, a) != LineOf(total, ways, b) <==> total >= ways
  {
    hide Mul;
    var chunk := total / ways;
    QuotientPositive(total, ways);
    MulLess(a, b, chunk);
    if chunk == 0 {
      MulCommutes(a, 0);
      MulCommutes(b, 0);
      MulSmall(a);
      MulSmall(b);
    }
  }

  lemma WordsRise(nwords: nat, ways: nat, a: nat, b: nat)
    requires a < b < ways && nwords >= ways
    ensures WordOf(nwords, ways, a) < WordOf(nwords, ways, b)
  {
    hide Mul;
    var x, y := Mul(a, nwords), Mul(b, nwords);
    MulLess(a, b, nwords);
    DivParts(x, ways);
    DivParts(y, ways);
    if y / ways <= x / ways {
      MulMono(y / ways, x / ways, ways);
    }
  }

  /** Page and line in the page. */
  function PageOf(total: nat, nlines: nat, ways: nat, j: nat): nat
    requires ways > 0 && nlines > 0
  {
    LineOf(total, ways, j) / nlines
  }

  function InPage(total: nat, nlines: nat, ways: nat, j: nat): nat
    requires ways > 0 && nlines > 0
  {
    LineOf(total, ways, j) % nlines
  }

  /** A start line is on the chain even when the last page is only partly used. */
  lemma StartLineOnChain(line: nat, total: nat, npages: nat, nlines: nat)
    requires npages >= 1 && nlines >= 1 && total <= Mul(npages, nlines) && (line < total || line == 0)
    ensures var i, last := line / nlines, LastLines(total, npages, nlines);
            i < npages && line % nlines < (if i == npages - 1 then last else nlines)
  {
    hide Mul;
    var i, l := line / nlines, line % nlines;
    DivParts(line, nlines);
    LineArith(npages, nlines);
    MulSmall(nlines);
    MulMono(1, npages, nlines);
    if i >= npages {
      MulMono(npages, i, nlines);
    }
  }

  ghost function StartCell(g: Layout, total: nat, ways: nat, j: nat): int
    requires j < ways && g.NonEmpty()
    requires PageOf(total, |g.lines|, ways, j) < |g.pages| && WordOf(|g.words|, ways, j) < |g.words|
  {
    g.Addr(PageOf(total, |g.lines|, ways, j), InPage(total, |g.lines|, ways, j), WordOf(|g.words|, ways, j))
  }

  /** The indices of a start point are in range, and it lies on the chain. */
  lemma StartOnChain(g: Layout, total: nat, ways: nat, j: nat)
    requires j < ways && g.NonEmpty() && total <= Mul(|g.pages|, |g.lines|)
    ensures PageOf(total, |g.lines|, ways, j) < |g.pages| && WordOf(|g.words|, ways, j) < |g.words|
    ensures StartCell(g, total, ways, j) in Cells(g, LastLines(total, |g.pages|, |g.lines|))
  {
    LineBelow(total, ways, j);
    WordBelow(|g.words|, ways, j);
    StartLineOnChain(LineOf(total, ways, j), total, |g.pages|, |g.lines|);
  }

  ghost function StartCellOf(g: Layout, total: nat, ways: nat, j: nat): int
    requires j < ways && g.NonEmpty() && total <= Mul(|g.pages|, |g.lines|)
  {
    StartOnChain(g, total, ways, j);
    StartCell(g, total, ways, j)
  }

  ghost predicate StartsApart(g: Layout, total: nat, ways: nat)
    requires g.NonEmpty() && ways > 0 && total <= Mul(|g.pages|, |g.lines|)
  {
    forall a: nat, b: nat :: a < b < ways ==> StartCellOf(g, total, ways, a) != StartCellOf(g, total, ways, b)
  }

  lemma SameStart(g: Layout, total: nat, ways: nat, a: nat, b: nat)
    requires g.Unique() && g.NonEmpty() && total <= Mul(|g.pages|, |g.lines|) && a < ways && b < ways
    ensures PageOf(total, |g.lines|, ways, a) < |g.pages| && WordOf(|g.words|, ways, a) < |g.words|
    ensures PageOf(total, |g.lines|, ways, b) < |g.pages| && WordOf(|g.words|, ways, b) < |g.words|
    ensures StartCell(g, total, ways, a) == StartCell(g, total, ways, b) <==>
            LineOf(total, ways, a) == LineOf(total, ways, b) && WordOf(|g.words|, ways, a) == WordOf(|g.words|, ways, b)
  {
    hide LineOf, WordOf;
    StartOnChain(g, total, ways, a);
    StartOnChain(g, total, ways, b);
    DivParts(LineOf(total, ways, a), |g.lines|);
    DivParts(LineOf(total, ways, b), |g.lines|);
  }

  /** The chases all start at different words exactly when there are as many lines, or as many words in a line. */
  lemma StartsApartExactly(g: Layout, total: nat, ways: nat)
    requires g.Unique() && g.NonEmpty() && total <= Mul(|g.pages|, |g.lines|) && ways > 0
    ensures StartsApart(g, total, ways) <==> ways == 1 || total >= ways || |g.words| >= ways
  {
    hide LineOf, WordOf, StartCell, Layout.Unique;
    forall a: nat, b: nat | a < b < ways
      ensures total >= ways || |g.words| >= ways ==> StartCellOf(g, total, ways, a) != StartCellOf(g, total, ways, b)
    {
      SameStart(g, total, ways, a, b);
      LinesRise(total, ways, a, b);
      if |g.words| >= ways {
        WordsRise(|g.words|, ways, a, b);
      }
    }
    if ways > 1 && total < ways && |g.words| < ways {
      SameStart(g, total, ways, 0, 1);
      LinesRise(total, ways, 0, 1);
      FirstWords(|g.words|, ways);
      assert StartCellOf(g, total, ways, 0) == StartCellOf(g, total, ways, 1);
    }
  }

  lemma FirstWords(nwords: nat, ways: nat)
    requires ways > nwords
    ensures WordOf(nwords, ways, 0) == WordOf(nwords, ways, 1)
  {
    MulSmall(nwords);
    DivUnique(0, 0, 0, ways);
    DivUnique(nwords, 0, nwords, ways);
  }

  /**
   How far along the chain chase j starts: as many lines into a lane as j shares of all lines, and as many
   lanes on as j shares of the words in a line, both rounded down.
   */
  lemma StartPosition(m: seq<int>, g: Layout, total: nat, ways: nat, j: nat, line: nat, word: nat, last: nat)
    requires g.Separated(|m|) && g.NonEmpty() && j < ways && total <= Mul(|g.pages|, |g.lines|)
    requires last == LastLines(total, |g.pages|, |g.lines|) && LaneLinks(m, g, last)
    requires line == Mul(j, total / ways) && word == Mul(j, |g.words|) / ways
    ensures Chase(m, g.Addr(0, 0, 0), Mul(word, Mul(|g.pages| - 1, |g.lines|) + last) + line) == StartCellOf(g, total, ways, j)
  {
    hide Mul, Layout.Unique, LaneLinks, Chase, LastLines;
    StartOnChain(g, total, ways, j);
    LineBelow(total, ways, j);
    DivParts(line, |g.lines|);
    StartLineOnChain(line, total, |g.pages|, |g.lines|);
    LanesRun(m, g, last, line / |g.lines|, line % |g.lines|, word);
  }

  lemma StartValue(g: Layout, total: nat, ways: nat, j: nat)
    requires j < ways && g.NonEmpty() && total <= Mul(|g.pages|, |g.lines|)
    ensures var line, word := LineOf(total, ways, j), WordOf(|g.words|, ways, j);
            && line / |g.lines| < |g.pages| && line % |g.lines| < |g.lines| && word % |g.words| < |g.words|
            && StartCellOf(g, total, ways, j) == g.pages[line / |g.lines|] + g.lines[line % |g.lines|] + g.words[word % |g.words|]
  {
    hide Mul, LineOf, WordOf;
    StartOnChain(g, total, ways, j);
    SmallMod(WordOf(|g.words|, ways, j), |g.words|);
  }

  /** What the tables of a built chain say about the counts. */
  lemma ChainFacts(state: MemState)
    requires state.ChainReady()
    ensures Mul(state.npages, state.nlines) >= state.Pointers() && state.Pointers() == state.len / state.line
    ensures state.line > 0 && state.nlines == state.pagesize / state.line
    ensures |state.G().pages| == state.npages && |state.lines| == state.nlines && |state.words| == state.nwords
    ensures state.G().NonEmpty()
  {
    hide Mul, Multiple, BitOrder, Chained;
    PointerCount(state.len, state.S());
    ShapeCounts(state.S());
  }

  /** The first upto of ways start points are set; the rest of p is as before. */
  ghost predicate Started(p: seq<int>, p0: seq<int>, g: Layout, total: nat, ways: nat, upto: nat)
    requires upto <= ways && g.NonEmpty() && total <= Mul(|g.pages|, |g.lines|)
  {
    && |p| == |p0| && ways <= |p|
    && (forall t :: 0 <= t < upto ==> p[t] == StartCellOf(g, total, ways, t))
    && forall t :: upto <= t < |p| ==> p[t] == p0[t]
  }

  lemma StartedMore(p: seq<int>, p0: seq<int>, g: Layout, total: nat, ways: nat, j: nat)
    requires j < ways && g.NonEmpty() && total <= Mul(|g.pages|, |g.lines|) && Started(p, p0, g, total, ways, j)
    ensures Started(p[j := StartCellOf(g, total, ways, j)], p0, g, total, ways, j + 1)
  {
    hide Mul, StartCellOf;
  }

  /** The inner loop of par_mem: the start points of i+1 chases. */
  method SetStarts(state: MemState, i: nat)
    requires state.ChainReady() && i < MAX_MEM_PARALLELISM
    modifies state.p
    ensures state.ChainReady() && Mul(state.npages, state.nlines) >= state.Pointers()
    ensures Started(state.p[..], old(state.p[..]), state.G(), state.Pointers(), i + 1, i + 1)
  {
    hide Mul, Multiple, BitOrder, Chained, Layout.Unique, StartCellOf, TableLayout, Started;
    ChainFacts(state);
    var g := state.G();
    StartedNone(state.p[..], g, state.Pointers(), i + 1);
    var j := 0;
    while j <= i
      invariant 0 <= j <= i + 1
      invariant Started(state.p[..], old(state.p[..]), g, state.Pointers(), i + 1, j)
    {
      ghost var p := state.p[..];
      var x := StartAt(g, state.len / state.line, state.pagesize / state.line, j, i + 1);
      state.p[j] := x;
      StartedMore(p, old(state.p[..]), g, state.Pointers(), i + 1, j);
      j := j + 1;
    }
  }

  lemma StartedNone(p: seq<int>, g: Layout, total: nat, ways: nat)
    requires g.NonEmpty() && total <= Mul(|g.pages|, |g.lines|) && ways <= |p|
    ensures Started(p, p, g, total, ways, 0)
  {
  }

  /** The address computed for chase j. */
  method StartAt(g: Layout, total: nat, lines_per_page: nat, j: nat, ways: nat) returns (x: int)
    requires j < ways && g.NonEmpty() && total <= Mul(|g.pages|, |g.lines|) && lines_per_page == |g.lines|
    ensures x == StartCellOf(g, total, ways, j)
  {
    hide Mul, StartCellOf;
    StartValue(g, total, ways, j);
    var lines_per_chunk := total / ways;
    var line := Mul(j, lines_per_chunk);
    var word := Mul(j, |g.words|) / ways;
    x := g.pages[line / lines_per_page] + g.lines[line % lines_per_page] + g.words[word % |g.words|];
  }
}
