/** thrash_initialize of lib_mem.c: a chain that leaves the page with every step. */
module Thrash {
  import opened Arith
  import Counting
  import opened BitReversal
  import opened PointerChain
  import opened Lanes
  import opened Tables
  import opened LibMem
  import opened LineChains

  /** Index modulo the number of lines. */
  function Row(x: nat, n: nat): (r: nat)
    requires n > 0
    ensures r < n
  {
    x % n
  }

  lemma RowSmall(x: nat, n: nat)
    requires x < n
    ensures Row(x, n) == x && Row(x + n, n) == x
  {
    DivUnique(x, 0, x, n);
    DivUnique(x + n, 1, x, n);
  }

  lemma RowSplit(x: nat, n: nat) returns (q: nat)
    requires n > 0
    ensures x == Mul(q, n) + Row(x, n)
  {
    q := x / n;
  }

  lemma RowInjective(i: nat, j: nat, j': nat, n: nat)
    requires n > 0 && j < n && j' < n && Row(i + j, n) == Row(i + j', n)
    ensures j == j'
  {
    hide Mul, Row;
    var q := RowSplit(i + j, n);
    var q' := RowSplit(i + j', n);
    if q < q' {
      MulLess(q, q', n);
    } else if q' < q {
      MulLess(q', q, n);
    }
  }

  lemma RowCovers(i: nat, r: nat, n: nat) returns (j: nat)
    requires n > 0 && r < n
    ensures j < n && Row(i + j, n) == r
  {
    var t := Row(i, n);
    j := if t <= r then r - t else r + n - t;
    var q := RowSplit(i, n);
    if t <= r {
      DivUnique(i + j, q, r, n);
    } else {
      assert (q + 1) * n == q * n + n;
      DivUnique(i + j, q + 1, r, n);
    }
  }

  /** The cell of lane j on page i: the lines are skewed by one from page to page. */
  function Skew(g: Layout, i: int, j: int): int
    requires 0 <= i < |g.pages| && 0 <= j < |g.lines| && g.words == [0]
  {
    g.Addr(i, Row(i + j, |g.lines|), 0)
  }

  ghost predicate SkewUnique(g: Layout)
    requires g.words == [0]
  {
    forall i, j, i', j' ::
      (0 <= i < |g.pages| && 0 <= j < |g.lines| && 0 <= i' < |g.pages| && 0 <= j' < |g.lines| &&
       Skew(g, i, j) == Skew(g, i', j')) ==> i == i' && j == j'
  }

  lemma SkewIsUnique(g: Layout, size: nat)
    requires g.Separated(size) && g.words == [0]
    ensures SkewUnique(g)
    ensures forall i, j :: 0 <= i < |g.pages| && 0 <= j < |g.lines| ==> 0 <= Skew(g, i, j) < size
  {
    forall i, j, i', j' |
      0 <= i < |g.pages| && 0 <= j < |g.lines| && 0 <= i' < |g.pages| && 0 <= j' < |g.lines| &&
      Skew(g, i, j) == Skew(g, i', j')
      ensures i == i' && j == j'
    {
      RowInjective(i, j, j', |g.lines|);
    }
  }

  /** Where lane j leads from page i. */
  function SkewNext(g: Layout, i: nat, j: nat): int
    requires i < |g.pages| && j < |g.lines| && g.words == [0]
  {
    if i + 1 < |g.pages| then Skew(g, i + 1, j) else Skew(g, 0, if j + 1 < |g.lines| then j + 1 else 0)
  }

  ghost predicate SkewBounded(m: seq<int>, g: Layout)
    requires g.words == [0]
  {
    forall i, j :: 0 <= i < |g.pages| && 0 <= j < |g.lines| ==> 0 <= Skew(g, i, j) < |m|
  }

  ghost predicate SkewPage(m: seq<int>, g: Layout, i: nat)
    requires g.words == [0] && SkewBounded(m, g) && i < |g.pages|
  {
    forall j :: 0 <= j < |g.lines| ==> m[Skew(g, i, j)] == SkewNext(g, i, j)
  }

  /** The loop over the lines of page i; words[] and pages[] are used exactly as the code does. */
  method LinkSkewed(mem: array<int>, g: Layout, i: nat)
    requires g.Separated(mem.Length) && g.words == [0] && g.lines != [] && i < |g.pages|
    requires SkewUnique(g) && SkewBounded(mem[..], g)
    modifies mem
    ensures SkewPage(mem[..], g, i)
    ensures forall i' :: 0 <= i' < |g.pages| && i' != i && SkewPage(old(mem[..]), g, i') ==> SkewPage(mem[..], g, i')
  {
    hide Layout.Unique;
    var n := |g.lines|;
    var cpage, npage := g.pages[i], if i + 1 < |g.pages| then g.pages[i + 1] else g.pages[0];
    var j := 0;
    while j < n
      invariant j <= n
      invariant forall j' :: 0 <= j' < j ==> mem[Skew(g, i, j')] == SkewNext(g, i, j')
      invariant forall i', j' :: 0 <= i' < |g.pages| && i' != i && 0 <= j' < n ==> mem[Skew(g, i', j')] == old(mem[Skew(g, i', j')])
    {
      var cur := cpage + g.lines[(i + j) % n];
      var next := npage + g.lines[if i + 1 < |g.pages| then (i + j + 1) % n else (j + 1) % n];
      NextRow(g, i, j);
      assert cur == Skew(g, i, j);
      mem[cur] := next;
      j := j + 1;
    }
  }

  lemma NextRow(g: Layout, i: nat, j: nat)
    requires i < |g.pages| && j < |g.lines| && g.words == [0]
    ensures var n := |g.lines|;
            SkewNext(g, i, j) == if i + 1 < |g.pages| then g.pages[i + 1] + g.lines[(i + j + 1) % n] else g.pages[0] + g.lines[(j + 1) % n]
  {
    var n := |g.lines|;
    if i + 1 == |g.pages| {
      if j + 1 < n {
        RowSmall(j + 1, n);
      } else {
        RowSmall(0, n);
      }
    } else {
      assert i + 1 + j == i + j + 1;
    }
  }

  ghost predicate SkewLinks(m: seq<int>, g: Layout)
    requires g.words == [0] && SkewBounded(m, g)
  {
    forall i :: 0 <= i < |g.pages| ==> SkewPage(m, g, i)
  }

  function SkewLane(g: Layout, j: nat): seq<int>
    requires j < |g.lines| && g.words == [0]
  {
    seq(|g.pages|, i requires 0 <= i < |g.pages| => Skew(g, i, j))
  }

  function SkewLanes(g: Layout): nat -> seq<int>
    requires g.words == [0]
  {
    (j: nat) => if j < |g.lines| then SkewLane(g, j) else []
  }

  function SkewPath(g: Layout): seq<int>
    requires g.words == [0]
  {
    Concat(|g.lines|, SkewLanes(g))
  }

  lemma SkewPathCloses(m: seq<int>, g: Layout)
    requires g.NonEmpty() && g.words == [0] && SkewBounded(m, g) && SkewLinks(m, g)
    ensures var p := SkewPath(g);
            p != [] && Segment(m, p) && p[0] == Skew(g, 0, 0) && m[Last(p)] == p[0]
  {
    var f := SkewLanes(g);
    forall j: nat | j < |g.lines|
      ensures f(j) != [] && Segment(m, f(j)) && f(j)[0] == Skew(g, 0, j)
      ensures m[Last(f(j))] == Skew(g, 0, if j + 1 < |g.lines| then j + 1 else 0)
    {
      SkewLaneLeads(m, g, j);
    }
    ConcatSegment(m, |g.lines|, f);
  }

  lemma SkewLaneLeads(m: seq<int>, g: Layout, j: nat)
    requires g.NonEmpty() && g.words == [0] && SkewBounded(m, g) && SkewLinks(m, g) && j < |g.lines|
    ensures var l := SkewLane(g, j);
            l != [] && Segment(m, l) && l[0] == Skew(g, 0, j)
            && m[Last(l)] == Skew(g, 0, if j + 1 < |g.lines| then j + 1 else 0)
  {
    hide Skew;
    forall i | 0 <= i < |g.pages|
      ensures m[Skew(g, i, j)] == SkewNext(g, i, j)
    {
      assert SkewPage(m, g, i);
    }
  }

  lemma SkewPathDistinct(g: Layout)
    requires g.words == [0] && SkewUnique(g)
    ensures Distinct(SkewPath(g))
  {
    hide Skew;
    var f := SkewLanes(g);
    forall j: nat, l: nat, x | j < l < |g.lines| && x in f(j)
      ensures x !in f(l)
    {
    }
    ConcatDistinct(|g.lines|, f);
  }

  lemma SkewPathCells(g: Layout)
    requires g.words == [0] && g.lines != []
    ensures Elements(SkewPath(g)) == Cells(g, |g.lines|)
    ensures |SkewPath(g)| == Mul(|g.lines|, |g.pages|)
  {
    hide Cells;
    forall x
      ensures x in SkewPath(g) <==> x in Cells(g, |g.lines|)
    {
      if x in SkewPath(g) {
        OnSkewPath(g, x);
      }
      if x in Cells(g, |g.lines|) {
        CellOnSkewPath(g, x);
      }
    }
    ConcatLength(|g.lines|, SkewLanes(g), |g.pages|);
  }

  lemma OnSkewPath(g: Layout, x: int)
    requires g.words == [0] && g.lines != [] && x in SkewPath(g)
    ensures x in Cells(g, |g.lines|)
  {
    var f, n := SkewLanes(g), |g.lines|;
    ConcatMember(n, f, x);
    var j: nat :| j < n && x in f(j);
    var i :| 0 <= i < |g.pages| && SkewLane(g, j)[i] == x;
    assert x == g.Addr(i, Row(i + j, n), 0);
  }

  lemma CellOnSkewPath(g: Layout, x: int)
    requires g.words == [0] && g.lines != [] && x in Cells(g, |g.lines|)
    ensures x in SkewPath(g)
  {
    var f, n := SkewLanes(g), |g.lines|;
    ConcatMember(n, f, x);
    var i, r, k :| 0 <= i < |g.pages| && 0 <= r < LinesOn(g, n, i) && 0 <= k < |g.words| && x == g.Addr(i, r, k);
    var j := RowCovers(i, r, n);
    assert x == Skew(g, i, j) == SkewLane(g, j)[i];
    assert x in f(j);
  }

  /** The next cell of x is on another page. */
  ghost predicate LeavesPage(m: seq<int>, g: Layout, x: int) {
    forall i, r, i', r' ::
      g.InRange(i, r, 0) && g.InRange(i', r', 0) && x == g.Addr(i, r, 0) && 0 <= x < |m| && m[x] == g.Addr(i', r', 0) ==> i != i'
  }

  /** One cycle over every line of every page, once; with more than one page no step stays on its page. */
  lemma SkewCycle(m: seq<int>, g: Layout)
    requires g.Separated(|m|) && g.NonEmpty() && g.words == [0] && SkewBounded(m, g) && SkewLinks(m, g)
    ensures SingleCycle(m, Skew(g, 0, 0), Cells(g, |g.lines|))
    ensures |Cells(g, |g.lines|)| == Mul(|g.lines|, |g.pages|)
    ensures |g.pages| > 1 ==> forall x :: x in Cells(g, |g.lines|) ==> LeavesPage(m, g, x)
  {
    hide SkewLinks, SkewPath, Cells;
    SkewIsUnique(g, |m|);
    SkewPathCloses(m, g);
    SkewPathDistinct(g);
    SkewPathCells(g);
    CycleFromPath(m, SkewPath(g));
    if |g.pages| > 1 {
      forall x | x in Cells(g, |g.lines|) ensures LeavesPage(m, g, x) {
        SkewLeaves(m, g, x);
      }
    }
  }

  lemma SkewLeaves(m: seq<int>, g: Layout, x: int)
    requires g.Separated(|m|) && g.words == [0] && SkewBounded(m, g) && SkewLinks(m, g) && |g.pages| > 1 && g.lines != []
    requires x in Cells(g, |g.lines|)
    ensures LeavesPage(m, g, x)
  {
    forall i, r, i', r' |
      g.InRange(i, r, 0) && g.InRange(i', r', 0) && x == g.Addr(i, r, 0) && 0 <= x < |m| && m[x] == g.Addr(i', r', 0)
      ensures i != i'
    {
      var j := RowCovers(i, r, |g.lines|);
      assert SkewPage(m, g, i);
      assert m[Skew(g, i, j)] == SkewNext(g, i, j);
    }
  }

  /** Steps of the chase to line j of page 0 and on to page i. */
  function SkewStep(g: Layout, i: nat, j: nat): nat {
    Mul(j, |g.pages|) + i
  }

  /** The order of the chase: through all pages, one line further in the table on each, before the next line of page 0. */
  ghost predicate SkewRuns(m: seq<int>, g: Layout)
    requires g.words == [0] && g.NonEmpty()
  {
    forall i: nat, j: nat :: i < |g.pages| && j < |g.lines| ==>
                               Chase(m, g.pages[0] + g.lines[0], SkewStep(g, i, j)) == g.pages[i] + g.lines[(i + j) % |g.lines|]
  }

  lemma {:induction false} SkewRun(m: seq<int>, g: Layout, i: nat, j: nat)
    requires g.words == [0] && g.NonEmpty() && SkewBounded(m, g) && SkewLinks(m, g) && i < |g.pages| && j < |g.lines|
    ensures Chase(m, Skew(g, 0, 0), SkewStep(g, i, j)) == Skew(g, i, j)
    decreases j, i
  {
    hide Mul, Skew;
    if i > 0 {
      SkewRun(m, g, i - 1, j);
      assert SkewPage(m, g, i - 1);
      assert SkewStep(g, i, j) == SkewStep(g, i - 1, j) + 1;
    } else if j > 0 {
      var n := |g.pages| - 1;
      SkewRun(m, g, n, j - 1);
      assert SkewPage(m, g, n);
      MulPlus(j - 1, 1, |g.pages|);
      MulSmall(|g.pages|);
      assert SkewStep(g, 0, j) == SkewStep(g, n, j - 1) + 1;
    } else {
      MulSmall(|g.pages|);
    }
  }

  lemma AllSkewRuns(m: seq<int>, g: Layout)
    requires g.words == [0] && g.NonEmpty() && SkewBounded(m, g) && SkewLinks(m, g)
    ensures SkewRuns(m, g)
  {
    hide SkewLinks, SkewBounded;
    RowSmall(0, |g.lines|);
    forall i: nat, j: nat | i < |g.pages| && j < |g.lines|
      ensures Chase(m, g.pages[0] + g.lines[0], SkewStep(g, i, j)) == g.pages[i] + g.lines[(i + j) % |g.lines|]
    {
      SkewRun(m, g, i, j);
    }
  }

  /** The branch for whole pages. */
  method ThrashPages(mem: array<int>, g: Layout)
    requires g.Separated(mem.Length) && g.NonEmpty() && g.words == [0]
    modifies mem
    ensures SkewBounded(mem[..], g) && SkewLinks(mem[..], g)
  {
    SkewIsUnique(g, mem.Length);
    hide Skew, Layout.Unique, SkewUnique, SkewNext;
    var i := 0;
    while i < |g.pages| - 1
      invariant 0 <= i < |g.pages| && SkewBounded(mem[..], g)
      invariant forall i' :: 0 <= i' < i ==> SkewPage(mem[..], g, i')
    {
      LinkSkewed(mem, g, i);
      i := i + 1;
    }
    LinkSkewed(mem, g, i);
  }

  function Next(words: seq<int>, t: nat): int
    requires t < |words|
  {
    if t + 1 < |words| then words[t + 1] else words[0]
  }

  /** Memory after the first upto stores of the loop below. */
  function Followed(m: seq<int>, words: seq<int>, upto: nat): (m': seq<int>)
    requires upto <= |words| && forall i :: 0 <= i < |words| ==> 0 <= words[i] < |m|
    ensures |m'| == |m|
  {
    if upto == 0 then m else Followed(m, words, upto - 1)[words[upto - 1] := Next(words, upto - 1)]
  }

  lemma {:induction false} FollowedIn(m: seq<int>, words: seq<int>, upto: nat, t: nat)
    requires t < upto <= |words| && forall i :: 0 <= i < |words| ==> 0 <= words[i] < |m|
    ensures Followed(m, words, upto)[words[t]] in words
    ensures Distinct(words) ==> Followed(m, words, upto)[words[t]] == Next(words, t)
  {
    if t < upto - 1 {
      FollowedIn(m, words, upto - 1, t);
    }
  }

  /** The branch for a length that is not a whole number of pages: lines in table order, without pages. */
  method ThrashLines(mem: array<int>, words: seq<int>)
    requires words != [] && words[0] == 0
    requires forall i :: 0 <= i < |words| ==> 0 <= words[i] < mem.Length
    modifies mem
    ensures mem[..] == Followed(old(mem[..]), words, |words|)
  {
    var i := 0;
    while i < |words| - 1
      invariant 0 <= i < |words| && mem[..] == Followed(old(mem[..]), words, i)
    {
      mem[words[i]] := words[i + 1];
      i := i + 1;
    }
    mem[words[i]] := 0;
  }

  ghost predicate PointsIn(m: seq<int>, words: seq<int>, i: nat)
    requires i < |words|
  {
    0 <= words[i] < |m| && m[words[i]] in words
  }

  /** The cells of words only point to each other. */
  ghost predicate Closed(m: seq<int>, words: seq<int>) {
    words != [] && forall i: nat :: i < |words| ==> PointsIn(m, words, i)
  }

  lemma FollowedClosed(m: seq<int>, words: seq<int>)
    requires words != [] && forall i :: 0 <= i < |words| ==> 0 <= words[i] < |m|
    ensures Closed(Followed(m, words, |words|), words)
  {
    hide Followed;
    forall t: nat | t < |words|
      ensures PointsIn(Followed(m, words, |words|), words, t)
    {
      FollowedIn(m, words, |words|, t);
    }
  }

  lemma FollowedSegment(m: seq<int>, words: seq<int>)
    requires words != [] && Distinct(words) && forall i :: 0 <= i < |words| ==> 0 <= words[i] < |m|
    ensures var m' := Followed(m, words, |words|);
            Segment(m', words) && m'[Last(words)] == words[0]
  {
    hide Followed;
    var m' := Followed(m, words, |words|);
    forall t | 0 <= t < |words| - 1 ensures m'[words[t]] == words[t + 1] {
      FollowedIn(m, words, |words|, t);
    }
    FollowedIn(m, words, |words|, |words| - 1);
  }

  /** The chase follows the table. */
  lemma FollowedRun(m: seq<int>, words: seq<int>)
    requires words != [] && Distinct(words) && forall i :: 0 <= i < |words| ==> 0 <= words[i] < |m|
    ensures forall t :: 0 <= t < |words| ==> Chase(Followed(m, words, |words|), words[0], t) == words[t]
  {
    hide Followed;
    FollowedSegment(m, words);
    forall t | 0 <= t < |words| ensures Chase(Followed(m, words, |words|), words[0], t) == words[t] {
      ChaseFollows(Followed(m, words, |words|), words, t);
    }
  }

  lemma {:induction false} StaysIn(m: seq<int>, words: seq<int>, k: nat)
    requires words != [] && Closed(m, words)
    ensures Chase(m, words[0], k) in words
  {
    if k > 0 {
      StaysIn(m, words, k - 1);
      var i :| 0 <= i < |words| && words[i] == Chase(m, words[0], k - 1);
      assert PointsIn(m, words, i);
    }
  }

  lemma {:induction false} RepeatsShrink(words: seq<int>)
    requires !Distinct(words)
    ensures |Elements(words)| < |words|
  {
    var n := |words| - 1;
    assert Elements(words) == Elements(words[..n]) + {words[n]};
    if Distinct(words[..n]) {
      DistinctSize(words[..n]);
      var t :| 0 <= t < n && words[t] == words[n];
      assert words[n] == words[..n][t];
      assert words[n] in Elements(words[..n]);
      assert Elements(words) == Elements(words[..n]);
    } else {
      RepeatsShrink(words[..n]);
    }
  }

  lemma CycleStaysIn(m: seq<int>, words: seq<int>, s: set<int>)
    requires words != [] && Closed(m, words) && SingleCycle(m, words[0], s)
    ensures |s| <= |Elements(words)|
  {
    hide Closed;
    forall a | a in s ensures a in Elements(words) {
      var k :| 0 <= k < |s| && Chase(m, words[0], k) == a;
      StaysIn(m, words, k);
    }
    Counting.SubsetSize(s, Elements(words));
  }

  /** Without repetition the chain has |words| cells; with repetition no cycle from the start has as many. */
  lemma LinesCycleExactly(m: seq<int>, words: seq<int>)
    requires words != [] && forall i :: 0 <= i < |words| ==> 0 <= words[i] < |m|
    ensures (exists s: set<int> :: |s| == |words| && SingleCycle(Followed(m, words, |words|), words[0], s)) <==> Distinct(words)
  {
    hide SingleCycle, Followed, Closed;
    var m' := Followed(m, words, |words|);
    if Distinct(words) {
      FollowedSegment(m, words);
      CycleFromPath(m', words);
    } else {
      RepeatsShrink(words);
      FollowedClosed(m, words);
      forall s: set<int> | SingleCycle(m', words[0], s)
        ensures |s| < |words|
      {
        CycleStaysIn(m', words, s);
      }
    }
  }

  lemma TableBounds(n: nat, line: nat)
    requires n >= 1 && line > 0
    ensures forall i :: 0 <= i < n ==> 0 <= BitOrder(n, line)[i] && BitOrder(n, line)[i] + line <= Mul(n, line)
  {
    hide Mul, Rev;
    forall i | 0 <= i < n
      ensures BitOrder(n, line)[i] + line <= Mul(n, line)
    {
      MulLess(Rev(Log2(n), i), n, line);
    }
  }

  lemma FirstOffset(n: nat, line: nat)
    requires n >= 1
    ensures BitOrder(n, line)[0] == 0
  {
    RevZero(Log2(n));
    MulSmall(line);
  }

  /** len/line whole lines fit in the pages that maxlen needs. */
  lemma LinesFit(len: nat, maxlen: nat, line: nat, pagesize: nat)
    requires 0 < len <= maxlen && line > 0 && pagesize > 0
    ensures Mul(len / line, line) <= Mul(PagesFor(maxlen, pagesize), pagesize)
  {
    var r := len % line;
    assert len == (len / line) * line + r;
    var rem := CeilSplit(maxlen, pagesize);
    MulPlus(PagesFor(maxlen, pagesize) - 1, 1, pagesize);
    MulSmall(pagesize);
  }

  lemma WholePages(len: nat, pagesize: nat)
    requires pagesize > 0
    ensures len % pagesize == 0 <==> Multiple(len, pagesize)
  {
  }

  /** What the chain over whole pages promises. */
  ghost predicate ThrashesPages(m: seq<int>, g: Layout) {
    && g.words == [0] && g.NonEmpty() && SkewRuns(m, g)
    && SingleCycle(m, g.pages[0], Cells(g, |g.lines|)) && |Cells(g, |g.lines|)| == Mul(|g.lines|, |g.pages|)
    && (|g.pages| > 1 ==> forall x :: x in Cells(g, |g.lines|) ==> LeavesPage(m, g, x))
  }

  /**
   thrash_initialize: for whole pages one cycle over all lines of all pages from pages[0]; otherwise
   a cycle over len/line lines exactly when that number is a power of two.
   */
  method ThrashInitialize(state: MemState)
    requires state.Sized() && state.Pointers() >= 1
    modifies state, state.p
    ensures fresh(state.mem) && state.words == BitOrder(state.nwords, state.line)
    ensures Multiple(old(state.len), old(state.pagesize)) ==>
              state.nwords == state.nlines && 1 <= state.npages <= |state.pages| && state.p[0] == state.pages[0]
              && ThrashesPages(state.mem[..], Layout(state.pages[..state.npages], state.words, [0]))
    ensures !Multiple(old(state.len), old(state.pagesize)) ==>
              state.nwords == old(state.Pointers()) && state.p[0] == 0
              && (IsPow2(state.nwords) <==> exists s: set<int> :: |s| == state.nwords && SingleCycle(state.mem[..], 0, s))
              && (IsPow2(state.nwords) ==> forall t :: 0 <= t < state.nwords ==> Chase(state.mem[..], 0, t) == state.words[t])
  {
    hide SkewRuns, Mul, Multiple, BitOrder, SingleCycle, PagesFor, LeavesPage, Cells, Followed, Distinct;
    BaseInitialize(state);
    ghost var s := state.S();
    PointerCount(state.len, s);
    ShapeCounts(s);
    WholePages(state.len, state.pagesize);
    LinesFit(state.len, state.maxlen, state.line, state.pagesize);
    if state.len % state.pagesize != 0 {
      state.nwords := state.len / state.line;
      var w := WordsInitialize(state.nwords, state.line);
      state.words := w[..];
      TableBounds(state.nwords, state.line);
      FirstOffset(state.nwords, state.line);
      ghost var m := state.mem[..];
      ThrashLines(state.mem, state.words);
      LinesCycleExactly(m, state.words);
      DistinctExactlyForPow2(state.nwords, state.line);
      if IsPow2(state.nwords) {
        FollowedRun(m, state.words);
      }
      state.p[0] := 0;
    } else {
      state.nwords := state.pagesize / state.line;
      var w := WordsInitialize(state.nwords, state.line);
      state.words := w[..];
      var g := Layout(state.pages[..state.npages], state.words, [0]);
      LineHeads(g, s, state.mem.Length, state.pages);
      ThrashPages(state.mem, g);
      SkewCycle(state.mem[..], g);
      AllSkewRuns(state.mem[..], g);
      SkewStart(g);
      state.p[0] := state.pages[0];
    }
  }

  lemma LineHeads(g: Layout, s: Shape, size: nat, pages: seq<int>)
    requires s.Valid() && Paged(pages, s.pagesize, size) && |g.pages| <= |pages| && g.pages == pages[..|g.pages|]
    requires g.lines == BitOrder(s.nlines, s.line) && g.words == [0]
    ensures g.Separated(size) && g.lines != [] && g.lines[0] == 0
  {
    hide Mul, Multiple, BitOrder;
    PrefixPaged(pages, |g.pages|, s.pagesize, size);
    TablesSeparated(g.pages, s, size);
    FirstWord(s);
    var t := TableLayout(g.pages, s);
    HeadsSeparated(t, s.nlines, size);
    assert Heads(t, s.nlines) == g;
  }

  lemma SkewStart(g: Layout)
    requires g.NonEmpty() && g.words == [0] && g.lines[0] == 0
    ensures Skew(g, 0, 0) == g.pages[0]
  {
    RowSmall(0, |g.lines|);
  }
}
