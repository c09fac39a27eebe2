/** lat_dram_page.c: regroup rewrites the chain so that it visits pages group by group. */
module DramPage {
  import opened Arith
  import opened BitReversal
  import opened PointerChain
  import opened Lanes
  import opened Tables
  import opened LibMem

  /** Offset of a word inside its page. */
  function Off(g: Layout, j: int, k: int): int
    requires 0 <= j < |g.lines| && 0 <= k < |g.words|
  {
    g.lines[j] + g.words[k]
  }

  /** Line and word of an aligned offset. */
  lemma OffsetWord(g: Layout, s: Shape, o: nat) returns (j: nat, k: nat)
    requires s.Valid() && g == TableLayout(g.pages, s) && Multiple(o, s.word) && o < s.pagesize
    ensures j < |g.lines| && k < |g.words| && Off(g, j, k) == o
  {
    hide Mul, Multiple, BitOrder;
    ZeroMultiple(s.pagesize);
    var l, w := OffsetParts(0, o, s);
    BitOrderCovers(s.nlines, s.line, l);
    BitOrderCovers(s.nwords, s.word, w);
    j :| 0 <= j < |g.lines| && g.lines[j] == l;
    k :| 0 <= k < |g.words| && g.words[k] == w;
  }

  lemma ZeroMultiple(unit: nat)
    requires unit > 0
    ensures Multiple(0, unit)
  {
  }

  lemma OffRange(g: Layout, s: Shape, j: nat, k: nat)
    requires s.Valid() && g == TableLayout(g.pages, s) && j < |g.lines| && k < |g.words|
    ensures Multiple(Off(g, j, k), s.word) && Off(g, j, k) + s.word <= s.pagesize
  {
    hide Mul, Multiple, BitOrder;
    LineRange(s, j);
    WordRange(s, k);
    PageIsWords(s);
    MultipleTransitive(g.lines[j], s.line, s.word);
    MultipleSum(g.lines[j], g.words[k], s.word);
  }

  /** Only words of page i changed. */
  ghost predicate OnlyPage(m: seq<int>, m': seq<int>, g: Layout, i: nat)
    requires |m| == |m'| && g.Separated(|m|)
  {
    forall i', j, k :: g.InRange(i', j, k) && i' != i ==> m'[g.Addr(i', j, k)] == m[g.Addr(i', j, k)]
  }

  /** The pointer that regroup stores over ptr in the last page of a group. */
  function Folded(ptr: int, page: int, pagesize: int, first: int): int {
    if page <= ptr < page + pagesize then first + (ptr - page) else ptr
  }

  /** What regroup does to one word: point one page on, or fold back to the first page of the group. */
  function Rewritten(m: seq<int>, g: Layout, s: Shape, i: nat, fold: bool, target: nat, j: int, k: int): int
    requires g.Separated(|m|) && g.InRange(i, j, k) && target < |g.pages|
  {
    if fold then Folded(m[g.Addr(i, j, k)], g.pages[i], s.pagesize, g.pages[target]) else g.Addr(target, j, k)
  }

  /** The words of page i below offset o are rewritten, everything else is as it was. */
  ghost predicate Scanned(m: seq<int>, m': seq<int>, g: Layout, s: Shape, i: nat, fold: bool, target: nat, o: nat)
    requires |m| == |m'| && g.Separated(|m|) && target < |g.pages|
  {
    && OnlyPage(m, m', g, i)
    && forall j, k :: g.InRange(i, j, k) ==>
                        m'[g.Addr(i, j, k)] == if Off(g, j, k) < o then Rewritten(m, g, s, i, fold, target, j, k) else m[g.Addr(i, j, k)]
  }

  lemma ScanStep(m: seq<int>, before: seq<int>, after: seq<int>, g: Layout, s: Shape, i: nat, fold: bool, target: nat,
                 o: nat, j: nat, k: nat)
    requires |m| == |before| && g.Separated(|m|) && g == TableLayout(g.pages, s) && s.Valid() && target < |g.pages|
    requires Scanned(m, before, g, s, i, fold, target, o) && g.InRange(i, j, k) && Off(g, j, k) == o && Multiple(o, s.word)
    requires after == before[g.Addr(i, j, k) := Rewritten(m, g, s, i, fold, target, j, k)]
    ensures Scanned(m, after, g, s, i, fold, target, o + s.word)
  {
    hide Mul, Multiple, BitOrder, Rewritten;
    forall j', k' | g.InRange(i, j', k')
      ensures after[g.Addr(i, j', k')] ==
              if Off(g, j', k') < o + s.word then Rewritten(m, g, s, i, fold, target, j', k') else m[g.Addr(i, j', k')]
    {
      OffRange(g, s, j', k');
      if Off(g, j', k') > o {
        MultipleGap(o, Off(g, j', k'), s.word);
      }
      if Off(g, j', k') == o {
        assert g.Addr(i, j', k') == g.Addr(i, j, k);
      }
    }
  }

  /** One pass over the words of page i, in address order. */
  method RewritePage(mem: array<int>, g: Layout, s: Shape, i: nat, fold: bool, target: nat)
    requires s.Valid() && g == TableLayout(g.pages, s) && g.Separated(mem.Length)
    requires i < |g.pages| && target < |g.pages|
    modifies mem
    ensures OnlyPage(old(mem[..]), mem[..], g, i)
    ensures forall j, k :: g.InRange(i, j, k) ==> mem[g.Addr(i, j, k)] == Rewritten(old(mem[..]), g, s, i, fold, target, j, k)
  {
    hide Mul, Multiple, BitOrder, Rev, Layout.Unique, Rewritten, Scanned;
    ghost var m := mem[..];
    var o := 0;
    ZeroMultiple(s.word);
    ScanStart(m, g, s, i, fold, target);
    PageIsWords(s);
    while o < s.pagesize
      invariant Multiple(o, s.word) && 0 <= o <= s.pagesize
      invariant Scanned(m, mem[..], g, s, i, fold, target, o)
    {
      ghost var j, k := OffsetWord(g, s, o);
      ghost var before := mem[..];
      assert g.InRange(i, j, k) && g.pages[i] + o == g.Addr(i, j, k);
      assert g.pages[target] + o == g.Addr(target, j, k);
      ScanHere(m, before, g, s, i, fold, target, o, j, k);
      if fold {
        var ptr := mem[g.pages[i] + o];
        if g.pages[i] <= ptr && ptr < g.pages[i] + s.pagesize {
          mem[g.pages[i] + o] := g.pages[target] + (ptr - g.pages[i]);
        }
      } else {
        mem[g.pages[i] + o] := g.pages[target] + o;
      }
      ScanStep(m, before, mem[..], g, s, i, fold, target, o, j, k);
      NextWordOffset(o, s);
      o := o + s.word;
    }
    ScanEnd(m, mem[..], g, s, i, fold, target);
  }

  lemma ScanStart(m: seq<int>, g: Layout, s: Shape, i: nat, fold: bool, target: nat)
    requires g.Separated(|m|) && g == TableLayout(g.pages, s) && s.Valid() && target < |g.pages|
    ensures Scanned(m, m, g, s, i, fold, target, 0)
  {
    hide Mul, Multiple, BitOrder;
    forall j, k | g.InRange(i, j, k) ensures 0 <= Off(g, j, k) {
      OffRange(g, s, j, k);
      NonNegative(Off(g, j, k), s.word);
    }
  }

  lemma ScanEnd(m: seq<int>, m': seq<int>, g: Layout, s: Shape, i: nat, fold: bool, target: nat)
    requires |m| == |m'| && g.Separated(|m|) && g == TableLayout(g.pages, s) && s.Valid() && target < |g.pages|
    requires Scanned(m, m', g, s, i, fold, target, s.pagesize)
    ensures forall j, k :: g.InRange(i, j, k) ==> m'[g.Addr(i, j, k)] == Rewritten(m, g, s, i, fold, target, j, k)
    ensures OnlyPage(m, m', g, i)
  {
    hide Mul, Multiple, BitOrder, Rewritten;
    forall j, k | g.InRange(i, j, k) ensures Off(g, j, k) < s.pagesize {
      OffRange(g, s, j, k);
    }
  }

  /** The word at offset o still holds its old value, and what it is to become depends on that alone. */
  lemma ScanHere(m: seq<int>, m': seq<int>, g: Layout, s: Shape, i: nat, fold: bool, target: nat, o: nat, j: nat, k: nat)
    requires |m| == |m'| && g.Separated(|m|) && g.InRange(i, j, k) && target < |g.pages|
    requires Scanned(m, m', g, s, i, fold, target, o) && Off(g, j, k) == o
    ensures var ptr := m'[g.Addr(i, j, k)];
            Rewritten(m, g, s, i, fold, target, j, k) ==
            if !fold then g.Addr(target, j, k)
            else if g.pages[i] <= ptr < g.pages[i] + s.pagesize then g.pages[target] + (ptr - g.pages[i]) else ptr
  {
  }

  lemma NextWordOffset(o: nat, s: Shape)
    requires s.Valid() && Multiple(o, s.word) && o < s.pagesize
    ensures Multiple(o + s.word, s.word) && o + s.word <= s.pagesize
  {
    hide Mul, Multiple;
    PageIsWords(s);
    MulMultiple(1, s.word);
    MulSmall(s.word);
    MultipleSum(o, s.word, s.word);
    MultipleGap(o, s.pagesize, s.word);
  }

  /** regroup(pages + lo, hi - lo): two passes over the pages lo..hi. */
  method Regroup(mem: array<int>, g: Layout, ghost last: nat, s: Shape, lo: nat, hi: nat)
    requires s.Valid() && g == TableLayout(g.pages, s) && g.Separated(mem.Length) && g.NonEmpty()
    requires lo < hi <= |g.pages| && 1 <= last <= |g.lines|
    requires PageLinks(mem[..], g, hi - 1, LinesOn(g, last, hi - 1)) && LeadsOut(mem[..], g, last, hi - 1)
    requires forall i :: 0 <= i < |g.pages| ==> Multiple(g.pages[i], s.pagesize)
    modifies mem
    ensures GroupLinks(mem[..], g, last, lo, hi)
    ensures forall i, j, k :: g.InRange(i, j, k) && !(lo <= i < hi) ==> mem[g.Addr(i, j, k)] == old(mem[g.Addr(i, j, k)])
  {
    hide Mul, Multiple, BitOrder, Layout.Unique, PageLinks, LeadsOut;
    ghost var m := mem[..];
    if hi - lo <= 1 {
      AloneIsGroup(m, g, last, lo);
      return;
    }
    var i := lo;
    while i < hi - 1
      invariant lo <= i <= hi - 1
      invariant forall i', j, k :: g.InRange(i', j, k) && lo <= i' < i ==> mem[g.Addr(i', j, k)] == g.Addr(i' + 1, j, k)
      invariant forall i', j, k :: g.InRange(i', j, k) && !(lo <= i' < i) ==> mem[g.Addr(i', j, k)] == m[g.Addr(i', j, k)]
    {
      RewritePage(mem, g, s, i, false, i + 1);
      i := i + 1;
    }
    ghost var m1 := mem[..];
    RewritePage(mem, g, s, hi - 1, true, lo);
    FoldLinks(m, m1, mem[..], g, last, s, lo, hi);
  }

  /** The last line of page i that is linked leads to the next page, or, from the last page, to the next word of the first. */
  function Exit(g: Layout, i: nat, k: nat): int
    requires g.NonEmpty() && i < |g.pages| && k < |g.words|
  {
    if i + 1 < |g.pages| then g.Addr(i + 1, 0, k) else g.Addr(0, 0, NextWord(g, k))
  }

  ghost predicate LeadsOut(m: seq<int>, g: Layout, last: nat, i: nat)
    requires g.Separated(|m|) && g.NonEmpty() && i < |g.pages| && 1 <= last <= |g.lines|
  {
    var j := LinesOn(g, last, i) - 1;
    forall k :: 0 <= k < |g.words| ==> m[g.Addr(i, j, k)] == Exit(g, i, k)
  }

  /** The chain inside one group: line by line over the pages lo..hi, then on to the next group. */
  ghost predicate GroupLinks(m: seq<int>, g: Layout, last: nat, lo: nat, hi: nat)
    requires g.Separated(|m|) && g.NonEmpty() && lo < hi <= |g.pages| && 1 <= last <= |g.lines|
  {
    && (forall i, j, k :: g.InRange(i, j, k) && lo <= i < hi - 1 ==> m[g.Addr(i, j, k)] == g.Addr(i + 1, j, k))
    && (var i := hi - 1;
        forall j, k :: 0 <= j < LinesOn(g, last, i) - 1 && 0 <= k < |g.words| ==> m[g.Addr(i, j, k)] == g.Addr(lo, j + 1, k))
    && LeadsOut(m, g, last, hi - 1)
  }

  lemma AloneIsGroup(m: seq<int>, g: Layout, last: nat, lo: nat)
    requires g.Separated(|m|) && g.NonEmpty() && lo < |g.pages| && 1 <= last <= |g.lines|
    requires PageLinks(m, g, lo, LinesOn(g, last, lo)) && LeadsOut(m, g, last, lo)
    ensures GroupLinks(m, g, last, lo, lo + 1)
  {
  }

  lemma InsidePage(g: Layout, s: Shape, i: nat, i2: nat, j: nat, k: nat)
    requires s.Valid() && g == TableLayout(g.pages, s) && i < |g.pages| && g.InRange(i2, j, k)
    requires forall t :: 0 <= t < |g.pages| ==> Multiple(g.pages[t], s.pagesize)
    ensures g.pages[i] <= g.Addr(i2, j, k) < g.pages[i] + s.pagesize <==> g.pages[i] == g.pages[i2]
  {
    hide Mul, Multiple, BitOrder;
    OffRange(g, s, j, k);
    NonNegative(Off(g, j, k), s.word);
    if g.pages[i] < g.pages[i2] {
      MultipleGap(g.pages[i], g.pages[i2], s.pagesize);
    } else if g.pages[i2] < g.pages[i] {
      MultipleGap(g.pages[i2], g.pages[i], s.pagesize);
    }
  }

  lemma PagesDiffer(g: Layout, size: nat, i: nat, i2: nat)
    requires g.Separated(size) && g.NonEmpty() && i < |g.pages| && i2 < |g.pages| && g.pages[i] == g.pages[i2]
    ensures i == i2
  {
    assert g.Addr(i, 0, 0) == g.Addr(i2, 0, 0);
  }

  lemma FoldLinks(m: seq<int>, m1: seq<int>, m2: seq<int>, g: Layout, last: nat, s: Shape, lo: nat, hi: nat)
    requires |m| == |m1| == |m2| && g.Separated(|m|) && g.NonEmpty() && lo + 1 < hi <= |g.pages| && 1 <= last <= |g.lines|
    requires s.Valid() && g == TableLayout(g.pages, s)
    requires forall t :: 0 <= t < |g.pages| ==> Multiple(g.pages[t], s.pagesize)
    requires PageLinks(m, g, hi - 1, LinesOn(g, last, hi - 1)) && LeadsOut(m, g, last, hi - 1)
    requires forall i, j, k :: g.InRange(i, j, k) && lo <= i < hi - 1 ==> m1[g.Addr(i, j, k)] == g.Addr(i + 1, j, k)
    requires forall i, j, k :: g.InRange(i, j, k) && !(lo <= i < hi - 1) ==> m1[g.Addr(i, j, k)] == m[g.Addr(i, j, k)]
    requires OnlyPage(m1, m2, g, hi - 1)
    requires var i: nat := hi - 1; forall j, k :: g.InRange(i, j, k) ==> m2[g.Addr(i, j, k)] == Rewritten(m1, g, s, i, true, lo, j, k)
    ensures GroupLinks(m2, g, last, lo, hi)
  {
    hide Mul, Multiple, BitOrder, Layout.Unique;
    var i := hi - 1;
    forall j, k | 0 <= j < LinesOn(g, last, i) - 1 && 0 <= k < |g.words|
      ensures m2[g.Addr(i, j, k)] == g.Addr(lo, j + 1, k)
    {
      assert g.InRange(i, j, k);
      assert m1[g.Addr(i, j, k)] == g.Addr(i, j + 1, k);
      InsidePage(g, s, i, i, j + 1, k);
    }
    var j := LinesOn(g, last, i) - 1;
    forall k | 0 <= k < |g.words|
      ensures m2[g.Addr(i, j, k)] == Exit(g, i, k)
    {
      assert g.InRange(i, j, k);
      assert m1[g.Addr(i, j, k)] == Exit(g, i, k);
      var next, k' := if i + 1 < |g.pages| then i + 1 else 0, if i + 1 < |g.pages| then k else NextWord(g, k);
      InsidePage(g, s, i, next, 0, k');
      if g.pages[i] == g.pages[next] {
        PagesDiffer(g, |m|, i, next);
      }
    }
  }

  // ---------- the path of the regrouped chain ----------

  function GroupEnd(g: Layout, group: nat, lo: nat): nat {
    if lo + group <= |g.pages| then lo + group else |g.pages|
  }

  /** Word k of line j of the pages lo..hi. */
  function Column(g: Layout, lo: nat, hi: nat, k: nat, j: nat): seq<int>
    requires lo <= hi <= |g.pages| && k < |g.words| && j < |g.lines|
  {
    seq(hi - lo, t requires 0 <= t < hi - lo => g.Addr(lo + t, j, k))
  }

  function Columns(g: Layout, lo: nat, hi: nat, k: nat): nat -> seq<int>
    requires lo <= hi <= |g.pages| && k < |g.words|
  {
    (j: nat) => if j < |g.lines| then Column(g, lo, hi, k, j) else []
  }

  /** The pages lo..hi line by line, as many lines as the last of them has linked. */
  function GroupRun(g: Layout, last: nat, lo: nat, hi: nat, k: nat): seq<int>
    requires lo < hi <= |g.pages| && k < |g.words|
  {
    Concat(LinesOn(g, last, hi - 1), Columns(g, lo, hi, k))
  }

  /** The groups from page lo on, in lane k. */
  function GroupsFrom(g: Layout, last: nat, group: nat, k: nat, lo: nat): seq<int>
    requires group >= 1 && k < |g.words|
    decreases |g.pages| - lo
  {
    if lo >= |g.pages| then []
    else GroupRun(g, last, lo, GroupEnd(g, group, lo), k) + GroupsFrom(g, last, group, k, lo + group)
  }

  function GroupLanes(g: Layout, last: nat, group: nat): nat -> seq<int>
    requires group >= 1
  {
    (k: nat) => if k < |g.words| then GroupsFrom(g, last, group, k, 0) else []
  }

  function GroupPath(g: Layout, last: nat, group: nat): seq<int>
    requires group >= 1
  {
    Concat(|g.words|, GroupLanes(g, last, group))
  }

  /** All groups have been rewritten. */
  ghost predicate AllGroups(m: seq<int>, g: Layout, last: nat, group: nat)
    requires g.Separated(|m|) && g.NonEmpty() && group >= 1 && 1 <= last <= |g.lines|
  {
    forall lo: nat :: lo < |g.pages| && Multiple(lo, group) ==> GroupLinks(m, g, last, lo, GroupEnd(g, group, lo))
  }

  lemma ColumnSegment(m: seq<int>, g: Layout, last: nat, lo: nat, hi: nat, k: nat, j: nat)
    requires g.Separated(|m|) && g.NonEmpty() && lo < hi <= |g.pages| && k < |g.words| && j < LinesOn(g, last, hi - 1) && 1 <= last <= |g.lines|
    requires GroupLinks(m, g, last, lo, hi)
    ensures var c := Column(g, lo, hi, k, j);
            c != [] && Segment(m, c) && c[0] == g.Addr(lo, j, k) && Last(c) == g.Addr(hi - 1, j, k)
  {
    var c := Column(g, lo, hi, k, j);
    forall t | 0 <= t < |c| - 1
      ensures m[c[t]] == c[t + 1]
    {
      var i := lo + t;
      assert g.InRange(i, j, k) && c[t] == g.Addr(i, j, k);
    }
  }

  lemma ColumnsMeet(m: seq<int>, g: Layout, last: nat, lo: nat, hi: nat, k: nat, j: nat)
    requires g.Separated(|m|) && g.NonEmpty() && lo < hi <= |g.pages| && k < |g.words| && j + 1 < LinesOn(g, last, hi - 1) && 1 <= last <= |g.lines|
    requires GroupLinks(m, g, last, lo, hi)
    ensures Meets(m, Column(g, lo, hi, k, j), Column(g, lo, hi, k, j + 1))
  {
    ColumnSegment(m, g, last, lo, hi, k, j);
  }

  lemma GroupRunSegment(m: seq<int>, g: Layout, last: nat, lo: nat, hi: nat, k: nat)
    requires g.Separated(|m|) && g.NonEmpty() && lo < hi <= |g.pages| && k < |g.words| && 1 <= last <= |g.lines|
    requires GroupLinks(m, g, last, lo, hi)
    ensures var r := GroupRun(g, last, lo, hi, k);
            r != [] && Segment(m, r) && r[0] == g.Addr(lo, 0, k) && m[Last(r)] == Exit(g, hi - 1, k)
  {
    var f, n := Columns(g, lo, hi, k), LinesOn(g, last, hi - 1);
    forall j: nat | j < n
      ensures f(j) != [] && Segment(m, f(j)) && f(j)[0] == g.Addr(lo, j, k) && Last(f(j)) == g.Addr(hi - 1, j, k)
    {
      ColumnSegment(m, g, last, lo, hi, k, j);
    }
    forall j: nat | j < n - 1 ensures Meets(m, f(j), f(j + 1)) {
      ColumnsMeet(m, g, last, lo, hi, k, j);
    }
    ConcatSegment(m, n, f);
  }

  lemma {:induction false} GroupsSegment(m: seq<int>, g: Layout, last: nat, group: nat, k: nat, lo: nat)
    requires g.Separated(|m|) && g.NonEmpty() && group >= 1 && 1 <= last <= |g.lines| && AllGroups(m, g, last, group)
    requires k < |g.words| && lo < |g.pages| && Multiple(lo, group)
    ensures var r := GroupsFrom(g, last, group, k, lo);
            r != [] && Segment(m, r) && r[0] == g.Addr(lo, 0, k) && m[Last(r)] == g.Addr(0, 0, NextWord(g, k))
    decreases |g.pages| - lo
  {
    hide Multiple, GroupLinks, GroupRun;
    var hi := GroupEnd(g, group, lo);
    GroupRunSegment(m, g, last, lo, hi, k);
    if hi < |g.pages| {
      NextGroup(lo, group);
      GroupsSegment(m, g, last, group, k, hi);
      JoinSegments(m, GroupRun(g, last, lo, hi, k), GroupsFrom(g, last, group, k, hi));
    } else {
      assert GroupsFrom(g, last, group, k, lo + group) == [];
      assert GroupsFrom(g, last, group, k, lo) == GroupRun(g, last, lo, hi, k);
    }
  }

  lemma NextGroup(lo: nat, group: nat)
    requires group >= 1 && Multiple(lo, group)
    ensures Multiple(lo + group, group)
  {
    MulMultiple(1, group);
    MulSmall(group);
    MultipleSum(lo, group, group);
  }

  lemma InColumn(g: Layout, lo: nat, hi: nat, k: nat, j: nat, x: int)
    requires lo <= hi <= |g.pages| && k < |g.words| && j < |g.lines|
    ensures x in Column(g, lo, hi, k, j) <==> exists i :: lo <= i < hi && x == g.Addr(i, j, k)
  {
    var c := Column(g, lo, hi, k, j);
    if x in c {
      var t :| 0 <= t < |c| && c[t] == x;
      var i := lo + t;
      assert x == g.Addr(i, j, k);
    }
    if i :| lo <= i < hi && x == g.Addr(i, j, k) {
      assert c[i - lo] == x;
    }
  }

  lemma InGroupRun(g: Layout, last: nat, lo: nat, hi: nat, k: nat, x: int)
    requires lo < hi <= |g.pages| && k < |g.words| && last <= |g.lines|
    ensures x in GroupRun(g, last, lo, hi, k) <==> exists i, j :: lo <= i < hi && 0 <= j < LinesOn(g, last, hi - 1) && x == g.Addr(i, j, k)
  {
    hide Column;
    var f, n := Columns(g, lo, hi, k), LinesOn(g, last, hi - 1);
    ConcatMember(n, f, x);
    if x in GroupRun(g, last, lo, hi, k) {
      var j: nat :| j < n && x in f(j);
      InColumn(g, lo, hi, k, j, x);
    }
    if i, j :| lo <= i < hi && 0 <= j < n && x == g.Addr(i, j, k) {
      InColumn(g, lo, hi, k, j, x);
      assert x in f(j);
    }
  }

  /** First page of the last group. */
  function LastGroup(n: nat, group: nat): nat
    requires n >= 1 && group >= 1
  {
    Mul((n - 1) / group, group)
  }

  lemma LastGroupStarts(n: nat, group: nat, lo: nat)
    requires n >= 1 && group >= 1 && Multiple(lo, group) && lo < n
    ensures Multiple(LastGroup(n, group), group) && lo <= LastGroup(n, group) < n <= LastGroup(n, group) + group
    ensures lo + group >= n <==> lo == LastGroup(n, group)
  {
    hide Mul, Multiple;
    DivParts(n - 1, group);
    var first := LastGroup(n, group);
    MulMultiple((n - 1) / group, group);
    if lo < first {
      MultipleGap(lo, first, group);
    } else if lo > first {
      MultipleGap(first, lo, group);
    }
  }

  /** Lines of page i on the regrouped chain: in the last group no more than the last page has linked. */
  function GroupLines(g: Layout, last: nat, group: nat, i: int): (n: nat)
    requires |g.pages| >= 1 && group >= 1
    ensures last <= |g.lines| ==> last <= n <= |g.lines|
  {
    if i < LastGroup(|g.pages|, group) then |g.lines| else last
  }

  lemma GroupLinesHere(g: Layout, last: nat, group: nat, lo: nat, i: nat)
    requires |g.pages| >= 1 && group >= 1 && Multiple(lo, group) && lo <= i < GroupEnd(g, group, lo) && lo < |g.pages|
    ensures GroupLines(g, last, group, i) == LinesOn(g, last, GroupEnd(g, group, lo) - 1)
  {
    hide LastGroup, Multiple;
    LastGroupStarts(|g.pages|, group, lo);
    var first := LastGroup(|g.pages|, group);
    if lo < first {
      MultipleGap(lo, first, group);
    }
  }

  lemma {:induction false} InGroups(g: Layout, last: nat, group: nat, k: nat, lo: nat, x: int)
    requires |g.pages| >= 1 && group >= 1 && k < |g.words| && last <= |g.lines| && Multiple(lo, group)
    ensures x in GroupsFrom(g, last, group, k, lo) <==>
            exists i, j :: lo <= i < |g.pages| && 0 <= j < GroupLines(g, last, group, i) && x == g.Addr(i, j, k)
    decreases |g.pages| - lo
  {
    hide GroupRun, GroupLines, Multiple;
    if lo < |g.pages| {
      var hi := GroupEnd(g, group, lo);
      NextGroup(lo, group);
      InGroupRun(g, last, lo, hi, k, x);
      InGroups(g, last, group, k, lo + group, x);
      forall i: nat | lo <= i < hi ensures GroupLines(g, last, group, i) == LinesOn(g, last, hi - 1) {
        GroupLinesHere(g, last, group, lo, i);
      }
      if i, j :| lo <= i < |g.pages| && 0 <= j < GroupLines(g, last, group, i) && x == g.Addr(i, j, k) {
        assert i < hi || lo + group <= i;
      }
    }
  }

  lemma ColumnsDistinct(g: Layout, last: nat, size: nat, lo: nat, hi: nat, k: nat)
    requires g.Separated(size) && lo < hi <= |g.pages| && k < |g.words| && last <= |g.lines|
    ensures Distinct(GroupRun(g, last, lo, hi, k))
  {
    ConcatDistinct(LinesOn(g, last, hi - 1), Columns(g, lo, hi, k));
  }

  lemma {:induction false} GroupsDistinct(g: Layout, last: nat, size: nat, group: nat, k: nat, lo: nat)
    requires g.Separated(size) && |g.pages| >= 1 && group >= 1 && k < |g.words| && last <= |g.lines| && Multiple(lo, group)
    ensures Distinct(GroupsFrom(g, last, group, k, lo))
    decreases |g.pages| - lo
  {
    hide GroupRun, GroupLines, Multiple;
    if lo < |g.pages| {
      var hi := GroupEnd(g, group, lo);
      NextGroup(lo, group);
      ColumnsDistinct(g, last, size, lo, hi, k);
      GroupsDistinct(g, last, size, group, k, lo + group);
      forall x | x in GroupRun(g, last, lo, hi, k) ensures x !in GroupsFrom(g, last, group, k, lo + group) {
        InGroupRun(g, last, lo, hi, k, x);
        InGroups(g, last, group, k, lo + group, x);
      }
      JoinDistinct(GroupRun(g, last, lo, hi, k), GroupsFrom(g, last, group, k, lo + group));
    }
  }

  lemma GroupPathDistinct(g: Layout, last: nat, size: nat, group: nat)
    requires g.Separated(size) && |g.pages| >= 1 && group >= 1 && last <= |g.lines|
    ensures Distinct(GroupPath(g, last, group))
  {
    hide GroupsFrom, GroupLines, Multiple;
    var f := GroupLanes(g, last, group);
    ZeroMultiple(group);
    forall k: nat | k < |g.words| ensures Distinct(f(k)) {
      GroupsDistinct(g, last, size, group, k, 0);
    }
    forall k: nat, l: nat, x | k < l < |g.words| && x in f(k)
      ensures x !in f(l)
    {
      InGroups(g, last, group, k, 0, x);
      InGroups(g, last, group, l, 0, x);
    }
    ConcatDistinct(|g.words|, f);
  }

  /** The cells on the regrouped chain. */
  ghost function GroupCells(g: Layout, last: nat, group: nat): set<int>
    requires |g.pages| >= 1 && group >= 1 && last <= |g.lines|
  {
    set i, j, k | 0 <= i < |g.pages| && 0 <= j < GroupLines(g, last, group, i) && 0 <= k < |g.words| :: g.Addr(i, j, k)
  }

  lemma GroupPathCells(g: Layout, last: nat, group: nat)
    requires |g.pages| >= 1 && group >= 1 && last <= |g.lines|
    ensures Elements(GroupPath(g, last, group)) == GroupCells(g, last, group)
  {
    hide GroupsFrom, GroupLines, Multiple;
    var f := GroupLanes(g, last, group);
    ZeroMultiple(group);
    forall x
      ensures x in GroupPath(g, last, group) <==> x in GroupCells(g, last, group)
    {
      ConcatMember(|g.words|, f, x);
      if x in GroupPath(g, last, group) {
        var k: nat :| k < |g.words| && x in f(k);
        InGroups(g, last, group, k, 0, x);
      }
      if x in GroupCells(g, last, group) {
        var i, j, k :| 0 <= i < |g.pages| && 0 <= j < GroupLines(g, last, group, i) && 0 <= k < |g.words| && x == g.Addr(i, j, k);
        InGroups(g, last, group, k, 0, x);
        assert x in f(k);
      }
    }
  }

  /** Words of one lane of the groups from lo on. */
  lemma {:induction false} GroupsLength(g: Layout, last: nat, group: nat, k: nat, lo: nat)
    requires |g.pages| >= 1 && group >= 1 && k < |g.words| && last <= |g.lines| && Multiple(lo, group) && lo < |g.pages|
    ensures var first := LastGroup(|g.pages|, group);
            && lo <= first < |g.pages|
            && |GroupsFrom(g, last, group, k, lo)| == Mul(first - lo, |g.lines|) + Mul(|g.pages| - first, last)
    decreases |g.pages| - lo
  {
    hide Mul, LastGroup, GroupRun, Multiple;
    var first, hi := LastGroup(|g.pages|, group), GroupEnd(g, group, lo);
    LastGroupStarts(|g.pages|, group, lo);
    RunLength(g, last, lo, hi, k);
    if hi < |g.pages| {
      NextGroup(lo, group);
      LastGroupStarts(|g.pages|, group, hi);
      GroupsLength(g, last, group, k, hi);
      MulPlus(first - hi, hi - lo, |g.lines|);
    } else {
      MulSmall(|g.lines|);
      assert GroupsFrom(g, last, group, k, lo + group) == [];
    }
  }

  lemma RunLength(g: Layout, last: nat, lo: nat, hi: nat, k: nat)
    requires lo < hi <= |g.pages| && k < |g.words| && last <= |g.lines|
    ensures |GroupRun(g, last, lo, hi, k)| == Mul(hi - lo, LinesOn(g, last, hi - 1))
  {
    ConcatLength(LinesOn(g, last, hi - 1), Columns(g, lo, hi, k), hi - lo);
  }

  /** Words of the regrouped chain. */
  lemma GroupPathLength(g: Layout, last: nat, group: nat)
    requires |g.pages| >= 1 && group >= 1 && last <= |g.lines|
    ensures var first := LastGroup(|g.pages|, group);
            && first < |g.pages|
            && |GroupPath(g, last, group)| == Mul(|g.words|, Mul(first, |g.lines|) + Mul(|g.pages| - first, last))
  {
    hide LastGroup, GroupsFrom, Multiple;
    var first := LastGroup(|g.pages|, group);
    ZeroMultiple(group);
    LastGroupStarts(|g.pages|, group, 0);
    var n := Mul(first, |g.lines|) + Mul(|g.pages| - first, last);
    forall k: nat | k < |g.words| ensures |GroupLanes(g, last, group)(k)| == n {
      GroupsLength(g, last, group, k, 0);
    }
    ConcatLength(|g.words|, GroupLanes(g, last, group), n);
  }

  /** Regrouping keeps all words on the chain exactly when the last page is fully linked or alone in its group. */
  lemma GroupCellsExactly(g: Layout, size: nat, last: nat, group: nat)
    requires g.Separated(size) && g.NonEmpty() && group >= 1 && 1 <= last <= |g.lines|
    ensures GroupCells(g, last, group) == Cells(g, last) <==> last == |g.lines| || Multiple(|g.pages| - 1, group)
  {
    hide Multiple, LastGroup;
    var n := |g.pages|;
    ZeroMultiple(group);
    LastGroupStarts(n, group, 0);
    if Multiple(n - 1, group) {
      LastGroupStarts(n, group, n - 1);
    }
    var first := LastGroup(n, group);
    if last == |g.lines| || Multiple(n - 1, group) {
      assert forall i :: 0 <= i < n ==> GroupLines(g, last, group, i) == LinesOn(g, last, i);
    } else {
      assert first < n - 1;
      assert g.InRange(first, last, 0);
      assert g.Addr(first, last, 0) in Cells(g, last);
      assert g.Addr(first, last, 0) !in GroupCells(g, last, group);
    }
  }

  /** Lane k is a path that starts at the first line and leads to the next lane. */
  ghost predicate LaneDone(m: seq<int>, g: Layout, last: nat, group: nat, k: nat)
    requires g.NonEmpty() && group >= 1 && k < |g.words|
  {
    var r := GroupsFrom(g, last, group, k, 0);
    r != [] && Segment(m, r) && r[0] == g.Addr(0, 0, k) && 0 <= Last(r) < |m| && m[Last(r)] == g.Addr(0, 0, NextWord(g, k))
  }

  lemma LaneIsDone(m: seq<int>, g: Layout, last: nat, group: nat, k: nat)
    requires g.Separated(|m|) && g.NonEmpty() && group >= 1 && 1 <= last <= |g.lines| && AllGroups(m, g, last, group) && k < |g.words|
    ensures LaneDone(m, g, last, group, k) && GroupLanes(g, last, group)(k) == GroupsFrom(g, last, group, k, 0)
  {
    hide AllGroups, GroupsFrom, Multiple;
    ZeroMultiple(group);
    GroupsSegment(m, g, last, group, k, 0);
  }

  lemma LaneMeets(m: seq<int>, g: Layout, last: nat, group: nat, k: nat)
    requires g.NonEmpty() && group >= 1 && k + 1 < |g.words| && LaneDone(m, g, last, group, k) && LaneDone(m, g, last, group, k + 1)
    ensures Meets(m, GroupsFrom(g, last, group, k, 0), GroupsFrom(g, last, group, k + 1, 0))
  {
    hide GroupsFrom;
  }

  /** The lanes one after the other are a closed path. */
  lemma LanesClose(m: seq<int>, g: Layout, last: nat, group: nat)
    requires g.Separated(|m|) && g.NonEmpty() && group >= 1 && 1 <= last <= |g.lines| && AllGroups(m, g, last, group)
    ensures var p := GroupPath(g, last, group); p != [] && Segment(m, p) && p[0] == g.Addr(0, 0, 0) && m[Last(p)] == p[0]
  {
    hide AllGroups, GroupsFrom, Layout.Separated, GroupLanes;
    var f, n := GroupLanes(g, last, group), |g.words|;
    forall k: nat | k < n ensures f(k) != [] && Segment(m, f(k)) {
      LaneIsDone(m, g, last, group, k);
    }
    forall k: nat | k < n - 1 ensures Meets(m, f(k), f(k + 1)) {
      LaneIsDone(m, g, last, group, k);
      LaneIsDone(m, g, last, group, k + 1);
      LaneMeets(m, g, last, group, k);
    }
    ConcatSegment(m, n, f);
    LaneIsDone(m, g, last, group, 0);
    LaneIsDone(m, g, last, group, n - 1);
  }

  /** Group by group, the chain is one cycle, of the length that groups and linked lines give. */
  lemma GroupsCycle(m: seq<int>, g: Layout, last: nat, group: nat)
    requires g.Separated(|m|) && g.NonEmpty() && group >= 1 && 1 <= last <= |g.lines| && AllGroups(m, g, last, group)
    ensures SingleCycle(m, g.Addr(0, 0, 0), GroupCells(g, last, group))
    ensures var first := LastGroup(|g.pages|, group);
            && first < |g.pages|
            && |GroupCells(g, last, group)| == Mul(|g.words|, Mul(first, |g.lines|) + Mul(|g.pages| - first, last))
  {
    hide AllGroups, GroupCells, GroupPath, Segment, SingleCycle, Distinct, Elements, LastGroup, Mul;
    LanesClose(m, g, last, group);
    GroupPathDistinct(g, last, |m|, group);
    GroupPathCells(g, last, group);
    GroupPathLength(g, last, group);
    CycleFromPath(m, GroupPath(g, last, group));
  }

  // ---------- the order of the chase ----------

  /** Words in a lane. */
  ghost predicate LaneSize(g: Layout, last: nat, group: nat, lane: nat) {
    && |g.pages| >= 1 && group >= 1 && LastGroup(|g.pages|, group) < |g.pages|
    && lane == Mul(LastGroup(|g.pages|, group), |g.lines|) + Mul(|g.pages| - LastGroup(|g.pages|, group), last)
  }

  /** Where the chase is after how many steps: lane by lane, group by group, line by line through the pages of a group. */
  function GroupStep(g: Layout, group: nat, lane: nat, lo: nat, i: nat, j: nat, k: nat): nat
    requires lo <= i && lo <= GroupEnd(g, group, lo)
  {
    Mul(k, lane) + Mul(lo, |g.lines|) + Mul(j, GroupEnd(g, group, lo) - lo) + (i - lo)
  }

  lemma NextLineStep(g: Layout, group: nat, lane: nat, lo: nat, j: nat, k: nat)
    requires lo < GroupEnd(g, group, lo) && j > 0
    ensures GroupStep(g, group, lane, lo, lo, j, k) == GroupStep(g, group, lane, lo, GroupEnd(g, group, lo) - 1, j - 1, k) + 1
  {
    hide Mul;
    MulPlus(j - 1, 1, GroupEnd(g, group, lo) - lo);
    MulSmall(GroupEnd(g, group, lo) - lo);
  }

  lemma NextGroupStep(g: Layout, group: nat, lane: nat, lo: nat, k: nat)
    requires group >= 1 && lo + group < |g.pages| && g.lines != []
    ensures GroupStep(g, group, lane, lo + group, lo + group, 0, k) == GroupStep(g, group, lane, lo, lo + group - 1, |g.lines| - 1, k) + 1
  {
    hide Mul;
    MulPlus(lo, group, |g.lines|);
    MulPlus(|g.lines| - 1, 1, group);
    MulCommutes(|g.lines|, group);
    MulSmall(group);
    MulSmall(GroupEnd(g, group, lo + group) - (lo + group));
  }

  lemma NextLaneStep(g: Layout, last: nat, group: nat, lane: nat, k: nat)
    requires LaneSize(g, last, group, lane) && last >= 1
    ensures var first := LastGroup(|g.pages|, group);
            && |g.pages| <= first + group ==>
              GroupStep(g, group, lane, 0, 0, 0, k + 1) == GroupStep(g, group, lane, first, |g.pages| - 1, last - 1, k) + 1
  {
    hide Mul, LastGroup;
    var first := LastGroup(|g.pages|, group);
    MulPlus(k, 1, lane);
    MulSmall(lane);
    MulPlus(last - 1, 1, |g.pages| - first);
    MulCommutes(last, |g.pages| - first);
    MulSmall(|g.pages| - first);
    MulSmall(|g.lines|);
    MulSmall(GroupEnd(g, group, 0) - 0);
  }

  /** The order of the chase. */
  lemma {:induction false} GroupsRun(m: seq<int>, g: Layout, last: nat, group: nat, lane: nat, lo: nat, i: nat, j: nat, k: nat)
    requires g.Separated(|m|) && g.NonEmpty() && group >= 1 && 1 <= last <= |g.lines| && AllGroups(m, g, last, group)
    requires LaneSize(g, last, group, lane) && Multiple(lo, group) && lo <= i < GroupEnd(g, group, lo) && k < |g.words|
    requires j < LinesOn(g, last, GroupEnd(g, group, lo) - 1)
    ensures Chase(m, g.Addr(0, 0, 0), GroupStep(g, group, lane, lo, i, j, k)) == g.Addr(i, j, k)
    decreases k, lo, j, i
  {
    hide Mul, Multiple, LastGroup, Layout.Unique, AllGroups, GroupLinks;
    var hi := GroupEnd(g, group, lo);
    GroupOf(m, g, last, group, lo);
    if i > lo {
      GroupsRun(m, g, last, group, lane, lo, i - 1, j, k);
      InGroupLinks(m, g, last, lo, hi, i - 1, j, k);
      OneStep(m, g, GroupStep(g, group, lane, lo, i - 1, j, k), i - 1, j, k, g.Addr(i, j, k));
    } else if j > 0 {
      GroupsRun(m, g, last, group, lane, lo, hi - 1, j - 1, k);
      NextLineStep(g, group, lane, lo, j, k);
      InGroupLinks(m, g, last, lo, hi, hi - 1, j - 1, k);
      OneStep(m, g, GroupStep(g, group, lane, lo, hi - 1, j - 1, k), hi - 1, j - 1, k, g.Addr(lo, j, k));
    } else if lo > 0 {
      PreviousGroup(lo, group);
      GroupOf(m, g, last, group, lo - group);
      GroupsRun(m, g, last, group, lane, lo - group, lo - 1, |g.lines| - 1, k);
      NextGroupStep(g, group, lane, lo - group, k);
      InGroupLinks(m, g, last, lo - group, lo, lo - 1, |g.lines| - 1, k);
      OneStep(m, g, GroupStep(g, group, lane, lo - group, lo - 1, |g.lines| - 1, k), lo - 1, |g.lines| - 1, k, g.Addr(lo, 0, k));
    } else if k > 0 {
      var first, n := LastGroup(|g.pages|, group), |g.pages| - 1;
      LastGroupStarts(|g.pages|, group, 0);
      GroupOf(m, g, last, group, first);
      GroupsRun(m, g, last, group, lane, first, n, last - 1, k - 1);
      NextLaneStep(g, last, group, lane, k - 1);
      InGroupLinks(m, g, last, first, n + 1, n, last - 1, k - 1);
      OneStep(m, g, GroupStep(g, group, lane, first, n, last - 1, k - 1), n, last - 1, k - 1, g.Addr(0, 0, k));
    } else {
      MulSmall(lane);
      MulSmall(|g.lines|);
      MulSmall(hi);
    }
  }

  /** Where the word k of line j of page i of a group leads. */
  lemma InGroupLinks(m: seq<int>, g: Layout, last: nat, lo: nat, hi: nat, i: nat, j: nat, k: nat)
    requires g.Separated(|m|) && g.NonEmpty() && lo <= i < hi <= |g.pages| && 1 <= last <= |g.lines| && GroupLinks(m, g, last, lo, hi)
    requires j < |g.lines| && k < |g.words| && j < LinesOn(g, last, hi - 1)
    ensures g.InRange(i, j, k)
    ensures m[g.Addr(i, j, k)] == if i + 1 < hi then g.Addr(i + 1, j, k)
                                  else if j + 1 < LinesOn(g, last, hi - 1) then g.Addr(lo, j + 1, k)
                                  else Exit(g, i, k)
  {
    hide Layout.Unique;
    assert g.InRange(i, j, k);
  }

  lemma GroupOf(m: seq<int>, g: Layout, last: nat, group: nat, lo: nat)
    requires g.Separated(|m|) && g.NonEmpty() && group >= 1 && 1 <= last <= |g.lines| && AllGroups(m, g, last, group)
    requires lo < |g.pages| && Multiple(lo, group)
    ensures GroupLinks(m, g, last, lo, GroupEnd(g, group, lo))
  {
  }

  lemma PreviousGroup(lo: nat, group: nat)
    requires group >= 1 && lo > 0 && Multiple(lo, group)
    ensures lo >= group && Multiple(lo - group, group)
  {
    hide Mul, Multiple;
    ZeroMultiple(group);
    MultipleGap(0, lo, group);
    MulMultiple(1, group);
    MulSmall(group);
    MultipleDifference(lo, group, group);
  }

  // ---------- dram_page_initialize ----------

  lemma LaneExits(m: seq<int>, g: Layout, last: nat, i: nat)
    requires g.Separated(|m|) && g.NonEmpty() && i < |g.pages| && 1 <= last <= |g.lines| && LaneLinks(m, g, last)
    ensures PageLinks(m, g, i, LinesOn(g, last, i)) && LeadsOut(m, g, last, i)
  {
    assert PageLinks(m, g, i, LinesOn(g, last, i));
    if i + 1 < |g.pages| {
      assert StepLinks(m, g, i);
    } else {
      assert WrapLinks(m, g, last);
    }
  }

  lemma SamePage(m: seq<int>, m': seq<int>, g: Layout, last: nat, i: nat)
    requires |m| == |m'| && g.Separated(|m|) && g.NonEmpty() && i < |g.pages| && 1 <= last <= |g.lines|
    requires forall j, k :: g.InRange(i, j, k) ==> m'[g.Addr(i, j, k)] == m[g.Addr(i, j, k)]
    ensures PageLinks(m, g, i, LinesOn(g, last, i)) ==> PageLinks(m', g, i, LinesOn(g, last, i))
    ensures LeadsOut(m, g, last, i) ==> LeadsOut(m', g, last, i)
  {
    if PageLinks(m, g, i, LinesOn(g, last, i)) {
      forall j, k | 0 <= j < LinesOn(g, last, i) - 1 && 0 <= k < |g.words|
        ensures m'[g.Addr(i, j, k)] == g.Addr(i, j + 1, k)
      {
        assert g.InRange(i, j, k);
      }
    }
    var j := LinesOn(g, last, i) - 1;
    assert forall k :: 0 <= k < |g.words| ==> g.InRange(i, j, k);
  }

  lemma SameGroup(m: seq<int>, m': seq<int>, g: Layout, last: nat, lo: nat, hi: nat)
    requires |m| == |m'| && g.Separated(|m|) && g.NonEmpty() && lo < hi <= |g.pages| && 1 <= last <= |g.lines| && GroupLinks(m, g, last, lo, hi)
    requires forall i, j, k :: g.InRange(i, j, k) && lo <= i < hi ==> m'[g.Addr(i, j, k)] == m[g.Addr(i, j, k)]
    ensures GroupLinks(m', g, last, lo, hi)
  {
    SamePage(m, m', g, last, hi - 1);
    var i := hi - 1;
    assert forall j, k :: 0 <= j < LinesOn(g, last, i) - 1 && 0 <= k < |g.words| ==> g.InRange(i, j, k);
  }

  /** The loop over the groups of pages. */
  method RegroupAll(mem: array<int>, g: Layout, ghost last: nat, s: Shape, group: nat)
    requires s.Valid() && g == TableLayout(g.pages, s) && g.Separated(mem.Length) && g.NonEmpty() && group >= 1
    requires forall i :: 0 <= i < |g.pages| ==> Multiple(g.pages[i], s.pagesize)
    requires 1 <= last <= |g.lines| && LaneLinks(mem[..], g, last)
    modifies mem
    ensures AllGroups(mem[..], g, last, group)
  {
    hide Mul, Multiple, BitOrder, Layout.Unique, PageLinks, LeadsOut, GroupLinks, LaneLinks;
    forall i: nat | i < |g.pages| ensures PageLinks(mem[..], g, i, LinesOn(g, last, i)) && LeadsOut(mem[..], g, last, i) {
      LaneExits(mem[..], g, last, i);
    }
    ZeroMultiple(group);
    var i := 0;
    while i < |g.pages|
      invariant Multiple(i, group)
      invariant forall i': nat :: i <= i' < |g.pages| ==> PageLinks(mem[..], g, i', LinesOn(g, last, i')) && LeadsOut(mem[..], g, last, i')
      invariant forall lo: nat :: lo < i && lo < |g.pages| && Multiple(lo, group) ==> GroupLinks(mem[..], g, last, lo, GroupEnd(g, group, lo))
    {
      var groupsize := if group > |g.pages| - i then |g.pages| - i else group;
      ghost var m := mem[..];
      Regroup(mem, g, last, s, i, i + groupsize);
      forall i': nat | i + group <= i' < |g.pages| ensures PageLinks(mem[..], g, i', LinesOn(g, last, i')) && LeadsOut(mem[..], g, last, i') {
        SamePage(m, mem[..], g, last, i');
      }
      forall lo: nat | lo < i + group && lo < |g.pages| && Multiple(lo, group)
        ensures GroupLinks(mem[..], g, last, lo, GroupEnd(g, group, lo))
      {
        if lo < i {
          MultipleGap(lo, i, group);
          SameGroup(m, mem[..], g, last, lo, GroupEnd(g, group, lo));
        } else if lo > i {
          MultipleGap(i, lo, group);
        }
      }
      NextGroup(i, group);
      i := i + group;
    }
  }

  /**
   dram_page_initialize: for every length and group size one cycle from the first page on, entered at its
   first word.  It visits all words that mem_initialize has linked exactly when the last page is fully
   linked, as it is for whole pages, or alone in its group: then every word of the pages, or all but the
   last lines of the last one.
   */
  method DramPageInitialize(state: MemState, group: nat)
    requires state.Sized() && state.WidthFits() && group >= 1
    modifies state, state.p
    ensures state.Ready() && state.npages >= 1 && fresh(state.mem)
    ensures state.G() == TableLayout(state.pages[..state.npages], state.S())
    ensures state.G().NonEmpty() && state.G().Separated(state.mem.Length) && 1 <= state.Last() <= state.nlines
    ensures SingleCycle(state.mem[..], state.pages[0], GroupCells(state.G(), state.Last(), group))
    ensures var first := LastGroup(state.npages, group);
            && first < state.npages
            && |GroupCells(state.G(), state.Last(), group)| ==
               Mul(state.nwords, Mul(first, state.nlines) + Mul(state.npages - first, state.Last()))
    ensures GroupCells(state.G(), state.Last(), group) == Cells(state.G(), state.Last()) <==>
            FullyLinked(state.len, state.line, state.pagesize) || Multiple(state.npages - 1, group)
    ensures FullyLinked(state.len, state.line, state.pagesize) ==>
              forall x :: x in GroupCells(state.G(), state.Last(), group) <==> WordOfPages(x, state.G().pages, state.S())
    ensures state.Links() > 0 ==> state.p[0] == state.pages[0]
    ensures AllGroups(state.mem[..], state.G(), state.Last(), group)
  {
    hide Mul, Multiple, BitOrder, LaneLinks, Cells, GroupCells, SingleCycle, AllGroups, LastLines, LastGroup, FullyLinked, Starts;
    MemInitialize(state);
    var g, s := state.G(), state.S();
    ghost var last := state.Last();
    PageIsFull(state);
    PrefixPaged(state.pages, state.npages, state.pagesize, state.mem.Length);
    RegroupAll(state.mem, g, last, s, group);
    Regrouped(state.mem[..], g, s, last, group);
  }

  lemma PageIsFull(state: MemState)
    requires state.ChainReady()
    ensures FullyLinked(state.len, state.line, state.pagesize) <==> state.Last() == state.nlines
    ensures 1 <= state.Last() <= state.nlines == |state.G().lines|
  {
    hide Mul, Multiple, BitOrder, LaneLinks, Cells, SingleCycle, LastLines;
    ShapeCounts(state.S());
    QuotientPositive(state.pagesize, state.line);
  }

  lemma Regrouped(m: seq<int>, g: Layout, s: Shape, last: nat, group: nat)
    requires s.Valid() && g == TableLayout(g.pages, s) && g.Separated(|m|) && g.NonEmpty() && group >= 1 && 1 <= last <= s.nlines == |g.lines|
    requires AllGroups(m, g, last, group) && forall i :: 0 <= i < |g.pages| ==> Multiple(g.pages[i], s.pagesize)
    ensures SingleCycle(m, g.pages[0], GroupCells(g, last, group))
    ensures var first := LastGroup(|g.pages|, group);
            && first < |g.pages|
            && |GroupCells(g, last, group)| == Mul(s.nwords, Mul(first, s.nlines) + Mul(|g.pages| - first, last))
    ensures GroupCells(g, last, group) == Cells(g, last) <==> last == s.nlines || Multiple(|g.pages| - 1, group)
    ensures last == s.nlines ==> forall x :: x in GroupCells(g, last, group) <==> WordOfPages(x, g.pages, s)
  {
    hide Mul, Multiple, BitOrder, Cells, GroupCells, SingleCycle, AllGroups, LastGroup;
    ShapeCounts(s);
    GroupsCycle(m, g, last, group);
    GroupCellsExactly(g, |m|, last, group);
    FirstWord(s);
    assert g.Addr(0, 0, 0) == g.pages[0];
    forall x ensures x in Cells(g, s.nlines) <==> WordOfPages(x, g.pages, s) {
      CellsAreAllWords(g.pages, s, x);
    }
  }
}
