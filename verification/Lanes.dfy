/**
 The layout shared by the chain builders: memory cut into pages, pages into lines, lines into
 words, each addressed through a table of byte offsets, and the chain that runs through word k of
 every line of every page (lane k) before it moves on to word k+1.
 */
module Lanes {
  import opened Arith
  import opened PointerChain

  /** The offset tables: state->pages, state->lines and state->words. */
  datatype Layout = Layout(pages: seq<int>, lines: seq<int>, words: seq<int>) {
    ghost predicate InRange(i: int, j: int, k: int) {
      0 <= i < |pages| && 0 <= j < |lines| && 0 <= k < |words|
    }

    function Addr(i: int, j: int, k: int): int
      requires InRange(i, j, k)
    {
      pages[i] + lines[j] + words[k]
    }

    ghost predicate NonEmpty() {
      pages != [] && lines != [] && words != []
    }

    /** Every address lies inside memory. */
    ghost predicate Bounded(size: nat) {
      forall i, j, k :: InRange(i, j, k) ==> 0 <= Addr(i, j, k) < size
    }

    /** Different indices, different cells. */
    ghost predicate Unique() {
      forall i, j, k, i', j', k' ::
        InRange(i, j, k) && InRange(i', j', k') && Addr(i, j, k) == Addr(i', j', k') ==>
          i == i' && j == j' && k == k'
    }

    ghost predicate Separated(size: nat) {
      Bounded(size) && Unique()
    }
  }

  /** How many lines of page i are on the chain: all of them, except on the last page. */
  function LinesOn(g: Layout, last: nat, i: int): nat {
    if i == |g.pages| - 1 then last else |g.lines|
  }

  function NextWord(g: Layout, k: nat): nat {
    if k + 1 == |g.words| then 0 else k + 1
  }

  /** Inside page i every word points to the same word of the next line. */
  ghost predicate PageLinks(m: seq<int>, g: Layout, i: nat, lines: nat)
    requires g.Separated(|m|) && i < |g.pages| && lines <= |g.lines|
  {
    forall j, k :: 0 <= j < lines - 1 && 0 <= k < |g.words| ==> m[g.Addr(i, j, k)] == g.Addr(i, j + 1, k)
  }

  /** The last line of page i points to the first line of page i+1. */
  ghost predicate StepLinks(m: seq<int>, g: Layout, i: nat)
    requires g.Separated(|m|) && g.NonEmpty() && i + 1 < |g.pages|
  {
    var j, next := |g.lines| - 1, i + 1;
    forall k :: 0 <= k < |g.words| ==> m[g.Addr(i, j, k)] == g.Addr(next, 0, k)
  }

  /** The last line of the last page points back to the first page, one word further. */
  ghost predicate WrapLinks(m: seq<int>, g: Layout, last: nat)
    requires g.Separated(|m|) && g.NonEmpty() && 1 <= last <= |g.lines|
  {
    var i, j := |g.pages| - 1, last - 1;
    forall k :: 0 <= k < |g.words| ==> m[g.Addr(i, j, k)] == g.Addr(0, 0, NextWord(g, k))
  }

  ghost predicate LaneLinks(m: seq<int>, g: Layout, last: nat)
    requires g.Separated(|m|) && g.NonEmpty() && 1 <= last <= |g.lines|
  {
    && (forall i :: 0 <= i < |g.pages| ==> PageLinks(m, g, i, LinesOn(g, last, i)))
    && (forall i :: 0 <= i < |g.pages| - 1 ==> StepLinks(m, g, i))
    && WrapLinks(m, g, last)
  }

  /** The cells on the chain. */
  ghost function Cells(g: Layout, last: nat): set<int>
    requires last <= |g.lines|
  {
    set i, j, k | 0 <= i < |g.pages| && 0 <= j < LinesOn(g, last, i) && 0 <= k < |g.words| :: g.Addr(i, j, k)
  }

  // ---------- the path of the chain ----------

  /** Word k of the lines of page i. */
  function Run(g: Layout, last: nat, k: nat, i: nat): seq<int>
    requires last <= |g.lines| && k < |g.words| && i < |g.pages|
  {
    seq(LinesOn(g, last, i), j requires 0 <= j < LinesOn(g, last, i) => g.Addr(i, j, k))
  }

  function Runs(g: Layout, last: nat, k: nat): nat -> seq<int>
    requires last <= |g.lines| && k < |g.words|
  {
    (i: nat) => if i < |g.pages| then Run(g, last, k, i) else []
  }

  function Lane(g: Layout, last: nat, k: nat): seq<int>
    requires last <= |g.lines| && k < |g.words|
  {
    Concat(|g.pages|, Runs(g, last, k))
  }

  function AllLanes(g: Layout, last: nat): nat -> seq<int>
    requires last <= |g.lines|
  {
    (k: nat) => if k < |g.words| then Lane(g, last, k) else []
  }

  function Path(g: Layout, last: nat): seq<int>
    requires last <= |g.lines|
  {
    Concat(|g.words|, AllLanes(g, last))
  }

  lemma RunSegment(m: seq<int>, g: Layout, last: nat, k: nat, i: nat)
    requires g.Separated(|m|) && g.NonEmpty() && 1 <= last <= |g.lines| && k < |g.words| && i < |g.pages|
    requires PageLinks(m, g, i, LinesOn(g, last, i))
    ensures var r := Run(g, last, k, i);
            r != [] && Segment(m, r) && Distinct(r) && r[0] == g.Addr(i, 0, k) && Last(r) == g.Addr(i, LinesOn(g, last, i) - 1, k)
  {
  }

  lemma RunsMeet(m: seq<int>, g: Layout, last: nat, k: nat, i: nat)
    requires g.Separated(|m|) && g.NonEmpty() && 1 <= last <= |g.lines| && k < |g.words| && i + 1 < |g.pages|
    requires StepLinks(m, g, i)
    ensures Meets(m, Run(g, last, k, i), Run(g, last, k, i + 1))
  {
  }

  lemma LaneSegment(m: seq<int>, g: Layout, last: nat, k: nat)
    requires g.Separated(|m|) && g.NonEmpty() && 1 <= last <= |g.lines| && k < |g.words|
    requires LaneLinks(m, g, last)
    ensures var l := Lane(g, last, k);
            l != [] && Segment(m, l) && l[0] == g.Addr(0, 0, k) && Last(l) == g.Addr(|g.pages| - 1, last - 1, k)
  {
    var f := Runs(g, last, k);
    forall i: nat | i < |g.pages|
      ensures f(i) != [] && Segment(m, f(i)) && f(i)[0] == g.Addr(i, 0, k)
      ensures Last(f(i)) == g.Addr(i, LinesOn(g, last, i) - 1, k)
    {
      RunSegment(m, g, last, k, i);
    }
    forall i: nat | i < |g.pages| - 1
      ensures Meets(m, f(i), f(i + 1))
    {
      RunsMeet(m, g, last, k, i);
    }
    ConcatSegment(m, |g.pages|, f);
  }

  lemma InRun(g: Layout, last: nat, k: nat, i: nat, x: int)
    requires last <= |g.lines| && k < |g.words| && i < |g.pages|
    ensures x in Run(g, last, k, i) <==> exists j :: 0 <= j < LinesOn(g, last, i) && x == g.Addr(i, j, k)
  {
    var r := Run(g, last, k, i);
    if x in r {
      var j :| 0 <= j < |r| && r[j] == x;
      assert x == g.Addr(i, j, k);
    }
    if j :| 0 <= j < LinesOn(g, last, i) && x == g.Addr(i, j, k) {
      assert r[j] == x;
    }
  }

  lemma InLane(g: Layout, last: nat, k: nat, x: int)
    requires last <= |g.lines| && k < |g.words|
    ensures x in Lane(g, last, k) <==>
            exists i, j :: 0 <= i < |g.pages| && 0 <= j < LinesOn(g, last, i) && x == g.Addr(i, j, k)
  {
    var f := Runs(g, last, k);
    ConcatMember(|g.pages|, f, x);
    if x in Lane(g, last, k) {
      var i: nat :| i < |g.pages| && x in f(i);
      InRun(g, last, k, i, x);
    }
    if i, j :| 0 <= i < |g.pages| && 0 <= j < LinesOn(g, last, i) && x == g.Addr(i, j, k) {
      InRun(g, last, k, i, x);
      assert x in f(i);
    }
  }

  lemma RunDistinct(size: nat, g: Layout, last: nat, k: nat, i: nat)
    requires g.Separated(size) && last <= |g.lines| && k < |g.words| && i < |g.pages|
    ensures Distinct(Run(g, last, k, i))
  {
  }

  lemma LaneDistinct(size: nat, g: Layout, last: nat, k: nat)
    requires g.Separated(size) && last <= |g.lines| && k < |g.words|
    ensures Distinct(Lane(g, last, k))
  {
    var f := Runs(g, last, k);
    forall i: nat | i < |g.pages| ensures Distinct(f(i)) {
      RunDistinct(size, g, last, k, i);
    }
    forall i: nat, j: nat, x | i < j < |g.pages| && x in f(i)
      ensures x !in f(j)
    {
      InRun(g, last, k, i, x);
      InRun(g, last, k, j, x);
    }
    ConcatDistinct(|g.pages|, f);
  }

  lemma LanesDisjoint(size: nat, g: Layout, last: nat, k: nat, l: nat, x: int)
    requires g.Separated(size) && last <= |g.lines| && k < l < |g.words| && x in Lane(g, last, k)
    ensures x !in Lane(g, last, l)
  {
    InLane(g, last, k, x);
    InLane(g, last, l, x);
  }

  lemma PathDistinct(size: nat, g: Layout, last: nat)
    requires g.Separated(size) && last <= |g.lines|
    ensures Distinct(Path(g, last))
  {
    var f := AllLanes(g, last);
    forall k: nat | k < |g.words| ensures Distinct(f(k)) {
      LaneDistinct(size, g, last, k);
    }
    forall k: nat, l: nat, x | k < l < |g.words| && x in f(k)
      ensures x !in f(l)
    {
      LanesDisjoint(size, g, last, k, l, x);
    }
    ConcatDistinct(|g.words|, f);
  }

  lemma PathCells(g: Layout, last: nat)
    requires last <= |g.lines|
    ensures Elements(Path(g, last)) == Cells(g, last)
  {
    var f := AllLanes(g, last);
    forall x
      ensures x in Path(g, last) <==> x in Cells(g, last)
    {
      ConcatMember(|g.words|, f, x);
      if x in Path(g, last) {
        var k: nat :| k < |g.words| && x in f(k);
        InLane(g, last, k, x);
      }
      if x in Cells(g, last) {
        var i, j, k :| 0 <= i < |g.pages| && 0 <= j < LinesOn(g, last, i) && 0 <= k < |g.words| && x == g.Addr(i, j, k);
        InLane(g, last, k, x);
        assert x in f(k);
      }
    }
  }

  /** Words on the chain: whole pages, then the lines of the last page. */
  lemma PathLength(g: Layout, last: nat)
    requires g.NonEmpty() && last <= |g.lines|
    ensures |Path(g, last)| == |g.words| * ((|g.pages| - 1) * |g.lines| + last)
  {
    var n := |g.pages| - 1;
    forall k: nat | k < |g.words|
      ensures |AllLanes(g, last)(k)| == n * |g.lines| + last
    {
      ConcatLength(n, Runs(g, last, k), |g.lines|);
    }
    ConcatLength(|g.words|, AllLanes(g, last), n * |g.lines| + last);
  }

  lemma LaneLeads(m: seq<int>, g: Layout, last: nat, k: nat)
    requires g.Separated(|m|) && g.NonEmpty() && 1 <= last <= |g.lines| && k < |g.words|
    requires LaneLinks(m, g, last)
    ensures var l := Lane(g, last, k);
            l != [] && Segment(m, l) && l[0] == g.Addr(0, 0, k) && m[Last(l)] == g.Addr(0, 0, NextWord(g, k))
  {
    LaneSegment(m, g, last, k);
  }

  lemma PathCloses(m: seq<int>, g: Layout, last: nat)
    requires g.Separated(|m|) && g.NonEmpty() && 1 <= last <= |g.lines|
    requires LaneLinks(m, g, last)
    ensures var p := Path(g, last);
            p != [] && Segment(m, p) && p[0] == g.Addr(0, 0, 0) && m[Last(p)] == p[0]
  {
    hide LaneLinks, Lane;
    var f := AllLanes(g, last);
    forall k: nat | k < |g.words|
      ensures f(k) != [] && Segment(m, f(k)) && f(k)[0] == g.Addr(0, 0, k)
      ensures m[Last(f(k))] == g.Addr(0, 0, NextWord(g, k))
    {
      LaneLeads(m, g, last, k);
    }
    ConcatSegment(m, |g.words|, f);
  }

  /** Lane by lane, the chain is one cycle over every word of every line it is meant to visit. */
  lemma LanesCycle(m: seq<int>, g: Layout, last: nat)
    requires g.Separated(|m|) && g.NonEmpty() && 1 <= last <= |g.lines|
    requires LaneLinks(m, g, last)
    ensures SingleCycle(m, g.Addr(0, 0, 0), Cells(g, last))
    ensures |Cells(g, last)| == |g.words| * ((|g.pages| - 1) * |g.lines| + last)
  {
    hide LaneLinks, Path, Cells;
    PathCloses(m, g, last);
    PathDistinct(|m|, g, last);
    PathCells(g, last);
    CycleFromPath(m, Path(g, last));
    PathLength(g, last);
  }

  /** Where the chase is after how many steps: lane by lane, in a lane page by page, in a page line by line. */
  function StepOf(g: Layout, last: nat, i: nat, j: nat, k: nat): nat
    requires |g.pages| >= 1
  {
    Mul(k, Mul(|g.pages| - 1, |g.lines|) + last) + Mul(i, |g.lines|) + j
  }

  /** The step after the last line of a page or of a lane. */
  lemma StepsOn(g: Layout, last: nat, i: nat, k: nat)
    requires |g.pages| >= 1
    ensures StepOf(g, last, 0, 0, 0) == 0
    ensures StepOf(g, last, i + 1, 0, k) == StepOf(g, last, i, 0, k) + |g.lines|
    ensures StepOf(g, last, 0, 0, k + 1) == StepOf(g, last, |g.pages| - 1, 0, k) + last
  {
    hide Mul;
    var lane := Mul(|g.pages| - 1, |g.lines|) + last;
    MulSmall(lane);
    MulSmall(|g.lines|);
    MulPlus(i, 1, |g.lines|);
    MulPlus(k, 1, lane);
  }

  /** The order of the chase. */
  lemma {:induction false} LanesRun(m: seq<int>, g: Layout, last: nat, i: nat, j: nat, k: nat)
    requires g.Separated(|m|) && g.NonEmpty() && 1 <= last <= |g.lines| && LaneLinks(m, g, last)
    requires i < |g.pages| && j < LinesOn(g, last, i) && k < |g.words|
    ensures Chase(m, g.Addr(0, 0, 0), StepOf(g, last, i, j, k)) == g.Addr(i, j, k)
    decreases k, i, j
  {
    hide Mul, Layout.Unique;
    if j > 0 {
      LanesRun(m, g, last, i, j - 1, k);
      assert StepOf(g, last, i, j, k) == StepOf(g, last, i, j - 1, k) + 1;
      assert PageLinks(m, g, i, LinesOn(g, last, i)) && g.InRange(i, j - 1, k);
      OneStep(m, g, StepOf(g, last, i, j - 1, k), i, j - 1, k, g.Addr(i, j, k));
    } else if i > 0 {
      LanesRun(m, g, last, i - 1, |g.lines| - 1, k);
      StepsOn(g, last, i - 1, k);
      assert StepLinks(m, g, i - 1) && g.InRange(i - 1, |g.lines| - 1, k);
      OneStep(m, g, StepOf(g, last, i - 1, |g.lines| - 1, k), i - 1, |g.lines| - 1, k, g.Addr(i, 0, k));
    } else if k > 0 {
      var n := |g.pages| - 1;
      LanesRun(m, g, last, n, last - 1, k - 1);
      StepsOn(g, last, 0, k - 1);
      assert WrapLinks(m, g, last) && g.InRange(n, last - 1, k - 1);
      OneStep(m, g, StepOf(g, last, n, last - 1, k - 1), n, last - 1, k - 1, g.Addr(0, 0, k));
    } else {
      StepsOn(g, last, 0, 0);
    }
  }

  lemma OneStep(m: seq<int>, g: Layout, t: nat, i: nat, j: nat, k: nat, next: int)
    requires g.Separated(|m|) && g.NonEmpty() && g.InRange(i, j, k) && m[g.Addr(i, j, k)] == next
    requires Chase(m, g.Addr(0, 0, 0), t) == g.Addr(i, j, k)
    ensures Chase(m, g.Addr(0, 0, 0), t + 1) == next
  {
  }
}
