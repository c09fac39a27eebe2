/** test_chunk and collect_sample of cache.c as functions of their measurements, and what these can do to the page list. */
module CacheTest {
  import opened PointerChain
  import opened Tables
  import opened PageLists
  import opened CacheFixup

  /** A sample of npages pages out of ntotal, and how many entries of the list bcopy saves. */
  datatype Ground = Ground(npages: nat, ntotal: nat, copied: nat, times: nat -> real) {
    predicate Valid(pages: seq<int>) {
      1 <= npages <= ntotal <= |pages| && copied <= ntotal
    }

    function Job(i: nat, chunk: nat): Call {
      Call(npages, ntotal, copied, i, chunk, times)
    }
  }

  /** What the calls work on; faulted when a remainder by zero has been taken. */
  datatype Status = Status(pages: seq<int>, baseline: real, avail: nat, clock: nat, faulted: bool)

  /** fixup_chunk, with whether it kept a substitution. */
  function Fix(g: Ground, s: Status, i: nat, chunk: nat, limit: real): (r: (Status, bool))
    requires g.Valid(s.pages) && 1 <= chunk <= MOST && i + chunk <= g.npages
    ensures |r.0.pages| == |s.pages|
  {
    if g.ntotal == g.npages + 1 then (s.(faulted := true), false)
    else
      var r := Fixed(g.Job(i, chunk), s.pages, s.baseline, limit, s.avail, s.clock);
      (Status(r.pages, r.baseline, r.avail, r.clock, s.faulted), r.swapped > 0)
  }

  /** Low enough to look into the range, against the baseline and the last range that could not be improved. */
  predicate Low(t: real, baseline: real, nodiff: real) {
    t < 0.99 * baseline && t < 0.999 * nodiff
  }

  function Max(a: real, b: real): real {
    if b > a then b else a
  }

  /** Small enough for fixup_chunk. */
  predicate Small(g: Ground, chunk: nat) {
    chunk <= MOST && chunk < g.npages
  }

  /** test_chunk, with whether it changed the list for good. */
  function Tested(g: Ground, s: Status, i: nat, chunk: nat, limit: real): (r: (Status, bool))
    requires g.Valid(s.pages) && g.npages > 1 && 1 <= chunk && i + chunk <= g.npages
    ensures |r.0.pages| == |s.pages|
    decreases chunk, 1, 0
  {
    if Small(g, chunk) then Fix(g, s, i, chunk, limit)
    else Subranges(g, s, i, chunk, i, (chunk + 19) / 20, s.baseline, false)
  }

  /** Its loop from j on. */
  function Subranges(g: Ground, s: Status, i: nat, chunk: nat, j: nat, sub0: nat, nodiff: real, modified: bool): (r: (Status, bool))
    requires g.Valid(s.pages) && g.npages > 1 && i + chunk <= g.npages && i <= j <= i + chunk && 1 <= sub0 < chunk
    ensures |r.0.pages| == |s.pages|
    decreases chunk, 0, i + chunk - j
  {
    if j == i + chunk then (s, modified)
    else
      var sub := if j + sub0 > i + chunk then i + chunk - j else sub0;
      var r := Range(g, s, j, sub, nodiff, modified);
      Subranges(g, r.0, i, chunk, j + sub, sub, r.1, r.2)
  }

  /** One range: looked into when two measurements without it are low; with the new last latency that could not be improved. */
  function Range(g: Ground, s: Status, j: nat, sub: nat, nodiff: real, modified: bool): (r: (Status, real, bool))
    requires g.Valid(s.pages) && g.npages > 1 && 1 <= sub && j + sub <= g.npages
    ensures |r.0.pages| == |s.pages|
    decreases sub, 2, 0
  {
    var t, tt := g.times(s.clock), Max(g.times(s.clock), g.times(s.clock + 1));
    if !Low(t, s.baseline, nodiff) then (s.(clock := s.clock + 1), nodiff, modified)
    else if !Low(tt, s.baseline, nodiff) then (s.(clock := s.clock + 2), nodiff, modified)
    else
      var r := Tested(g, s.(clock := s.clock + 2), j, sub, tt);
      (r.0, if r.1 then nodiff else tt, modified || r.1)
  }

  /** The rounds of collect_sample, at most eight, for as long as they change something. */
  function Rounds(g: Ground, s: Status, i: nat, modified: bool): (r: Status)
    requires g.Valid(s.pages) && g.npages > 1
    ensures |r.pages| == |s.pages|
    decreases 8 - i
  {
    if i < 8 && modified then
      var r := Tested(g, s, 0, g.npages, 0.0);
      Rounds(g, r.0, i + 1, r.1)
    else s
  }

  /** collect_sample: what it leaves; the latency it records is the baseline. */
  function Sampled(g: Ground, pages: seq<int>, avail: nat, clock: nat, faulted: bool): (r: Status)
    requires g.Valid(pages)
    ensures |r.pages| == |pages|
  {
    var s := Status(pages, g.times(clock), avail, clock + 1, faulted);
    if g.npages > 1 then Rounds(g, s, 0, true) else s
  }

  // ---------- the loops ----------

  lemma SubrangesStep(g: Ground, s: Status, i: nat, chunk: nat, j: nat, sub0: nat, nodiff: real, modified: bool)
    requires g.Valid(s.pages) && g.npages > 1 && i + chunk <= g.npages && i <= j <= i + chunk && 1 <= sub0 < chunk
    ensures j == i + chunk ==> Subranges(g, s, i, chunk, j, sub0, nodiff, modified) == (s, modified)
    ensures j < i + chunk ==>
              var sub := if j + sub0 > i + chunk then i + chunk - j else sub0;
              var r := Range(g, s, j, sub, nodiff, modified);
              Subranges(g, s, i, chunk, j, sub0, nodiff, modified) == Subranges(g, r.0, i, chunk, j + sub, sub, r.1, r.2)
  {
    hide Range;
  }

  lemma RoundsStep(g: Ground, s: Status, i: nat, modified: bool)
    requires g.Valid(s.pages) && g.npages > 1
    ensures i < 8 && modified ==>
              var r := Tested(g, s, 0, g.npages, 0.0);
              Rounds(g, s, i, modified) == Rounds(g, r.0, i + 1, r.1)
    ensures i >= 8 || !modified ==> Rounds(g, s, i, modified) == s
  {
    hide Tested;
  }

  // ---------- when no page is lost ----------

  lemma FixKeepsPages(g: Ground, s: Status, i: nat, chunk: nat, limit: real)
    requires g.Valid(s.pages) && 1 <= chunk <= MOST && i + chunk <= g.npages && SafeFrom(g.copied, g.ntotal, i)
    ensures Reordered(Fix(g, s, i, chunk, limit).0.pages, s.pages)
  {
    hide Fixed, Reordered, SafeFrom;
    Same(s.pages);
    if g.ntotal != g.npages + 1 {
      SafeKeepsPages(g.Job(i, chunk), s.pages, s.baseline, limit, s.avail, s.clock);
    }
  }

  lemma {:induction false} TestKeepsPages(g: Ground, s: Status, i: nat, chunk: nat, limit: real)
    requires g.Valid(s.pages) && g.npages > 1 && 1 <= chunk && i + chunk <= g.npages && SafeFrom(g.copied, g.ntotal, i)
    ensures Reordered(Tested(g, s, i, chunk, limit).0.pages, s.pages)
    decreases chunk, 1, 0
  {
    hide Fix, Reordered, Subranges, SafeFrom;
    if Small(g, chunk) {
      FixKeepsPages(g, s, i, chunk, limit);
    } else {
      SubrangesKeepPages(g, s, i, chunk, i, (chunk + 19) / 20, s.baseline, false);
    }
  }

  lemma {:induction false} SubrangesKeepPages(g: Ground, s: Status, i: nat, chunk: nat, j: nat, sub0: nat, nodiff: real, modified: bool)
    requires g.Valid(s.pages) && g.npages > 1 && i + chunk <= g.npages && i <= j <= i + chunk && 1 <= sub0 < chunk
    requires SafeFrom(g.copied, g.ntotal, i)
    ensures Reordered(Subranges(g, s, i, chunk, j, sub0, nodiff, modified).0.pages, s.pages)
    decreases chunk, 0, i + chunk - j
  {
    hide Range, Reordered;
    if j == i + chunk {
      Same(s.pages);
    } else {
      var sub := if j + sub0 > i + chunk then i + chunk - j else sub0;
      var r := Range(g, s, j, sub, nodiff, modified);
      RangeKeepsPages(g, s, j, sub, nodiff, modified);
      SubrangesKeepPages(g, r.0, i, chunk, j + sub, sub, r.1, r.2);
      ReorderTrans(Subranges(g, s, i, chunk, j, sub0, nodiff, modified).0.pages, r.0.pages, s.pages);
    }
  }

  lemma {:induction false} RangeKeepsPages(g: Ground, s: Status, j: nat, sub: nat, nodiff: real, modified: bool)
    requires g.Valid(s.pages) && g.npages > 1 && 1 <= sub && j + sub <= g.npages && SafeFrom(g.copied, g.ntotal, j)
    ensures Reordered(Range(g, s, j, sub, nodiff, modified).0.pages, s.pages)
    decreases sub, 2, 0
  {
    hide Tested, Reordered, SafeFrom;
    Same(s.pages);
    TestKeepsPages(g, s.(clock := s.clock + 2), j, sub, Max(g.times(s.clock), g.times(s.clock + 1)));
  }

  lemma {:induction false} RoundsKeepPages(g: Ground, s: Status, i: nat, modified: bool)
    requires g.Valid(s.pages) && g.npages > 1 && SafeFrom(g.copied, g.ntotal, 0)
    ensures Reordered(Rounds(g, s, i, modified).pages, s.pages)
    decreases 8 - i
  {
    hide Tested, Reordered;
    Same(s.pages);
    if i < 8 && modified {
      var r := Tested(g, s, 0, g.npages, 0.0);
      TestKeepsPages(g, s, 0, g.npages, 0.0);
      RoundsKeepPages(g, r.0, i + 1, r.1);
      ReorderTrans(Rounds(g, s, i, modified).pages, r.0.pages, s.pages);
    }
  }

  lemma SampleKeepsPages(g: Ground, pages: seq<int>, avail: nat, clock: nat, faulted: bool)
    requires g.Valid(pages) && SafeFrom(g.copied, g.ntotal, 0)
    ensures Reordered(Sampled(g, pages, avail, clock, faulted).pages, pages)
  {
    hide Reordered, SafeFrom, Rounds;
    Same(pages);
    if g.npages > 1 {
      RoundsKeepPages(g, Status(pages, g.times(clock), avail, clock + 1, faulted), 0, true);
    }
  }

  /** A sample takes a remainder by zero only with one spare page, and from a list saved whole or not at all it loses no page. */
  lemma SampleIsSafe(g: Ground, pages: seq<int>, avail: nat, clock: nat, faulted: bool)
    requires g.Valid(pages)
    ensures var end := Sampled(g, pages, avail, clock, faulted);
            && (end.faulted ==> faulted || (g.npages > 1 && g.ntotal == g.npages + 1))
            && (SafeFrom(g.copied, g.ntotal, 0) ==> Reordered(end.pages, pages))
  {
    hide Reordered, SafeFrom, Rounds;
    if SafeFrom(g.copied, g.ntotal, 0) {
      SampleKeepsPages(g, pages, avail, clock, faulted);
    }
    if g.npages > 1 && g.ntotal != g.npages + 1 {
      RoundsNoFault(g, Status(pages, g.times(clock), avail, clock + 1, faulted), 0, true);
    }
  }

  // ---------- measurements that lead to the first chunk ----------

  /** Levels of test_chunk above the first chunk that is small enough, and that chunk. */
  function Depth(g: Ground, chunk: nat): nat
    requires g.npages > 1 && chunk >= 1
  {
    if Small(g, chunk) then 0 else 1 + Depth(g, (chunk + 19) / 20)
  }

  function FirstSmall(g: Ground, chunk: nat): (c: nat)
    requires g.npages > 1 && chunk >= 1
    ensures 1 <= c <= chunk && Small(g, c)
  {
    if Small(g, chunk) then chunk else FirstSmall(g, (chunk + 19) / 20)
  }

  /** When every further measurement is as slow as the baseline, nothing more is looked into. */
  lemma {:induction false} RestSkipped(g: Ground, s: Status, i: nat, chunk: nat, j: nat, sub0: nat, nodiff: real, modified: bool) returns (end: nat)
    requires g.Valid(s.pages) && g.npages > 1 && i + chunk <= g.npages && i <= j <= i + chunk && 1 <= sub0 < chunk
    requires s.baseline == 2.0 && forall x :: x >= s.clock ==> g.times(x) == 2.0
    ensures Subranges(g, s, i, chunk, j, sub0, nodiff, modified) == (s.(clock := end), modified) && end >= s.clock
    decreases i + chunk - j
  {
    if j == i + chunk {
      end := s.clock;
    } else {
      var sub := if j + sub0 > i + chunk then i + chunk - j else sub0;
      end := RestSkipped(g, s.(clock := s.clock + 1), i, chunk, j + sub, sub, nodiff, modified);
    }
  }

  /** Two low measurements at a level lead on to its first range. */
  lemma FirstRangeTested(g: Ground, s: Status, chunk: nat, limit: real)
    requires g.Valid(s.pages) && g.npages > 1 && 1 <= chunk <= g.npages && !Small(g, chunk)
    requires s.baseline == 2.0 && g.times(s.clock) == 1.0 && g.times(s.clock + 1) == 1.0
    ensures var sub := (chunk + 19) / 20;
            && 1 <= sub < chunk
            && var r := Tested(g, s.(clock := s.clock + 2), 0, sub, 1.0);
            Tested(g, s, 0, chunk, limit) == Subranges(g, r.0, 0, chunk, sub, sub, if r.1 then 2.0 else 1.0, r.1)
  {
    hide Tested, Subranges, Range;
    var sub := (chunk + 19) / 20;
    TestedLarge(g, s, 0, chunk, limit);
    SubrangesStep(g, s, 0, chunk, 0, sub, 2.0, false);
    RangeLow(g, s, 0, sub);
  }

  lemma RangeLow(g: Ground, s: Status, j: nat, sub: nat)
    requires g.Valid(s.pages) && g.npages > 1 && 1 <= sub && j + sub <= g.npages
    requires s.baseline == 2.0 && g.times(s.clock) == 1.0 && g.times(s.clock + 1) == 1.0
    ensures var r := Tested(g, s.(clock := s.clock + 2), j, sub, 1.0);
            Range(g, s, j, sub, 2.0, false) == (r.0, if r.1 then 2.0 else 1.0, r.1)
  {
    hide Tested;
  }

  lemma TestedLarge(g: Ground, s: Status, i: nat, chunk: nat, limit: real)
    requires g.Valid(s.pages) && g.npages > 1 && 1 <= chunk && i + chunk <= g.npages && !Small(g, chunk)
    ensures Tested(g, s, i, chunk, limit) == Subranges(g, s, i, chunk, i, (chunk + 19) / 20, s.baseline, false)
  {
    hide Subranges;
  }

  /** From here on: low measurements down to the first small chunk, its script, and slow ones for the rest. */
  ghost predicate Planned(g: Ground, clock: nat, depth: nat, c: nat) {
    && 1 <= c
    && (forall x :: clock <= x < clock + 2 * depth ==> g.times(x) == 1.0)
    && Scripted(g.Job(0, c), clock + 2 * depth, c - 1)
    && forall x :: x > clock + 2 * depth + c ==> g.times(x) == 2.0
  }

  lemma PlanNext(g: Ground, clock: nat, depth: nat, c: nat)
    requires depth >= 1 && Planned(g, clock, depth, c)
    ensures g.times(clock) == 1.0 && g.times(clock + 1) == 1.0 && Planned(g, clock + 2, depth - 1, c)
  {
    hide Scripted;
    assert clock + 2 * depth == (clock + 2) + 2 * (depth - 1);
  }

  /** Such measurements make test_chunk lose a page, report nothing and leave the baseline. */
  lemma {:induction false} TestLoses(g: Ground, s: Status, chunk: nat, limit: real) returns (x: int, end: Status)
    requires g.Valid(s.pages) && g.npages > 1 && 1 <= chunk <= g.npages && g.ntotal != g.npages + 1
    requires s.baseline == 2.0 && s.avail == 0 && Distinct(s.pages) && 0 < g.copied < g.ntotal
    requires Planned(g, s.clock, Depth(g, chunk), FirstSmall(g, chunk)) && (Small(g, chunk) ==> limit == 1.0)
    ensures Tested(g, s, 0, chunk, limit) == (end, false) && x in s.pages && x !in end.pages
    ensures end.baseline == 2.0 && forall y :: y >= end.clock ==> g.times(y) == 2.0
    decreases chunk
  {
    hide Fixed, Distinct;
    if Small(g, chunk) {
      var f := g.Job(0, chunk);
      x := LastRunLoses(f, s.pages, s.clock);
      end := Tested(g, s, 0, chunk, limit).0;
    } else {
      var sub := (chunk + 19) / 20;
      var s2 := s.(clock := s.clock + 2);
      PlanNext(g, s.clock, Depth(g, chunk), FirstSmall(g, chunk));
      hide Planned, Subranges;
      FirstRangeTested(g, s, chunk, limit);
      var mid: Status;
      x, mid := TestLoses(g, s2, sub, 1.0);
      var e := RestSkipped(g, mid, 0, chunk, sub, sub, 1.0, false);
      end := mid.(clock := e);
    }
  }

  lemma SampleLoses(g: Ground, pages: seq<int>, clock: nat, faulted: bool) returns (x: int)
    requires g.Valid(pages) && g.npages > 1 && g.ntotal != g.npages + 1 && Distinct(pages) && 0 < g.copied < g.ntotal
    requires g.times(clock) == 2.0 && Planned(g, clock + 1, Depth(g, g.npages), FirstSmall(g, g.npages))
    ensures x in pages && x !in Sampled(g, pages, 0, clock, faulted).pages
  {
    hide Tested, Planned, Distinct;
    var s := Status(pages, 2.0, 0, clock + 1, faulted);
    var end;
    x, end := TestLoses(g, s, g.npages, 0.0);
    assert Rounds(g, end, 1, false) == end;
  }

  /** Whatever is measured, a sample keeps all pages. */
  ghost predicate SampleNeverLoses(npages: nat, ntotal: nat, copied: nat, pages: seq<int>, clock: nat)
    requires Ground(npages, ntotal, copied, Script(0, 0, 0)).Valid(pages)
  {
    forall times: nat -> real, avail: nat, faulted: bool, x: int :: Positive(times) && x in pages ==>
                                                                      x in Sampled(Ground(npages, ntotal, copied, times), pages, avail, clock, faulted).pages
  }

  lemma PlanScript(npages: nat, ntotal: nat, copied: nat, clock: nat, depth: nat, c: nat)
    requires 1 <= c
    ensures var times := Script(clock, clock + 1 + 2 * depth + (c - 1), clock + 1 + 2 * depth + c);
            && times(clock) == 2.0 && Positive(times)
            && Planned(Ground(npages, ntotal, copied, times), clock + 1, depth, c)
  {
  }

  /** A sample of several pages keeps all pages for all measurements exactly when bcopy saves the whole list or nothing. */
  lemma SampleNeverLosesExactly(npages: nat, ntotal: nat, copied: nat, pages: seq<int>, clock: nat)
    requires Ground(npages, ntotal, copied, Script(0, 0, 0)).Valid(pages) && npages > 1 && ntotal != npages + 1 && Distinct(pages)
    ensures SampleNeverLoses(npages, ntotal, copied, pages, clock) <==> copied >= ntotal || copied == 0
  {
    hide Sampled, Planned, Distinct, Script, Depth, FirstSmall;
    if copied >= ntotal || copied == 0 {
      forall times: nat -> real, avail: nat, faulted: bool, x: int | Positive(times) && x in pages
        ensures x in Sampled(Ground(npages, ntotal, copied, times), pages, avail, clock, faulted).pages
      {
        var g := Ground(npages, ntotal, copied, times);
        SampleKeepsPages(g, pages, avail, clock, faulted);
        StillThere(Sampled(g, pages, avail, clock, faulted).pages, pages, x);
      }
    } else {
      var g0 := Ground(npages, ntotal, copied, Script(0, 0, 0));
      var depth, c := Depth(g0, npages), FirstSmall(g0, npages);
      var times := Script(clock, clock + 1 + 2 * depth + (c - 1), clock + 1 + 2 * depth + c);
      var g := Ground(npages, ntotal, copied, times);
      DepthSame(g0, g, npages);
      PlanScript(npages, ntotal, copied, clock, depth, c);
      var x := SampleLoses(g, pages, clock, false);
    }
  }

  /** Levels do not depend on what is measured. */
  lemma {:induction false} DepthSame(g: Ground, g': Ground, chunk: nat)
    requires g.npages == g'.npages > 1 && chunk >= 1
    ensures Depth(g, chunk) == Depth(g', chunk) && FirstSmall(g, chunk) == FirstSmall(g', chunk)
  {
    if !Small(g, chunk) {
      DepthSame(g, g', (chunk + 19) / 20);
    }
  }

  // ---------- when a remainder by zero is taken ----------

  lemma {:induction false} TestNoFault(g: Ground, s: Status, i: nat, chunk: nat, limit: real)
    requires g.Valid(s.pages) && g.npages > 1 && 1 <= chunk && i + chunk <= g.npages && g.ntotal != g.npages + 1
    ensures Tested(g, s, i, chunk, limit).0.faulted == s.faulted
    decreases chunk, 1, 0
  {
    hide Subranges, Fixed;
    if !Small(g, chunk) {
      SubrangesNoFault(g, s, i, chunk, i, (chunk + 19) / 20, s.baseline, false);
    }
  }

  lemma {:induction false} SubrangesNoFault(g: Ground, s: Status, i: nat, chunk: nat, j: nat, sub0: nat, nodiff: real, modified: bool)
    requires g.Valid(s.pages) && g.npages > 1 && i + chunk <= g.npages && i <= j <= i + chunk && 1 <= sub0 < chunk
    requires g.ntotal != g.npages + 1
    ensures Subranges(g, s, i, chunk, j, sub0, nodiff, modified).0.faulted == s.faulted
    decreases chunk, 0, i + chunk - j
  {
    hide Range;
    if j < i + chunk {
      var sub := if j + sub0 > i + chunk then i + chunk - j else sub0;
      var r := Range(g, s, j, sub, nodiff, modified);
      RangeNoFault(g, s, j, sub, nodiff, modified);
      SubrangesNoFault(g, r.0, i, chunk, j + sub, sub, r.1, r.2);
    }
  }

  lemma {:induction false} RangeNoFault(g: Ground, s: Status, j: nat, sub: nat, nodiff: real, modified: bool)
    requires g.Valid(s.pages) && g.npages > 1 && 1 <= sub && j + sub <= g.npages && g.ntotal != g.npages + 1
    ensures Range(g, s, j, sub, nodiff, modified).0.faulted == s.faulted
    decreases sub, 2, 0
  {
    hide Tested;
    TestNoFault(g, s.(clock := s.clock + 2), j, sub, Max(g.times(s.clock), g.times(s.clock + 1)));
  }

  lemma {:induction false} RoundsNoFault(g: Ground, s: Status, i: nat, modified: bool)
    requires g.Valid(s.pages) && g.npages > 1 && g.ntotal != g.npages + 1
    ensures Rounds(g, s, i, modified).faulted == s.faulted
    decreases 8 - i
  {
    hide Tested;
    if i < 8 && modified {
      var r := Tested(g, s, 0, g.npages, 0.0);
      TestNoFault(g, s, 0, g.npages, 0.0);
      RoundsNoFault(g, r.0, i + 1, r.1);
    }
  }

  lemma {:induction false} TestStaysFaulted(g: Ground, s: Status, i: nat, chunk: nat, limit: real)
    requires g.Valid(s.pages) && g.npages > 1 && 1 <= chunk && i + chunk <= g.npages && s.faulted
    ensures Tested(g, s, i, chunk, limit).0.faulted
    decreases chunk, 1, 0
  {
    hide Subranges, Fixed;
    if !Small(g, chunk) {
      SubrangesStayFaulted(g, s, i, chunk, i, (chunk + 19) / 20, s.baseline, false);
    }
  }

  lemma {:induction false} SubrangesStayFaulted(g: Ground, s: Status, i: nat, chunk: nat, j: nat, sub0: nat, nodiff: real, modified: bool)
    requires g.Valid(s.pages) && g.npages > 1 && i + chunk <= g.npages && i <= j <= i + chunk && 1 <= sub0 < chunk && s.faulted
    ensures Subranges(g, s, i, chunk, j, sub0, nodiff, modified).0.faulted
    decreases chunk, 0, i + chunk - j
  {
    hide Range;
    if j < i + chunk {
      var sub := if j + sub0 > i + chunk then i + chunk - j else sub0;
      var r := Range(g, s, j, sub, nodiff, modified);
      RangeStaysFaulted(g, s, j, sub, nodiff, modified);
      SubrangesStayFaulted(g, r.0, i, chunk, j + sub, sub, r.1, r.2);
    }
  }

  lemma {:induction false} RangeStaysFaulted(g: Ground, s: Status, j: nat, sub: nat, nodiff: real, modified: bool)
    requires g.Valid(s.pages) && g.npages > 1 && 1 <= sub && j + sub <= g.npages && s.faulted
    ensures Range(g, s, j, sub, nodiff, modified).0.faulted
    decreases sub, 2, 0
  {
    hide Tested;
    TestStaysFaulted(g, s.(clock := s.clock + 2), j, sub, Max(g.times(s.clock), g.times(s.clock + 1)));
  }

  lemma {:induction false} RoundsStayFaulted(g: Ground, s: Status, i: nat, modified: bool)
    requires g.Valid(s.pages) && g.npages > 1 && s.faulted
    ensures Rounds(g, s, i, modified).faulted
    decreases 8 - i
  {
    hide Tested;
    if i < 8 && modified {
      var r := Tested(g, s, 0, g.npages, 0.0);
      TestStaysFaulted(g, s, 0, g.npages, 0.0);
      RoundsStayFaulted(g, r.0, i + 1, r.1);
    }
  }

  /** With one spare page, low measurements lead straight to the remainder by zero. */
  lemma {:induction false} TestFaults(g: Ground, s: Status, chunk: nat, limit: real)
    requires g.Valid(s.pages) && g.npages > 1 && 1 <= chunk <= g.npages && g.ntotal == g.npages + 1
    requires s.baseline == 2.0 && forall x :: x >= s.clock ==> g.times(x) == 1.0
    ensures Tested(g, s, 0, chunk, limit).0.faulted
    decreases chunk
  {
    hide Subranges, Fixed;
    if !Small(g, chunk) {
      var sub := (chunk + 19) / 20;
      var s2 := s.(clock := s.clock + 2);
      FirstRangeTested(g, s, chunk, limit);
      TestFaults(g, s2, sub, 1.0);
      var r := Tested(g, s2, 0, sub, 1.0);
      SubrangesStayFaulted(g, r.0, 0, chunk, sub, sub, if r.1 then 2.0 else 1.0, r.1);
    }
  }

  ghost predicate SampleNeverFaults(npages: nat, ntotal: nat, copied: nat, pages: seq<int>, clock: nat)
    requires Ground(npages, ntotal, copied, Script(0, 0, 0)).Valid(pages)
  {
    forall times: nat -> real, avail: nat :: Positive(times) ==>
                                               !Sampled(Ground(npages, ntotal, copied, times), pages, avail, clock, false).faulted
  }

  lemma SampleFaults(g: Ground, pages: seq<int>, avail: nat, clock: nat)
    requires g.Valid(pages) && g.npages > 1 && g.ntotal == g.npages + 1
    requires g.times(clock) == 2.0 && forall x :: x > clock ==> g.times(x) == 1.0
    ensures Sampled(g, pages, avail, clock, false).faulted
  {
    hide Tested;
    var s := Status(pages, 2.0, avail, clock + 1, false);
    TestFaults(g, s, g.npages, 0.0);
    var r := Tested(g, s, 0, g.npages, 0.0);
    RoundsStayFaulted(g, r.0, 1, r.1);
  }

  /** Some measurements make a sample take a remainder by zero exactly when it has several pages and leaves one spare. */
  lemma SampleNeverFaultsExactly(npages: nat, ntotal: nat, copied: nat, pages: seq<int>, clock: nat)
    requires Ground(npages, ntotal, copied, Script(0, 0, 0)).Valid(pages)
    ensures SampleNeverFaults(npages, ntotal, copied, pages, clock) <==> npages <= 1 || ntotal != npages + 1
  {
    hide Rounds;
    if npages <= 1 || ntotal != npages + 1 {
      forall times: nat -> real, avail: nat | Positive(times)
        ensures !Sampled(Ground(npages, ntotal, copied, times), pages, avail, clock, false).faulted
      {
        if npages > 1 {
          RoundsNoFault(Ground(npages, ntotal, copied, times), Status(pages, times(clock), avail, clock + 1, false), 0, true);
        }
      }
    } else {
      var times: nat -> real := x => if x == clock then 2.0 else 1.0;
      hide Sampled;
      assert Positive(times);
      SampleFaults(Ground(npages, ntotal, copied, times), pages, 0, clock);
    }
  }
}
