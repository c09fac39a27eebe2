/** search and collect_data of cache.c: recursive refinement of the latency curve over memory sizes. */
module CacheSearch {
  import opened Tables
  import opened LibMem
  import opened CacheMeasure
  import opened CacheChunks
  import opened CacheFixup
  import opened CacheRuns
  import opened CacheVisits
  import opened PageLists
  import T = CacheTest

  /**
   What search promises of neighbouring sampled points: the ratio is that of the latencies now in
   the array, it is at least 0.98, and it is small unless there is nothing left to sample between.
   */
  ghost predicate Neighbours(x: Sample, y: Sample, a: nat, b: nat) {
    && a < b && Sampled(x) && Sampled(y)
    && x.ratio == y.latency / x.latency && x.ratio >= 0.98
    && (b == a + 1 || x.ratio <= 1.35)
    && x.slope == (x.ratio - 1.0) / (b - a) as real
  }

  ghost predicate Refined(p: seq<Sample>, left: nat, right: nat)
    requires left <= right < |p|
  {
    forall a, b :: left <= a < b <= right && Sampled(p[a]) && Sampled(p[b]) && Gap(p, a, b) ==> Neighbours(p[a], p[b], a, b)
  }

  /** Lengths never change; outside the range nothing does. */
  ghost predicate Frame(p: seq<Sample>, p0: seq<Sample>, left: nat, right: nat) {
    && |p| == |p0|
    && (forall x :: 0 <= x < |p| ==> p[x].len == p0[x].len)
    && (forall x :: 0 <= x < |p| && !(left <= x < right) ==> p[x] == p0[x])
  }

  /** A fresh range: its ends are sampled and nothing between them. */
  ghost predicate Fresh(p: seq<Sample>, left: nat, right: nat) {
    left < right < |p| && Sampled(p[left]) && Sampled(p[right]) && Gap(p, left, right)
  }

  /** Neither half looks across the middle: together they cover all neighbours. */
  lemma HalvesRefine(p: seq<Sample>, left: nat, middle: nat, right: nat)
    requires left < middle < right < |p| && Sampled(p[middle])
    requires Refined(p, left, middle) && Refined(p, middle, right)
    ensures Refined(p, left, right)
  {
    hide Neighbours;
    forall a, b | left <= a < b <= right && Sampled(p[a]) && Sampled(p[b]) && Gap(p, a, b)
      ensures Neighbours(p[a], p[b], a, b)
    {
      assert !(a < middle < b);
    }
  }

  lemma RefinedKept(p: seq<Sample>, p': seq<Sample>, left: nat, right: nat)
    requires left <= right < |p| == |p'| && Refined(p, left, right)
    requires forall x :: left <= x <= right ==> p'[x] == p[x]
    ensures Refined(p', left, right)
  {
    hide Neighbours;
    forall a, b | left <= a < b <= right && Sampled(p'[a]) && Sampled(p'[b]) && Gap(p', a, b)
      ensures Neighbours(p'[a], p'[b], a, b)
    {
      assert Gap(p, a, b);
    }
  }

  lemma OneStep(p: seq<Sample>, left: nat, right: nat)
    requires left < right < |p| && Gap(p, left, right) && Neighbours(p[left], p[right], left, right)
    ensures Refined(p, left, right)
  {
    hide Neighbours;
    forall a, b | left <= a < b <= right && Sampled(p[a]) && Sampled(p[b]) && Gap(p, a, b)
      ensures Neighbours(p[a], p[b], a, b)
    {
      assert a == left && b == right;
    }
  }

  /** A size that collect_sample can measure: it fits the pages of maxlen and does not end in less than a line. */
  ghost predicate Searchable(s: Shape, total: nat, len: nat) {
    len > 0 && s.pagesize > 0 && PagesFor(len, s.pagesize) <= total && SampleLength(len, PagesFor(len, s.pagesize), s)
  }

  /** The sizes strictly between left and right, the only ones that search samples, can be measured. */
  ghost predicate Interior(s: Shape, total: nat, p: seq<Sample>, left: nat, right: nat)
    requires right <= |p|
  {
    forall x :: left < x < right ==> Searchable(s, total, p[x].len)
  }

  /** One of those sizes leaves a single page spare. */
  ghost predicate OneSpare(pagesize: nat, total: nat, p: seq<Sample>, left: nat, right: nat)
    requires right <= |p|
  {
    exists x :: left < x < right && LeavesOne(pagesize, total, p[x].len)
  }

  predicate LeavesOne(pagesize: nat, total: nat, len: nat) {
    pagesize > 0 && PagesFor(len, pagesize) > 1 && total == PagesFor(len, pagesize) + 1
  }

  /** The same lengths, in part of the range. */
  lemma InteriorPart(s: Shape, total: nat, p: seq<Sample>, p': seq<Sample>, left: nat, right: nat, lo: nat, hi: nat)
    requires left <= lo && hi <= right < |p| && Frame(p', p, left, right) && Interior(s, total, p, left, right)
    ensures Interior(s, total, p', lo, hi)
    ensures OneSpare(s.pagesize, total, p', lo, hi) ==> OneSpare(s.pagesize, total, p, left, right)
  {
    hide Searchable, LeavesOne;
  }

  /** After the right half nothing in the left half has changed. */
  lemma LeftStillFresh(p1: seq<Sample>, p2: seq<Sample>, left: nat, middle: nat, right: nat)
    requires Fresh(p1, left, middle) && middle < right < |p1| && Frame(p2, p1, middle, right) && Sampled(p2[middle])
    ensures Fresh(p2, left, middle)
  {
  }

  lemma MiddleSampled(p: seq<Sample>, left: nat, middle: nat, right: nat, latency: real)
    requires Fresh(p, left, right) && left < middle < right && latency > 0.0
    ensures var q := p[middle := p[middle].(latency := latency)];
            Fresh(q, left, middle) && Fresh(q, middle, right) && Frame(q, p, left, right)
  {
  }

  lemma FrameTrans(a: seq<Sample>, b: seq<Sample>, c: seq<Sample>, left: nat, right: nat, lo: nat, hi: nat)
    requires Frame(b, a, left, right) && Frame(c, b, lo, hi) && left <= lo && hi <= right
    ensures Frame(c, a, left, right)
  {
  }

  /** What does not change while probe is at work. */
  ghost function SettingOf(probe: Probe): Setting
    reads probe.state
  {
    Setting(probe.Total(), probe.Copied(), probe.times, probe.state.pagesize)
  }

  /**
   Where the latencies in p come from: visits are samples of entries between left and right, one after
   the other, each in the middle of two sampled entries that differ much; m is what was measured for each
   entry, and p[a] keeps it unless the next sampled entry is clearly faster.
   */
  ghost predicate Traced(e: Setting, log: seq<Run>, visits: seq<Visit>, m: seq<real>, p0: seq<Sample>, p: seq<Sample>,
                         left: nat, right: nat, s: T.Status, t: T.Status)
    requires left <= right < |p|
  {
    && Samples(e, log, visits, p) && Consecutive(visits, s, t)
    && Latencies(visits, m, p0) && Touched(visits, p0, p, left, right)
    && Grounded(p, m, left, right) && Bisects(visits, p, m, left, right)
  }

  /**
   search: every two neighbouring sampled sizes end up with the ratio of their final latencies, at
   least 0.98, and at most 1.35 unless they are next to each other.  Every latency can be traced to its
   measurement.  With pointers as wide as int the page list keeps all its pages; a remainder by zero needs a
   size between that leaves one page spare.
   */
  method Search(probe: Probe, p: array<Sample>, left: nat, right: nat) returns (ghost visits: seq<Visit>, ghost m: seq<real>)
    requires probe.Ready() && Fresh(p[..], left, right) && Interior(probe.state.S(), probe.Total(), p[..], left, right)
    modifies p, probe, probe.state`pages, probe.state.mem, probe.state.p
    ensures probe.Ready() && |probe.state.pages| == |old(probe.state.pages)|
    ensures Frame(p[..], old(p[..]), left, right) && Sampled(p[left])
    ensures Refined(p[..], left, right)
    ensures old(probe.log) <= probe.log
    ensures Traced(SettingOf(probe), probe.log, visits, m, old(p[..]), p[..], left, right, old(probe.Current(0.0)), probe.Current(0.0))
    ensures SafeFrom(probe.Copied(), probe.Total(), 0) ==> Reordered(probe.state.pages, old(probe.state.pages))
    ensures probe.faulted ==> old(probe.faulted) || OneSpare(probe.state.pagesize, probe.Total(), old(p[..]), left, right)
    decreases right - left, 1
  {
    hide Probe.Ready, Neighbours, Refined, Gap, Frame, Interior, OneSpare, SafeFrom, Reordered, Traced, Rated;
    var middle := left + (right - left) / 2;
    ghost var p0 := p[..];
    Same(probe.state.pages);
    RateLeft(p, left, right);
    ghost var p1 := p[..];
    if middle == left || middle == right || !(p[left].ratio > 1.35 || p[left].ratio < 0.97) {
      CloseRange(p[..], left, right);
      visits, m := NothingVisited(SettingOf(probe), probe.log, p0, p[..], left, right, probe.Current(0.0));
      return;
    }
    RatedApart(p[..], p0, left, right);
    InteriorPart(probe.state.S(), probe.Total(), p0, p[..], left, right, left, right);
    visits, m := SearchHalves(probe, p, left, middle, right);
    FrameTrans(p0, p1, p[..], left, right, left, right);
    TracedFrom(SettingOf(probe), probe.log, visits, m, p0, p1, p[..], left, right, old(probe.Current(0.0)), probe.Current(0.0));
  }

  /** Sample the middle, then search the right half and the left half. */
  method SearchHalves(probe: Probe, p: array<Sample>, left: nat, middle: nat, right: nat) returns (ghost visits: seq<Visit>, ghost m: seq<real>)
    requires probe.Ready() && Fresh(p[..], left, right) && Interior(probe.state.S(), probe.Total(), p[..], left, right)
    requires left < middle == left + (right - left) / 2 && p[right].latency / p[left].latency > 1.35
    modifies p, probe, probe.state`pages, probe.state.mem, probe.state.p
    ensures probe.Ready() && |probe.state.pages| == |old(probe.state.pages)|
    ensures Frame(p[..], old(p[..]), left, right) && Sampled(p[left])
    ensures Refined(p[..], left, right)
    ensures old(probe.log) <= probe.log
    ensures Traced(SettingOf(probe), probe.log, visits, m, old(p[..]), p[..], left, right, old(probe.Current(0.0)), probe.Current(0.0))
    ensures SafeFrom(probe.Copied(), probe.Total(), 0) ==> Reordered(probe.state.pages, old(probe.state.pages))
    ensures probe.faulted ==> old(probe.faulted) || OneSpare(probe.state.pagesize, probe.Total(), old(p[..]), left, right)
    decreases right - left, 0
  {
    hide Probe.Ready, Neighbours, Refined, Gap, Frame, Interior, OneSpare, SafeFrom, Reordered, Searchable, Traced, Stages.Valid, Samples, Consecutive;
    ghost var e, s0 := SettingOf(probe), probe.Current(0.0);
    ghost var p0, list, s, total := p[..], probe.state.pages, probe.state.S(), probe.Total();
    InteriorAt(s, total, p0, left, right, middle);
    var latency;
    ghost var v;
    latency, v := SampleMiddle(probe, p[middle].len, p, middle);
    ghost var list1, log1, p1, s1 := probe.state.pages, probe.log, p[..], probe.Current(0.0);
    MiddleSampled(p0, left, middle, right, latency);
    InteriorPart(s, total, p0, p1, left, right, middle, right);
    ghost var vr, mr := Search(probe, p, middle, right);
    ghost var list2, log2, p2, s2 := probe.state.pages, probe.log, p[..], probe.Current(0.0);
    LeftStillFresh(p1, p2, left, middle, right);
    FrameTrans(p0, p1, p2, left, right, middle, right);
    InteriorPart(s, total, p0, p2, left, right, left, middle);
    ghost var vl, ml := Search(probe, p, left, middle);
    FrameTrans(p0, p2, p[..], left, right, left, middle);
    MiddleKept(p2, p[..], left, middle, right);
    HalvesRefine(p[..], left, middle, right);
    ReorderChain(SafeFrom(probe.Copied(), probe.Total(), 0), list, list1, list2, probe.state.pages);
    StagesHold(Stages(p0, p1, p2, p[..]), left, middle, right, latency);
    visits, m := TracedJoin(e, log1, log2, probe.log, v, vl, vr, ml, mr, Stages(p0, p1, p2, p[..]), left, middle, right, s0, s1, s2, probe.Current(0.0));
  }

  /** What is traced from the samples after RateLeft is traced from those before it, unless the left end was taken for a bad point. */
  lemma TracedFrom(e: Setting, log: seq<Run>, visits: seq<Visit>, m: seq<real>, p0: seq<Sample>, p1: seq<Sample>, p: seq<Sample>,
                   left: nat, right: nat, s: T.Status, t: T.Status)
    requires left < right < |p| == |p1| == |p0| && Traced(e, log, visits, m, p1, p, left, right, s, t)
    requires (forall x :: 0 <= x < |p0| && x != left ==> p1[x] == p0[x]) && p1[left].latency == p0[left].latency
    ensures Traced(e, log, visits, m, p0, p, left, right, s, t)
  {
    hide Samples, Consecutive, Grounded, Bisects;
  }

  /** Only a left end that keeps its latency can have a ratio that calls for a sample between. */
  lemma RatedApart(p: seq<Sample>, p0: seq<Sample>, left: nat, right: nat)
    requires left < right < |p| == |p0| && Rated(p, p0, left, right) && (p[left].ratio > 1.35 || p[left].ratio < 0.97)
    ensures (forall x :: 0 <= x < |p0| && x != left ==> p[x] == p0[x]) && p[left].latency == p0[left].latency
    ensures p[right].latency / p[left].latency > 1.35
  {
  }

  lemma NothingVisited(e: Setting, log: seq<Run>, p0: seq<Sample>, p: seq<Sample>, left: nat, right: nat, s: T.Status)
    returns (visits: seq<Visit>, m: seq<real>)
    requires left < right < |p| == |p0| && Fresh(p0, left, right) && Rated(p, p0, left, right)
    ensures Traced(e, log, visits, m, p0, p, left, right, s, s)
  {
    visits, m := [], seq(|p0|, x requires 0 <= x < |p0| => p0[x].latency);
    forall a, b | left <= a < b <= right && Sampled(p[a]) && Sampled(p[b]) && Gap(p, a, b) ensures a == left && b == right {
      assert b == right;
    }
  }

  lemma StagesHold(s: Stages, left: nat, middle: nat, right: nat, latency: real)
    requires left < middle < right < |s.p0| && latency > 0.0 && s.p1 == s.p0[middle := s.p0[middle].(latency := latency)]
    requires Frame(s.p2, s.p1, middle, right) && Frame(s.p3, s.p2, left, middle)
    ensures s.Valid(left, middle, right, latency)
  {
  }

  lemma TracedJoin(e: Setting, log1: seq<Run>, log2: seq<Run>, log: seq<Run>, v: Visit, vl: seq<Visit>, vr: seq<Visit>, ml: seq<real>, mr: seq<real>,
                   s: Stages, left: nat, middle: nat, right: nat, s0: T.Status, s1: T.Status, s2: T.Status, s3: T.Status)
    returns (visits: seq<Visit>, m: seq<real>)
    requires s.Valid(left, middle, right, v.end.baseline) && v.x == middle == left + (right - left) / 2
    requires Frame(s.p3, s.p0, left, right) && Frame(s.p2, s.p0, left, right) && Sampled(s.p3[middle])
    requires log1 <= log2 <= log && Samples(e, log1, [v], s.p0) && Consecutive([v], s0, s1)
    requires Traced(e, log2, vr, mr, s.p1, s.p2, middle, right, s1, s2)
    requires Traced(e, log, vl, ml, s.p2, s.p3, left, middle, s2, s3)
    requires s.p0[left].latency > 0.0 && s.p0[right].latency / s.p0[left].latency > 1.35
    ensures Traced(e, log, visits, m, s.p0, s.p3, left, right, s0, s3)
  {
    hide Samples, Consecutive, Grounded, Bisects, Touched, Latencies;
    SamplesMore(e, log1, log, [v], s.p0, s.p3);
    SamplesMore(e, log2, log, vr, s.p2, s.p3);
    SamplesJoin(e, log, [v], vr, s.p3);
    SamplesJoin(e, log, [v] + vr, vl, s.p3);
    ConsecutiveJoin([v], vr, s0, s1, s2);
    ConsecutiveJoin([v] + vr, vl, s0, s2, s3);
    LatenciesJoin(s, v, vl, vr, ml, mr, left, middle, right);
    TouchedJoin(s, v, vl, vr, left, middle, right);
    visits, m := [v] + vr + vl, Both(ml, mr, middle);
    GroundedJoin(s, ml, mr, left, middle, right, v.end.baseline);
    LeftUnvisited(s, vl, ml, left, middle, right, v.end.baseline);
    BisectsJoin(s, v, vl, vr, ml, mr, left, middle, right);
  }

  lemma LeftUnvisited(s: Stages, vl: seq<Visit>, ml: seq<real>, left: nat, middle: nat, right: nat, latency: real)
    requires s.Valid(left, middle, right, latency) && Touched(vl, s.p2, s.p3, left, middle) && Latencies(vl, ml, s.p2)
    ensures |ml| == |s.p0| && ml[left] == s.p0[left].latency
  {
  }

  lemma ReorderChain(safe: bool, a: seq<int>, b: seq<int>, c: seq<int>, d: seq<int>)
    requires safe ==> Reordered(b, a) && Reordered(c, b) && Reordered(d, c)
    ensures safe ==> Reordered(d, a)
  {
  }

  lemma InteriorAt(s: Shape, total: nat, p: seq<Sample>, left: nat, right: nat, x: nat)
    requires left < x < right < |p| && Interior(s, total, p, left, right)
    ensures Searchable(s, total, p[x].len)
    ensures LeavesOne(s.pagesize, total, p[x].len) ==> OneSpare(s.pagesize, total, p, left, right)
  {
    hide Searchable, LeavesOne;
  }

  /** What the assignments to p[left] leave: when the right end is clearly faster, the left one is taken for a bad data point. */
  ghost predicate Rated(p: seq<Sample>, p0: seq<Sample>, left: nat, right: nat)
    requires left < right < |p| == |p0|
  {
    && (forall x :: 0 <= x < |p| && x != left ==> p[x] == p0[x]) && p[left].len == p0[left].len
    && p0[left].latency > 0.0
    && (if p0[right].latency / p0[left].latency < 0.98
        then p[left].latency == p0[right].latency && p[left].ratio == 1.0
        else p[left].latency == p0[left].latency && p[left].ratio == p0[right].latency / p0[left].latency)
  }

  /** The assignments to p[left]. */
  method RateLeft(p: array<Sample>, left: nat, right: nat)
    requires Fresh(p[..], left, right)
    modifies p
    ensures Fresh(p[..], left, right) && Frame(p[..], old(p[..]), left, right) && Rated(p[..], old(p[..]), left, right)
    ensures p[left].ratio == p[right].latency / p[left].latency && p[left].ratio >= 0.98
    ensures p[left].slope == (p[left].ratio - 1.0) / (right - left) as real
  {
    p[left] := p[left].(ratio := p[right].latency / p[left].latency);
    p[left] := p[left].(slope := (p[left].ratio - 1.0) / (right - left) as real);
    // probably a bad data point
    if p[left].ratio < 0.98 {
      p[left] := p[left].(latency := p[right].latency, ratio := 1.0, slope := 0.0);
    }
  }

  /** collect_sample for one entry. */
  method SampleMiddle(probe: Probe, len: nat, p: array<Sample>, x: nat) returns (latency: real, ghost v: Visit)
    requires probe.Ready() && x < p.Length && p[x].len == len && Searchable(probe.state.S(), probe.Total(), len)
    modifies p, probe, probe.state`pages, probe.state.mem, probe.state.p
    ensures probe.Ready() && |probe.state.pages| == |old(probe.state.pages)| && latency > 0.0
    ensures p[..] == old(p[..])[x := old(p[x]).(latency := latency)]
    ensures v.x == x && v.end.baseline == latency && old(probe.log) <= probe.log
    ensures Samples(SettingOf(probe), probe.log, [v], old(p[..])) && Consecutive([v], old(probe.Current(0.0)), probe.Current(0.0))
    ensures SafeFrom(probe.Copied(), probe.Total(), 0) ==> Reordered(probe.state.pages, old(probe.state.pages))
    ensures probe.faulted ==> old(probe.faulted) || LeavesOne(probe.state.pagesize, probe.Total(), len)
  {
    hide Usable, SampleLength, PagesFor, Reordered, SafeFrom, T.Sampled;
    ghost var changes;
    ghost var start, log0 := probe.Current(0.0), probe.log;
    latency, changes := probe.CollectSample(len);
    v := Visit(x, start, probe.Current(latency));
    p[x] := p[x].(latency := latency);
    FirstLogged(probe.log, log0, start.pages, len, probe.state.pagesize);
  }

  lemma FirstLogged(log: seq<Run>, log0: seq<Run>, pages: seq<int>, len: nat, pagesize: nat)
    requires pagesize > 0 && PagesFor(len, pagesize) <= |pages| && log0 + [Run(pages[..PagesFor(len, pagesize)], len)] <= log
    ensures |log0| < |log| && log[|log0|] == Run(pages[..PagesFor(len, pagesize)], len)
  {
    assert log[|log0|] == (log0 + [Run(pages[..PagesFor(len, pagesize)], len)])[|log0|];
  }

  lemma MiddleKept(p3: seq<Sample>, p4: seq<Sample>, left: nat, middle: nat, right: nat)
    requires left < middle < right < |p3| && Frame(p4, p3, left, middle) && Refined(p3, middle, right) && Sampled(p3[middle])
    ensures Refined(p4, middle, right) && Sampled(p4[middle])
  {
    hide Refined;
    RefinedKept(p3, p4, middle, right);
  }

  /** A range that is not refined further satisfies the promise by itself. */
  lemma CloseRange(p: seq<Sample>, left: nat, right: nat)
    requires left < right < |p| && Gap(p, left, right) && Sampled(p[left]) && Sampled(p[right])
    requires p[left].ratio == p[right].latency / p[left].latency && p[left].ratio >= 0.98
    requires p[left].slope == (p[left].ratio - 1.0) / (right - left) as real
    requires right == left + 1 || p[left].ratio <= 1.35
    ensures Refined(p, left, right)
  {
    OneStep(p, left, right);
  }
}
