/** Which sizes search samples, in which order, and where every latency it leaves comes from. */
module CacheVisits {
  import opened Tables
  import opened LibMem
  import opened CacheRuns
  import T = CacheTest

  /** struct cache_results; latency is -1 until the size has been sampled. */
  datatype Sample = Sample(len: nat, latency: real, ratio: real, slope: real)

  predicate Sampled(x: Sample) {
    x.latency > 0.0
  }

  /** Nothing between a and b has been sampled. */
  ghost predicate Gap(p: seq<Sample>, a: nat, b: nat)
    requires b <= |p|
  {
    forall x :: a < x < b ==> !Sampled(p[x])
  }

  /** One call of collect_sample: the entry it is for, and what it found and left. */
  datatype Visit = Visit(x: nat, start: T.Status, end: T.Status)

  /** What does not change while the sizes are searched. */
  datatype Setting = Setting(total: nat, copied: nat, times: nat -> real, pagesize: nat)

  /** The visit is a sample of that size, as its measurements make it. */
  ghost predicate SampleOf(e: Setting, v: Visit, len: nat) {
    && e.pagesize > 0
    && var g := T.Ground(PagesFor(len, e.pagesize), e.total, e.copied, e.times);
    && g.Valid(v.start.pages)
    && v.end == T.Sampled(g, v.start.pages, v.start.avail, v.start.clock, v.start.faulted)
  }

  /** Every visit is a sample of the size of its entry, and that size was measured first, with the pages as they were. */
  ghost predicate Samples(e: Setting, log: seq<Run>, visits: seq<Visit>, p: seq<Sample>) {
    forall k :: 0 <= k < |visits| ==>
                  && visits[k].x < |p| && SampleOf(e, visits[k], p[visits[k].x].len)
                  && FirstRun(e, log, visits[k], p[visits[k].x].len)
  }

  ghost predicate FirstRun(e: Setting, log: seq<Run>, v: Visit, len: nat) {
    && e.pagesize > 0 && v.start.clock < |log| && PagesFor(len, e.pagesize) <= |v.start.pages|
    && log[v.start.clock] == Run(v.start.pages[..PagesFor(len, e.pagesize)], len)
  }

  lemma SamplesMore(e: Setting, log: seq<Run>, log': seq<Run>, visits: seq<Visit>, p: seq<Sample>, p': seq<Sample>)
    requires Samples(e, log, visits, p) && log <= log' && |p| == |p'| && forall x :: 0 <= x < |p| ==> p'[x].len == p[x].len
    ensures Samples(e, log', visits, p')
  {
    hide SampleOf;
    forall k | 0 <= k < |visits| ensures FirstRun(e, log', visits[k], p[visits[k].x].len) {
      assert FirstRun(e, log, visits[k], p[visits[k].x].len);
    }
  }

  lemma SamplesJoin(e: Setting, log: seq<Run>, a: seq<Visit>, b: seq<Visit>, p: seq<Sample>)
    requires Samples(e, log, a, p) && Samples(e, log, b, p)
    ensures Samples(e, log, a + b, p)
  {
    hide SampleOf, FirstRun;
  }

  // ---------- one after the other ----------

  /** The same list, search position and number of measurements. */
  predicate SameStatus(s: T.Status, t: T.Status) {
    s.(baseline := t.baseline) == t
  }

  /** The first visit starts from s, each next one where the one before it ended, and the last one ends at t. */
  ghost predicate Consecutive(visits: seq<Visit>, s: T.Status, t: T.Status) {
    if visits == [] then SameStatus(s, t)
    else
      && SameStatus(s, visits[0].start) && SameStatus(visits[|visits| - 1].end, t)
      && forall k :: 0 <= k < |visits| - 1 ==> SameStatus(visits[k].end, visits[k + 1].start)
  }

  lemma ConsecutiveJoin(a: seq<Visit>, b: seq<Visit>, s: T.Status, t: T.Status, u: T.Status)
    requires Consecutive(a, s, t) && Consecutive(b, t, u)
    ensures Consecutive(a + b, s, u)
  {
    var c := a + b;
    if a == [] {
      assert c == b;
    } else if b == [] {
      assert c == a;
    } else {
      forall k | 0 <= k < |c| - 1 ensures SameStatus(c[k].end, c[k + 1].start) {
        if k < |a| - 1 {
          assert SameStatus(a[k].end, a[k + 1].start);
        } else if k >= |a| {
          assert SameStatus(b[k - |a|].end, b[k - |a| + 1].start);
        }
      }
    }
  }

  // ---------- measured latencies ----------

  ghost predicate Among(visits: seq<Visit>, x: int) {
    exists k :: 0 <= k < |visits| && visits[k].x == x
  }

  lemma AmongJoin(a: seq<Visit>, b: seq<Visit>, x: int)
    ensures Among(a + b, x) <==> Among(a, x) || Among(b, x)
  {
    if k :| 0 <= k < |a| && a[k].x == x {
      assert (a + b)[k].x == x;
    }
    if k :| 0 <= k < |b| && b[k].x == x {
      assert (a + b)[|a| + k].x == x;
    }
  }

  /** What was measured for each entry: by its visit, or before. */
  ghost predicate Latencies(visits: seq<Visit>, m: seq<real>, p: seq<Sample>) {
    && |m| == |p|
    && (forall k :: 0 <= k < |visits| ==> visits[k].x < |m| && m[visits[k].x] == visits[k].end.baseline)
    && (forall x :: 0 <= x < |m| && !Among(visits, x) ==> m[x] == p[x].latency)
  }

  /** Entries strictly between left and right are visited, others are not; what is visited is sampled, what is not stays. */
  ghost predicate Touched(visits: seq<Visit>, p0: seq<Sample>, p: seq<Sample>, left: nat, right: nat) {
    && |p| == |p0|
    && (forall k :: 0 <= k < |visits| ==> left < visits[k].x < right && visits[k].x < |p| && Sampled(p[visits[k].x]))
    && (forall x :: left < x < right && x < |p| && !Among(visits, x) ==> p[x] == p0[x])
  }

  /**
   Of neighbouring sampled entries the left one has the latency measured for it, or, when the right one's is
   less by more than a fiftieth, that of the right one.
   */
  ghost predicate Grounded(p: seq<Sample>, m: seq<real>, left: nat, right: nat)
    requires left <= right < |p| == |m|
  {
    forall a, b :: left <= a < b <= right && Sampled(p[a]) && Sampled(p[b]) && Gap(p, a, b) ==>
                     m[a] > 0.0 && p[a].latency == if p[b].latency / m[a] < 0.98 then p[b].latency else m[a]
  }

  // ---------- which entries are visited ----------

  /** Visit k is in the middle of a and b, which had been sampled before it, nothing between them, and differ much. */
  ghost predicate Halves(visits: seq<Visit>, k: nat, p: seq<Sample>, m: seq<real>, left: nat, right: nat, a: nat, b: nat)
    requires k < |visits| && |m| == |p|
  {
    && left <= a < b <= right < |p| && visits[k].x == a + (b - a) / 2 && a < visits[k].x
    && (a == left || Among(visits[..k], a)) && (b == right || Among(visits[..k], b))
    && (forall l :: 0 <= l < k ==> !(a < visits[l].x < b))
    && m[a] > 0.0 && p[b].latency / m[a] > 1.35
  }

  ghost predicate Halving(visits: seq<Visit>, k: nat, p: seq<Sample>, m: seq<real>, left: nat, right: nat)
    requires k < |visits| && |m| == |p|
  {
    exists a: nat, b: nat :: Halves(visits, k, p, m, left, right, a, b)
  }

  ghost predicate Bisects(visits: seq<Visit>, p: seq<Sample>, m: seq<real>, left: nat, right: nat)
    requires |m| == |p|
  {
    forall k :: 0 <= k < |visits| ==> Halving(visits, k, p, m, left, right)
  }

  // ---------- putting the halves together ----------

  /** What both halves of a range have measured. */
  ghost function Both(ml: seq<real>, mr: seq<real>, middle: nat): (m: seq<real>)
    requires |ml| == |mr|
    ensures |m| == |ml|
  {
    seq(|ml|, x requires 0 <= x < |ml| => if x < middle then ml[x] else mr[x])
  }

  /** The samples of a range before it is searched, with the middle sampled, after the right half, and after the left half. */
  datatype Stages = Stages(p0: seq<Sample>, p1: seq<Sample>, p2: seq<Sample>, p3: seq<Sample>) {
    ghost predicate Valid(left: nat, middle: nat, right: nat, latency: real) {
      && left < middle < right < |p0| == |p1| == |p2| == |p3| && latency > 0.0
      && (forall x :: 0 <= x < |p0| && x != middle ==> p1[x].latency == p0[x].latency)
      && (forall x :: 0 <= x < |p0| && x != middle && x != left ==> p1[x] == p0[x])
      && p1[middle].latency == latency
      && (forall x :: 0 <= x < |p0| && !(middle <= x < right) ==> p2[x] == p1[x])
      && (forall x :: 0 <= x < |p0| && !(left <= x < middle) ==> p3[x] == p2[x])
    }
  }

  lemma LatenciesJoin(s: Stages, v: Visit, vl: seq<Visit>, vr: seq<Visit>, ml: seq<real>, mr: seq<real>, left: nat, middle: nat, right: nat)
    requires s.Valid(left, middle, right, v.end.baseline) && v.x == middle
    requires Latencies(vr, mr, s.p1) && Latencies(vl, ml, s.p2)
    requires Touched(vr, s.p1, s.p2, middle, right) && Touched(vl, s.p2, s.p3, left, middle)
    ensures |ml| == |mr| == |s.p0| && Latencies([v] + vr + vl, Both(ml, mr, middle), s.p0)
  {
    var all, m := [v] + vr + vl, Both(ml, mr, middle);
    forall x | 0 <= x < |m| && !Among(all, x) ensures m[x] == s.p0[x].latency {
      NotAmong(v, vl, vr, x);
    }
  }

  lemma NotAmong(v: Visit, vl: seq<Visit>, vr: seq<Visit>, x: int)
    ensures Among([v] + vr + vl, x) <==> x == v.x || Among(vr, x) || Among(vl, x)
  {
    AmongJoin([v] + vr, vl, x);
    AmongJoin([v], vr, x);
    assert [v][0].x == v.x;
  }

  lemma TouchedJoin(s: Stages, v: Visit, vl: seq<Visit>, vr: seq<Visit>, left: nat, middle: nat, right: nat)
    requires s.Valid(left, middle, right, v.end.baseline) && v.x == middle && Sampled(s.p3[middle])
    requires Touched(vr, s.p1, s.p2, middle, right) && Touched(vl, s.p2, s.p3, left, middle)
    ensures Touched([v] + vr + vl, s.p0, s.p3, left, right)
  {
    var all := [v] + vr + vl;
    forall x | left < x < right && !Among(all, x) ensures s.p3[x] == s.p0[x] {
      NotAmong(v, vl, vr, x);
    }
  }

  lemma GroundedJoin(s: Stages, ml: seq<real>, mr: seq<real>, left: nat, middle: nat, right: nat, latency: real)
    requires s.Valid(left, middle, right, latency) && Sampled(s.p3[middle]) && |ml| == |mr| == |s.p0|
    requires Grounded(s.p2, mr, middle, right) && Grounded(s.p3, ml, left, middle)
    ensures Grounded(s.p3, Both(ml, mr, middle), left, right)
  {
    var p, m := s.p3, Both(ml, mr, middle);
    forall a, b | left <= a < b <= right && Sampled(p[a]) && Sampled(p[b]) && Gap(p, a, b)
      ensures m[a] > 0.0 && p[a].latency == if p[b].latency / m[a] < 0.98 then p[b].latency else m[a]
    {
      assert !(a < middle < b);
      if a >= middle {
        assert Gap(s.p2, a, b);
      }
    }
  }

  lemma BisectsJoin(s: Stages, v: Visit, vl: seq<Visit>, vr: seq<Visit>, ml: seq<real>, mr: seq<real>, left: nat, middle: nat, right: nat)
    requires s.Valid(left, middle, right, v.end.baseline) && v.x == middle == left + (right - left) / 2 && |ml| == |mr| == |s.p0|
    requires Touched(vr, s.p1, s.p2, middle, right) && Touched(vl, s.p2, s.p3, left, middle)
    requires Bisects(vr, s.p2, mr, middle, right) && Bisects(vl, s.p3, ml, left, middle)
    requires ml[left] == s.p0[left].latency > 0.0 && s.p0[right].latency / s.p0[left].latency > 1.35
    ensures Bisects([v] + vr + vl, s.p3, Both(ml, mr, middle), left, right)
  {
    hide Halves, Halving, Touched;
    var all, p, m := [v] + vr + vl, s.p3, Both(ml, mr, middle);
    forall k | 0 <= k < |all| ensures Halving(all, k, p, m, left, right) {
      if k == 0 {
        FirstHalves(s, v, vr + vl, m, left, middle, right);
        assert [v] + (vr + vl) == all;
      } else if k <= |vr| {
        assert Halving(vr, k - 1, s.p2, mr, middle, right);
        RightHalf(s, v, vl, vr, ml, mr, left, middle, right, k - 1);
      } else {
        var j := k - 1 - |vr|;
        assert Halving(vl, j, s.p3, ml, left, middle);
        LeftHalf(s, v, vl, vr, ml, mr, left, middle, right, j);
      }
    }
  }

  lemma FirstHalves(s: Stages, v: Visit, rest: seq<Visit>, m: seq<real>, left: nat, middle: nat, right: nat)
    requires s.Valid(left, middle, right, v.end.baseline) && v.x == middle == left + (right - left) / 2 && |m| == |s.p0|
    requires m[left] == s.p0[left].latency > 0.0 && s.p0[right].latency / s.p0[left].latency > 1.35
    ensures Halving([v] + rest, 0, s.p3, m, left, right)
  {
    assert Halves([v] + rest, 0, s.p3, m, left, right, left, right);
  }

  lemma RightHalf(s: Stages, v: Visit, vl: seq<Visit>, vr: seq<Visit>, ml: seq<real>, mr: seq<real>, left: nat, middle: nat, right: nat,
                  j: nat)
    requires s.Valid(left, middle, right, v.end.baseline) && v.x == middle && |ml| == |mr| == |s.p0| && j < |vr|
    requires Halving(vr, j, s.p2, mr, middle, right)
    ensures Halving([v] + vr + vl, 1 + j, s.p3, Both(ml, mr, middle), left, right)
  {
    var a: nat, b: nat :| Halves(vr, j, s.p2, mr, middle, right, a, b);
    var all := [v] + vr + vl;
    assert all[..1 + j] == [v] + vr[..j];
    assert [v][0].x == middle;
    AmongJoin([v], vr[..j], a);
    AmongJoin([v], vr[..j], b);
    forall l | 0 <= l < 1 + j ensures !(a < all[l].x < b) {
      assert l > 0 ==> all[l] == vr[l - 1];
    }
    assert Halves(all, 1 + j, s.p3, Both(ml, mr, middle), left, right, a, b);
  }

  lemma LeftHalf(s: Stages, v: Visit, vl: seq<Visit>, vr: seq<Visit>, ml: seq<real>, mr: seq<real>, left: nat, middle: nat, right: nat,
                 j: nat)
    requires s.Valid(left, middle, right, v.end.baseline) && v.x == middle && |ml| == |mr| == |s.p0| && j < |vl|
    requires Touched(vr, s.p1, s.p2, middle, right) && Halving(vl, j, s.p3, ml, left, middle)
    ensures Halving([v] + vr + vl, 1 + |vr| + j, s.p3, Both(ml, mr, middle), left, right)
  {
    var a: nat, b: nat :| Halves(vl, j, s.p3, ml, left, middle, a, b);
    var all := [v] + vr + vl;
    assert all[..1 + |vr| + j] == [v] + vr + vl[..j];
    assert [v][0].x == middle;
    NotAmong(v, vl[..j], vr, a);
    NotAmong(v, vl[..j], vr, b);
    forall l | 0 <= l < 1 + |vr| + j ensures !(a < all[l].x < b) {
      if 0 < l <= |vr| {
        assert all[l] == vr[l - 1];
      } else if l > |vr| {
        assert all[l] == vl[l - 1 - |vr|];
      }
    }
    assert Halves(all, 1 + |vr| + j, s.p3, Both(ml, mr, middle), left, right, a, b);
  }
}
