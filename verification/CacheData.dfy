/** collect_data of cache.c: the sizes to sample, the memory behind them, and the search over them. */
module CacheData {
  import opened Arith
  import opened BitReversal
  import opened Tables
  import opened LibMem
  import opened CacheMeasure
  import opened CacheChunks
  import opened CacheFixup
  import opened PageLists
  import opened CacheRuns
  import opened CacheVisits
  import opened CacheSearch
  import T = CacheTest

  /** The sizes from len on, when i of the four of this step have been taken: four a doubling of the step. */
  function Sizes(len: nat, incr: nat, i: nat, maxlen: nat): (sizes: seq<nat>)
    requires incr > 0 && i <= 4
    decreases if len <= maxlen then maxlen - len + 1 else 0, i
  {
    if len > maxlen then []
    else if i == 4 then Sizes(len, 2 * incr, 0, maxlen)
    else [len] + Sizes(len + incr, incr, i + 1, maxlen)
  }

  /** Size number y when r is what four steps of the first size leave over: four a doubling, evenly spaced. */
  function SizeAt(r: nat, q: nat, y: nat): nat {
    r + (4 + y % 4) * Mul(Pow2(y / 4), q)
  }

  /** From size 4*k+i on. */
  lemma {:induction false} SizesFrom(r: nat, q: nat, k: nat, i: nat, maxlen: nat, x: nat)
    requires q > 0 && i <= 4 && Mul(Pow2(k), q) > 0
    ensures var sizes := Sizes(SizeAt(r, q, 4 * k + i), Mul(Pow2(k), q), i, maxlen);
            && (x < |sizes| ==> sizes[x] == SizeAt(r, q, 4 * k + i + x))
            && (SizeAt(r, q, 4 * k + i + x) <= maxlen ==> x < |sizes|)
    decreases if SizeAt(r, q, 4 * k + i) <= maxlen then maxlen - SizeAt(r, q, 4 * k + i) + 1 else 0, i
  {
    hide Mul, SizeAt;
    SizeStep(r, q, k, i);
    MulPlus(Pow2(k), Pow2(k), q);
    var len, incr := SizeAt(r, q, 4 * k + i), Mul(Pow2(k), q);
    if len > maxlen {
      SizesGrow(r, q, 4 * k + i, 4 * k + i + x);
    } else if i == 4 {
      SizesFrom(r, q, k + 1, 0, maxlen, x);
    } else if x > 0 {
      SizesFrom(r, q, k, i + 1, maxlen, x - 1);
    }
  }

  lemma SizeStep(r: nat, q: nat, k: nat, i: nat)
    requires i <= 4
    ensures i < 4 ==> SizeAt(r, q, 4 * k + i + 1) == SizeAt(r, q, 4 * k + i) + Mul(Pow2(k), q)
    ensures SizeAt(r, q, 4 * k + i) == r + (4 + i) * Mul(Pow2(k), q)
  {
    hide Mul, SizeAt;
    SizeIs(r, q, k, i);
    if i < 4 {
      SizeIs(r, q, k, i + 1);
    }
    var unit := Mul(Pow2(k), q);
    assert (4 + i + 1) * unit == (4 + i) * unit + unit;
  }

  lemma SizeIs(r: nat, q: nat, k: nat, i: nat)
    requires i <= 4
    ensures SizeAt(r, q, 4 * k + i) == r + (4 + i) * Mul(Pow2(k), q)
  {
    hide Mul;
    MulPlus(Pow2(k), Pow2(k), q);
    if i < 4 {
      assert (4 * k + i) / 4 == k && (4 * k + i) % 4 == i;
    } else {
      assert (4 * k + i) / 4 == k + 1 && (4 * k + i) % 4 == 0;
    }
  }

  lemma {:induction false} SizesGrow(r: nat, q: nat, y: nat, z: nat)
    requires y <= z
    ensures SizeAt(r, q, y) <= SizeAt(r, q, z)
  {
    hide SizeAt, Mul;
    if y < z {
      SizesGrow(r, q, y, z - 1);
      SizeStep(r, q, (z - 1) / 4, (z - 1) % 4);
    }
  }

  /** The sizes in closed form: four a doubling, all of them that fit maxlen. */
  lemma SizesExactly(start: nat, maxlen: nat, x: nat)
    requires start >= 4
    ensures var sizes := Sizes(start, start / 4, 0, maxlen);
            && (x < |sizes| <==> SizeAt(start % 4, start / 4, x) <= maxlen)
            && (x < |sizes| ==> sizes[x] == SizeAt(start % 4, start / 4, x))
  {
    hide Mul;
    MulSmall(start / 4);
    SizesFrom(start % 4, start / 4, 0, 0, maxlen, x);
    SizesInRange(start, start / 4, 0, maxlen);
  }

  lemma {:induction false} SizesInRange(len: nat, incr: nat, i: nat, maxlen: nat)
    requires incr > 0 && i <= 4
    ensures forall x :: 0 <= x < |Sizes(len, incr, i, maxlen)| ==> len <= Sizes(len, incr, i, maxlen)[x] <= maxlen
    decreases if len <= maxlen then maxlen - len + 1 else 0, i
  {
    if len <= maxlen {
      if i == 4 {
        SizesInRange(len, 2 * incr, 0, maxlen);
      } else {
        SizesInRange(len + incr, incr, i + 1, maxlen);
      }
    }
  }

  lemma {:induction false} SizesAreLines(len: nat, incr: nat, i: nat, maxlen: nat, line: nat)
    requires incr > 0 && i <= 4 && Multiple(len, line) && Multiple(incr, line)
    ensures forall x :: 0 <= x < |Sizes(len, incr, i, maxlen)| ==> Multiple(Sizes(len, incr, i, maxlen)[x], line)
    decreases if len <= maxlen then maxlen - len + 1 else 0, i
  {
    hide Multiple;
    if len <= maxlen {
      if i == 4 {
        MultipleSum(incr, incr, line);
        SizesAreLines(len, 2 * incr, 0, maxlen, line);
      } else {
        MultipleSum(len, incr, line);
        SizesAreLines(len + incr, incr, i + 1, maxlen, line);
      }
    }
  }

  /** The first loops of collect_data. */
  method CountSamples(start: nat, maxlen: nat) returns (samples: nat)
    requires start >= 4
    ensures samples == |Sizes(start, start / 4, 0, maxlen)|
  {
    samples := 0;
    var len, incr := start, start / 4;
    while len <= maxlen
      invariant incr > 0 && samples + |Sizes(len, incr, 0, maxlen)| == |Sizes(start, start / 4, 0, maxlen)|
      decreases if len <= maxlen then maxlen - len + 1 else 0
    {
      ghost var len0 := len;
      var i := 0;
      while i < 4 && len <= maxlen
        invariant i <= 4 && len >= len0 + i
        invariant samples + |Sizes(len, incr, i, maxlen)| == |Sizes(start, start / 4, 0, maxlen)|
      {
        samples := samples + 1;
        i, len := i + 1, len + incr;
      }
      incr := 2 * incr;
    }
  }

  /** The loops that set up the samples: nothing has been measured. */
  method InitSamples(p: array<Sample>, start: nat, maxlen: nat)
    requires start >= 4 && p.Length == |Sizes(start, start / 4, 0, maxlen)|
    modifies p
    ensures forall x :: 0 <= x < p.Length ==> p[x] == Sample(Sizes(start, start / 4, 0, maxlen)[x], -1.0, -1.0, -1.0)
  {
    ghost var sizes := Sizes(start, start / 4, 0, maxlen);
    var idx := 0;
    var len, incr := start, start / 4;
    while len <= maxlen
      invariant incr > 0 && idx <= |sizes| && Sizes(len, incr, 0, maxlen) == sizes[idx..]
      invariant forall x :: 0 <= x < idx ==> p[x] == Sample(sizes[x], -1.0, -1.0, -1.0)
      decreases if len <= maxlen then maxlen - len + 1 else 0
    {
      ghost var len0 := len;
      var i := 0;
      while i < 4 && len <= maxlen
        invariant i <= 4 && len >= len0 + i && idx <= |sizes| && Sizes(len, incr, i, maxlen) == sizes[idx..]
        invariant forall x :: 0 <= x < idx ==> p[x] == Sample(sizes[x], -1.0, -1.0, -1.0)
      {
        assert sizes[idx] == len;
        assert sizes[idx + 1..] == sizes[idx..][1..];
        p[idx] := Sample(len, -1.0, -1.0, -1.0);
        i, idx, len := i + 1, idx + 1, len + incr;
      }
      incr := 2 * incr;
    }
  }

  /** No size ends in less than a line, and those between the first and the last fit the whole pages of maxlen. */
  ghost predicate Samplable(sizes: seq<nat>, line: nat, pagesize: nat, maxlen: nat) {
    && pagesize > 0 && |sizes| >= 2
    && (forall x :: 0 <= x < |sizes| ==> 0 < sizes[x] <= maxlen && EndsOnLine(sizes[x], line, pagesize))
    && (forall x :: 0 < x < |sizes| - 1 ==> PagesFor(sizes[x], pagesize) <= maxlen / pagesize)
  }

  predicate EndsOnLine(len: nat, line: nat, pagesize: nat)
    requires pagesize > 0
  {
    len % pagesize == 0 || line <= len % pagesize
  }

  /** Sizes in whole lines in a maxlen of whole pages can all be sampled: the default run is one. */
  lemma WholeLinesSamplable(start: nat, maxlen: nat, s: Shape)
    requires s.Valid() && start >= 4 && Multiple(start, s.line) && Multiple(start / 4, s.line) && Multiple(maxlen, s.pagesize)
    requires start + start / 4 <= maxlen
    ensures Samplable(Sizes(start, start / 4, 0, maxlen), s.line, s.pagesize, maxlen) && FullyLinked(maxlen, s.line, s.pagesize)
  {
    hide Multiple, PagesFor, FullyLinked, EndsOnLine, Mul;
    var sizes := Sizes(start, start / 4, 0, maxlen);
    assert sizes == [start] + Sizes(start + start / 4, start / 4, 1, maxlen);
    assert Sizes(start + start / 4, start / 4, 1, maxlen) != [];
    SizesInRange(start, start / 4, 0, maxlen);
    SizesAreLines(start, start / 4, 0, maxlen, s.line);
    assert start <= sizes[0] <= maxlen;
    FullyLinkedExactly(maxlen, s);
    ShapeCounts(s);
    forall x | 0 <= x < |sizes| ensures EndsOnLine(sizes[x], s.line, s.pagesize) && PagesFor(sizes[x], s.pagesize) <= maxlen / s.pagesize {
      LineEnds(sizes[x], s.line, s.pagesize);
      PagesWithin(sizes[x], maxlen, s.pagesize);
    }
  }

  lemma LineEnds(len: nat, line: nat, pagesize: nat)
    requires Multiple(len, line) && Multiple(pagesize, line) && pagesize > 0
    ensures EndsOnLine(len, line, pagesize)
  {
    hide Multiple, Mul;
    DivParts(len, pagesize);
    var whole, r := Mul(len / pagesize, pagesize), len % pagesize;
    MulMultiple(len / pagesize, pagesize);
    MultipleTransitive(whole, pagesize, line);
    MultipleDifference(len, whole, line);
    AtLeastUnit(r, line);
  }

  lemma AtLeastUnit(r: nat, line: nat)
    requires Multiple(r, line)
    ensures r == 0 || r >= line
  {
    if 0 < r < line {
      DivUnique(r, 0, r, line);
    }
  }

  lemma PagesWithin(len: nat, maxlen: nat, pagesize: nat)
    requires len <= maxlen && Multiple(maxlen, pagesize)
    ensures PagesFor(len, pagesize) <= maxlen / pagesize
  {
    hide Mul;
    var n := MultipleQuotient(maxlen, pagesize);
    PagesBetween(len, n, maxlen, pagesize);
  }

  /** n pages hold len and fit maxlen. */
  lemma PagesBetween(len: nat, n: nat, maxlen: nat, pagesize: nat)
    requires pagesize > 0 && len <= Mul(n, pagesize) <= maxlen
    ensures PagesFor(len, pagesize) <= n <= maxlen / pagesize
  {
    hide Mul;
    DivParts(maxlen, pagesize);
    DivParts(len + pagesize - 1, pagesize);
    MulPlus(n, 1, pagesize);
    MulPlus(maxlen / pagesize, 1, pagesize);
    MulSmall(pagesize);
    if PagesFor(len, pagesize) >= n + 1 {
      MulMono(n + 1, PagesFor(len, pagesize), pagesize);
    }
    if maxlen / pagesize + 1 <= n {
      MulMono(maxlen / pagesize + 1, n, pagesize);
    }
  }

  /** Sizes a page apart or more, of which the one after len fits maxlen. */
  lemma WholePageStep(k: nat, incr: nat, d: nat, line: nat, pagesize: nat, maxlen: nat)
    requires pagesize > 0 && incr == Mul(d, pagesize)
    ensures EndsOnLine(Mul(k, incr), line, pagesize)
    ensures Mul(k + 1, incr) <= maxlen ==> PagesFor(Mul(k, incr), pagesize) <= maxlen / pagesize
  {
    hide Mul, PagesFor;
    var n := Mul(k, d);
    MulAssoc(k, d, pagesize);
    MulMultiple(n, pagesize);
    MulPlus(k, 1, incr);
    if Mul(k + 1, incr) <= maxlen {
      PagesBetween(Mul(k, incr), n, maxlen, pagesize);
    }
  }

  /** Sizes less than a page apart, four to seven steps long. */
  lemma PartPageStep(len: nat, incr: nat, line: nat, pagesize: nat, maxlen: nat)
    requires len == 4 * incr || len == 5 * incr || len == 6 * incr || len == 7 * incr
    requires incr > 0 && (pagesize == 2 * incr || pagesize == 4 * incr || pagesize >= 8 * incr)
    requires line <= 4 * incr && 4 * line <= pagesize
    ensures EndsOnLine(len, line, pagesize)
    ensures 2 * pagesize <= maxlen && len + incr <= maxlen ==> PagesFor(len, pagesize) <= maxlen / pagesize
  {
    hide PagesFor, EndsOnLine;
    if pagesize == 2 * incr {
      LenSplits(len, if len < 6 * incr then 2 else 3, if len < 6 * incr then len - 4 * incr else len - 6 * incr, line, pagesize, maxlen);
    } else if pagesize == 4 * incr {
      LenSplits(len, 1, len - pagesize, line, pagesize, maxlen);
    } else {
      LenSplits(len, 0, len, line, pagesize, maxlen);
    }
  }

  lemma LenSplits(len: nat, whole: nat, rest: nat, line: nat, pagesize: nat, maxlen: nat)
    requires 0 <= whole <= 3 && len == whole * pagesize + rest && rest < pagesize && (rest == 0 || line <= rest)
    ensures EndsOnLine(len, line, pagesize)
    ensures rest == 0 && len <= maxlen ==> PagesFor(len, pagesize) <= maxlen / pagesize
    ensures (whole + 1) * pagesize <= maxlen ==> PagesFor(len, pagesize) <= maxlen / pagesize
  {
    hide PagesFor, Mul;
    DivUnique(len, whole, rest, pagesize);
    MulIs(whole, pagesize);
    MulIs(whole + 1, pagesize);
    if rest == 0 && len <= maxlen {
      PagesBetween(len, whole, maxlen, pagesize);
    }
    if (whole + 1) * pagesize <= maxlen {
      PagesBetween(len, whole + 1, maxlen, pagesize);
    }
  }

  /** Every size of a step, and, when another one follows, the pages it takes. */
  lemma StepFits(k: nat, m: nat, e: nat, q: nat, line: nat, pagesize: nat, maxlen: nat)
    requires 4 <= k <= 7 && q > 0 && pagesize == Mul(Pow2(e), q) > 0 && line <= 4 * q && 4 * line <= pagesize && 2 * pagesize <= maxlen
    ensures var incr := Mul(Pow2(m), q);
            && incr >= q
            && EndsOnLine(k * incr, line, pagesize)
            && ((k + 1) * incr <= maxlen ==> PagesFor(k * incr, pagesize) <= maxlen / pagesize)
  {
    hide Mul, PagesFor, EndsOnLine;
    var incr := Mul(Pow2(m), q);
    MulMono(1, Pow2(m), q);
    MulSmall(q);
    if m >= e {
      Pow2Sum(m - e, e);
      MulAssoc(Pow2(m - e), Pow2(e), q);
      WholePageStep(k, incr, Pow2(m - e), line, pagesize, maxlen);
      MulIs(k, incr);
      MulIs(k + 1, incr);
    } else {
      Pow2Sum(e - m, m);
      MulAssoc(Pow2(e - m), Pow2(m), q);
      StepInPage(e - m, incr, pagesize);
      PartPageStep(k * incr, incr, line, pagesize, maxlen);
    }
  }

  lemma MulIs(a: nat, b: nat)
    ensures Mul(a, b) == a * b
  {
  }

  lemma StepInPage(d: nat, incr: nat, pagesize: nat)
    requires d >= 1 && pagesize == Mul(Pow2(d), incr)
    ensures pagesize == 2 * incr || pagesize == 4 * incr || pagesize >= 8 * incr
  {
    hide Mul;
    if d >= 3 {
      Pow2Mono(3, d);
      MulMono(8, Pow2(d), incr);
      MulIs(8, incr);
    } else {
      MulIs(Pow2(d), incr);
    }
  }

  /** What Samplable asks of the sizes from len on. */
  ghost predicate AllFit(sizes: seq<nat>, line: nat, pagesize: nat, maxlen: nat) {
    && pagesize > 0
    && (forall x :: 0 <= x < |sizes| ==> EndsOnLine(sizes[x], line, pagesize))
    && (forall x :: 0 <= x < |sizes| - 1 ==> PagesFor(sizes[x], pagesize) <= maxlen / pagesize)
  }

  lemma {:induction false} SizesFit(len: nat, m: nat, i: nat, e: nat, q: nat, line: nat, pagesize: nat, maxlen: nat)
    requires q > 0 && pagesize == Mul(Pow2(e), q) > 0 && line <= 4 * q && 4 * line <= pagesize && 2 * pagesize <= maxlen
    requires i <= 4 && len == (4 + i) * Mul(Pow2(m), q) && Mul(Pow2(m), q) > 0
    ensures AllFit(Sizes(len, Mul(Pow2(m), q), i, maxlen), line, pagesize, maxlen)
    decreases if len <= maxlen then maxlen - len + 1 else 0, i
  {
    hide Mul, PagesFor, EndsOnLine;
    var incr := Mul(Pow2(m), q);
    if len <= maxlen {
      if i == 4 {
        MulPlus(Pow2(m), Pow2(m), q);
        SizesFit(len, m + 1, 0, e, q, line, pagesize, maxlen);
      } else {
        var rest := Sizes(len + incr, incr, i + 1, maxlen);
        SizesFit(len + incr, m, i + 1, e, q, line, pagesize, maxlen);
        SizesInRange(len + incr, incr, i + 1, maxlen);
        StepFits(4 + i, m, e, q, line, pagesize, maxlen);
        assert Sizes(len, incr, i, maxlen) == [len] + rest;
        assert rest != [] ==> len + incr <= rest[0] <= maxlen;
      }
    }
  }

  /**
   The sizes of the default run, whose first one is a power of two of steps of q and no more than a page,
   can be sampled in any maxlen of at least two pages, a partial last page included.
   */
  lemma DefaultSizesSamplable(e: nat, q: nat, maxlen: nat, line: nat, pagesize: nat)
    requires q > 0 && pagesize == Mul(Pow2(e), q) >= 4 * q && line <= 4 * q && 4 * line <= pagesize && 2 * pagesize <= maxlen
    ensures Samplable(Sizes(4 * q, q, 0, maxlen), line, pagesize, maxlen)
  {
    hide Mul, PagesFor, EndsOnLine;
    MulSmall(q);
    var sizes := Sizes(4 * q, q, 0, maxlen);
    SizesFit(4 * q, 0, 0, e, q, line, pagesize, maxlen);
    SizesInRange(4 * q, q, 0, maxlen);
    assert sizes == [4 * q] + Sizes(5 * q, q, 1, maxlen);
    assert Sizes(5 * q, q, 1, maxlen) != [];
  }

  lemma SizeMeasurable(len: nat, maxlen: nat, n: nat, s: Shape)
    requires s.Valid() && 0 < len <= maxlen && EndsOnLine(len, s.line, s.pagesize) && n == PagesFor(maxlen, s.pagesize)
    ensures Measurable(len, n, s)
  {
    hide PagesFor;
    PagesMono(len, maxlen, s.pagesize);
  }

  /** The samples with their sizes, the first and the last one measured. */
  ghost predicate Bracketed(p: seq<Sample>, sizes: seq<nat>) {
    && |p| == |sizes| >= 2
    && (forall x :: 0 <= x < |p| ==> p[x].len == sizes[x])
    && CacheSearch.Fresh(p, 0, |p| - 1)
  }

  lemma BracketedInterior(p: seq<Sample>, sizes: seq<nat>, s: Shape, maxlen: nat)
    requires Bracketed(p, sizes) && s.pagesize > 0 && Samplable(sizes, s.line, s.pagesize, maxlen)
    ensures Interior(s, maxlen / s.pagesize, p, 0, |p| - 1) && CacheSearch.Fresh(p, 0, |p| - 1) && |p| >= 2
  {
    hide PagesFor;
  }

  /** Neighbouring samples carry the ratio of their latencies, at least 0.98, and at most 1.35 unless adjacent. */
  ghost predicate Collected(p: seq<Sample>, sizes: seq<nat>) {
    && |p| == |sizes| >= 2
    && (forall x :: 0 <= x < |p| ==> p[x].len == sizes[x])
    && Sampled(p[0]) && Sampled(p[|p| - 1]) && Refined(p, 0, |p| - 1)
  }

  lemma SearchCollects(p: seq<Sample>, p0: seq<Sample>, sizes: seq<nat>)
    requires Bracketed(p0, sizes) && Frame(p, p0, 0, |p0| - 1) && Sampled(p[0]) && Refined(p, 0, |p0| - 1)
    ensures Collected(p, sizes)
  {
    hide Refined;
  }

  /** Measurement c was of the size of x, over the first pages of the list, and took so long. */
  ghost predicate EndMeasured(probe: Probe, c: nat, x: Sample, latency: real)
    reads probe, probe.state
  {
    && c < |probe.log| && latency == probe.times(c) && probe.state.pagesize > 0
    && PagesFor(x.len, probe.state.pagesize) <= |probe.state.pages|
    && probe.log[c] == Run(probe.state.pages[..PagesFor(x.len, probe.state.pagesize)], x.len)
  }

  /** The samples, with the first and the last size measured. */
  method Bracket(probe: Probe, start: nat, maxlen: nat) returns (p: array<Sample>)
    requires probe.Ready() && start >= 4 && probe.state.maxlen == maxlen && |probe.state.pages| == PagesFor(maxlen, probe.state.pagesize)
    requires Samplable(Sizes(start, start / 4, 0, maxlen), probe.state.line, probe.state.pagesize, maxlen)
    modifies probe`clock, probe`log, probe.state.mem, probe.state.p
    ensures probe.Ready() && fresh(p) && Bracketed(p[..], Sizes(start, start / 4, 0, maxlen))
    ensures probe.clock == old(probe.clock) + 2 && old(probe.log) <= probe.log
    ensures EndMeasured(probe, old(probe.clock), p[0], p[0].latency) && EndMeasured(probe, old(probe.clock) + 1, p[p.Length - 1], p[p.Length - 1].latency)
  {
    hide Usable, Measurable, PagesFor, EndsOnLine, Sizes, EndMeasured;
    ghost var sizes := Sizes(start, start / 4, 0, maxlen);
    var samples := CountSamples(start, maxlen);
    p := new Sample[samples](_ => Sample(0, 0.0, 0.0, 0.0));
    InitSamples(p, start, maxlen);
    MeasureEnd(probe, p, 0, maxlen);
    ghost var first := p[0];
    MeasureEnd(probe, p, samples - 1, maxlen);
  }

  /** One of the two ends. */
  method MeasureEnd(probe: Probe, p: array<Sample>, x: nat, maxlen: nat)
    requires probe.Ready() && probe.state.maxlen == maxlen && |probe.state.pages| == PagesFor(maxlen, probe.state.pagesize)
    requires x < p.Length && 0 < p[x].len <= maxlen && probe.state.pagesize > 0 && EndsOnLine(p[x].len, probe.state.line, probe.state.pagesize)
    modifies p, probe`clock, probe`log, probe.state.mem, probe.state.p
    ensures probe.Ready() && probe.clock == old(probe.clock) + 1 && old(probe.log) <= probe.log
    ensures p[..] == old(p[..])[x := old(p[x]).(latency := probe.times(old(probe.clock)))] && probe.times(old(probe.clock)) > 0.0
    ensures EndMeasured(probe, old(probe.clock), p[x], p[x].latency)
    ensures forall y: Sample, c: nat, l: real :: old(EndMeasured(probe, c, y, l)) ==> EndMeasured(probe, c, y, l)
  {
    hide Usable, Measurable, PagesFor, EndsOnLine;
    UsableShape(probe.state);
    SizeMeasurable(p[x].len, maxlen, |probe.state.pages|, probe.state.S());
    MeasurablePages(p[x].len, |probe.state.pages|, probe.state.S());
    var t := probe.Time(p[x].len);
    p[x] := p[x].(latency := t);
  }

  lemma MeasurablePages(len: nat, n: nat, s: Shape)
    requires Measurable(len, n, s)
    ensures s.pagesize > 0 && PagesFor(len, s.pagesize) <= n
  {
  }

  /** What collect_data is given: power-of-two sizes and a maxlen that can be sampled. */
  ghost predicate Arguments(state: MemState, sizes: seq<nat>, line: nat, maxlen: nat)
    reads state
  {
    && state.word > 0 && line > 0 && state.pagesize > 0 && state.p.Length == MAX_MEM_PARALLELISM
    && Shape(state.word, line, state.pagesize, line / state.word, state.pagesize / line).Valid()
    && Samplable(sizes, line, state.pagesize, maxlen) && FullyLinked(maxlen, line, state.pagesize)
  }

  /** The page list afterwards: with pointers as wide as int still all pages of memory. */
  ghost predicate PagesKept(probe: Probe, maxlen: nat)
    reads probe, probe.state, probe.state.mem
  {
    && probe.Ready() && probe.state.pagesize > 0 && |probe.state.pages| == PagesFor(maxlen, probe.state.pagesize)
    && (SafeFrom(probe.Copied(), probe.Total(), 0) ==>
          Reordered(probe.state.pages, InOrderPages(|probe.state.pages|, probe.state.pagesize)))
  }

  /** What collect_data has measured, from the first size to the last, and what search made of it. */
  datatype Trace = Trace(p0: seq<Sample>, visits: seq<Visit>, m: seq<real>)

  /** The first and the last size were measured with the pages in order, all others as search says. */
  ghost predicate Collects(probe: Probe, sizes: seq<nat>, tr: Trace, p: seq<Sample>, avail: nat, clock: nat, faulted: bool)
    reads probe, probe.state
  {
    && Bracketed(tr.p0, sizes) && |p| == |sizes| >= 2 && probe.state.pagesize > 0
    && tr.p0[0].latency == probe.times(clock) && tr.p0[|p| - 1].latency == probe.times(clock + 1)
    && clock + 1 < |probe.log| && probe.log[clock].size == sizes[0] && probe.log[clock + 1].size == sizes[|p| - 1]
    && Traced(SettingOf(probe), probe.log, tr.visits, tr.m, tr.p0, p, 0, |p| - 1,
              T.Status(InOrderPages(|probe.state.pages|, probe.state.pagesize), 0.0, avail, clock + 2, faulted), probe.Current(0.0))
  }

  /**
   collect_data.  All that is asked of the sizes holds for the default ones, whatever the width of a
   pointer and however few pages are spare.
   */
  method CollectData(state: MemState, probe: Probe, start: nat, line: nat, maxlen: nat) returns (p: array<Sample>, ghost tr: Trace)
    requires probe.state == state && Positive(probe.times) && |probe.log| == probe.clock && start >= 4
    requires Arguments(state, Sizes(start, start / 4, 0, maxlen), line, maxlen)
    modifies state, state.p, probe
    ensures Collected(p[..], Sizes(start, start / 4, 0, maxlen))
    ensures Collects(probe, Sizes(start, start / 4, 0, maxlen), tr, p[..], old(probe.availableIndex), old(probe.clock), old(probe.faulted))
    ensures PagesKept(probe, maxlen) && state.pagesize == old(state.pagesize)
    ensures probe.faulted ==> old(probe.faulted) || SomeLeavesOne(Sizes(start, start / 4, 0, maxlen), state.pagesize, maxlen)
  {
    hide Usable, Refined, PagesFor, FullyLinked, Reordered, Multiple, Mul, Samplable, Sizes, Fresh, Collected, Bracketed, LeavesOne, SomeLeavesOne,
      Traced, InOrderPages;
    ghost var sizes := Sizes(start, start / 4, 0, maxlen);
    MaxlenPositive(sizes, line, state.pagesize, maxlen);
    state.width, state.len, state.maxlen, state.line := 1, maxlen, maxlen, line;
    Prepare(state);
    ReadyNow(probe);
    p := Bracket(probe, start, maxlen);
    ghost var p0, log0 := p[..], probe.log;
    BracketedInterior(p0, sizes, state.S(), maxlen);
    BracketedEnds(p0, sizes);
    ghost var visits, m := Search(probe, p, 0, p.Length - 1);
    tr := Trace(p0, visits, m);
    SearchCollects(p[..], p0, sizes);
    OneSpareSize(p0, sizes, state.pagesize, maxlen);
  }

  lemma BracketedEnds(p: seq<Sample>, sizes: seq<nat>)
    requires Bracketed(p, sizes)
    ensures |p| == |sizes| >= 2 && p[0].len == sizes[0] && p[|p| - 1].len == sizes[|p| - 1]
  {
  }

  /** A size between the first and the last leaves a single page of all spare. */
  ghost predicate SomeLeavesOne(sizes: seq<nat>, pagesize: nat, maxlen: nat) {
    pagesize > 0 && exists x :: 0 < x < |sizes| - 1 && LeavesOne(pagesize, maxlen / pagesize, sizes[x])
  }

  lemma OneSpareSize(p: seq<Sample>, sizes: seq<nat>, pagesize: nat, maxlen: nat)
    requires Bracketed(p, sizes) && pagesize > 0
    ensures OneSpare(pagesize, maxlen / pagesize, p, 0, |p| - 1) ==> SomeLeavesOne(sizes, pagesize, maxlen)
  {
    hide LeavesOne;
  }

  lemma MaxlenPositive(sizes: seq<nat>, line: nat, pagesize: nat, maxlen: nat)
    requires Samplable(sizes, line, pagesize, maxlen)
    ensures maxlen > 0
  {
    assert 0 < sizes[0] <= maxlen;
  }

  lemma ReadyNow(probe: Probe)
    requires Usable(probe.state) && Positive(probe.times) && |probe.state.pages| == PagesFor(probe.state.maxlen, probe.state.pagesize)
    requires probe.state.pagesize > 0 && |probe.log| == probe.clock
    ensures probe.Ready()
  {
    hide Usable;
    var len, ps := probe.state.maxlen, probe.state.pagesize;
    DivParts(len, ps);
    DivParts(len + ps - 1, ps);
    hide Mul;
    if len / ps > PagesFor(len, ps) {
      MulLess(PagesFor(len, ps), len / ps, ps);
    }
  }
}
