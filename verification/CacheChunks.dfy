/** remove_chunk, fixup_chunk, test_chunk and collect_sample of cache.c. */
module CacheChunks {
  import opened Arith
  import opened PointerChain
  import opened Lanes
  import opened Tables
  import opened LibMem
  import opened CacheMeasure
  import opened PageLists
  import opened CacheFixup
  import opened CacheTest
  import opened CacheRuns

  // ---------- remove_chunk ----------

  /** remove_chunk measures len less chunk pages. */
  lemma ChunkRemoved(len: nat, npages: nat, chunk: nat, s: Shape)
    requires s.Valid() && npages == PagesFor(len, s.pagesize) && chunk < npages
    requires len % s.pagesize == 0 || s.line <= len % s.pagesize
    ensures Mul(chunk, s.pagesize) < len
    ensures Measurable(len - Mul(chunk, s.pagesize), npages - chunk, s)
    ensures PagesFor(len - Mul(chunk, s.pagesize), s.pagesize) == npages - chunk
    ensures LastOfSize(len - Mul(chunk, s.pagesize), s) == LastOfSize(len, s)
  {
    var ps := s.pagesize;
    assert len > 0 by {
      if len == 0 {
        DivUnique(ps - 1, 0, ps - 1, ps);
      }
    }
    var rem := CeilSplit(len, ps);
    hide PagesFor;
    MulMono(chunk, npages - 1, ps);
    MulPlus(npages - 1 - chunk, chunk, ps);
    var rest := len - Mul(chunk, ps);
    assert rest == Mul(npages - 1 - chunk, ps) + rem;
    PagesOf(rest, npages - 1 - chunk, rem, ps);
    WholeOrPart(len, npages, rem, ps);
    WholeOrPart(rest, npages - chunk, rem, ps);
  }

  lemma PagesOf(size: nat, whole: nat, rem: nat, pagesize: nat)
    requires size == Mul(whole, pagesize) + rem && 1 <= rem <= pagesize
    ensures PagesFor(size, pagesize) == whole + 1
  {
    MulPlus(whole, 1, pagesize);
    MulSmall(pagesize);
    DivUnique(size + pagesize - 1, whole + 1, rem - 1, pagesize);
  }

  /** A length of npages pages whose last page, if partial, holds at least a line. */
  ghost predicate SampleLength(len: nat, npages: nat, s: Shape) {
    s.pagesize > 0 && npages == PagesFor(len, s.pagesize) && (len % s.pagesize == 0 || s.line <= len % s.pagesize)
  }

  /** Another list of pages of memory. */
  lemma Relist(state: MemState, pages: seq<int>)
    requires Usable(state) && |pages| == |state.pages| && Within(pages, state.pages)
    ensures pages != [] && Within(pages, Whole(state).pages)
  {
    hide InPage, BitOrder;
    WithinTrans(pages, state.pages, Whole(state).pages);
  }

  lemma WithinTrans(a: seq<int>, b: seq<int>, c: seq<int>)
    requires Within(a, b) && Within(b, c)
    ensures Within(a, c)
  {
    forall i | 0 <= i < |a| ensures a[i] in c {
      var j :| 0 <= j < |b| && b[j] == a[i];
      assert b[j] in c;
    }
  }

  lemma ReorderedWithin(a: seq<int>, b: seq<int>)
    requires Reordered(a, b)
    ensures Within(a, b) && |a| == |b|
  {
    forall i | 0 <= i < |a| ensures a[i] in b {
      assert a[i] in multiset(a);
      assert a[i] in multiset(b);
    }
    assert |multiset(a)| == |multiset(b)|;
  }

  method SetPages(state: MemState, pages: seq<int>)
    requires Usable(state) && |pages| == |state.pages| && Within(pages, state.pages)
    modifies state`pages
    ensures Usable(state) && state.pages == pages
  {
    hide InPage, BitOrder, Within;
    Relist(state, pages);
    state.pages := pages;
  }

  method SwapPass(state: MemState, i: nat, chunk: nat, npages: nat)
    requires Usable(state) && i + chunk <= npages <= |state.pages|
    modifies state`pages
    ensures Usable(state) && state.pages == Passed(old(state.pages), i, npages, chunk)
  {
    hide Usable, Passed, Reordered, Within;
    var pages := SwapLoop(state.pages, i, chunk, npages);
    PassReorders(state.pages, i, npages, chunk);
    ReorderedWithin(pages, state.pages);
    SetPages(state, pages);
  }

  /**
   remove_chunk: the pages handed to measure are exactly those outside the chunk, the chain is one
   cycle through them unless the list repeats a page, and the list comes back as it was.
   */
  method RemoveChunk(state: MemState, i: nat, chunk: nat, npages: nat, len: nat, time: real)
    returns (t: real, ghost handed: seq<int>, ghost during: seq<int>)
    requires Usable(state) && i + chunk <= npages <= |state.pages| && chunk < npages && SampleLength(len, npages, state.S())
    modifies state`pages, state.mem, state.p
    ensures Usable(state) && state.pages == old(state.pages) && t == time
    ensures |handed| == npages - chunk
    ensures forall x :: x in handed <==> Outside(state.pages, i, npages, chunk, x)
    ensures Distinct(state.pages[..npages]) ==> Chained(during, Layout(handed, state.lines, state.words), LastOfSize(len, state.S()))
  {
    hide Mul, Multiple, Usable, Passed, Chained, PagesFor, Wired, LastOfSize, Distinct;
    ghost var pages0 := state.pages;
    ChunkRemovedOk(state, len, npages, chunk);
    if i + chunk < npages {
      SwapPass(state, i, chunk, npages);
      PassedDistinct(pages0, i, npages, chunk);
    } else {
      TailIsChunk(state.pages, i, npages, chunk);
      PrefixDistinct(pages0, npages, npages - chunk);
    }
    handed := state.pages[..npages - chunk];
    forall x ensures x in handed <==> Outside(pages0, i, npages, chunk, x) {
      if i + chunk < npages {
        PassMovesChunkOut(pages0, i, npages, chunk, x);
      }
    }
    t, during := Measure(state, len - Mul(chunk, state.pagesize), time);
    if Distinct(handed) {
      WiredHanded(during, AllPages(state), len - Mul(chunk, state.pagesize), state.S(), handed);
    }
    if i + chunk < npages {
      SwapPass(state, i, chunk, npages);
      PassTwice(pages0, i, npages, chunk);
    }
  }

  lemma PrefixDistinct(s: seq<int>, n: nat, k: nat)
    requires k <= n <= |s|
    ensures Distinct(s[..n]) ==> Distinct(s[..k])
  {
    if Distinct(s[..n]) {
      forall t, u | 0 <= t < u < k ensures s[..k][t] != s[..k][u] {
        assert s[..n][t] != s[..n][u];
      }
    }
  }

  lemma SwapDistinct(s: seq<int>, n: nat, a: nat, b: nat)
    requires a < n <= |s| && b < n && Distinct(s[..n])
    ensures Distinct(Swap(s, a, b)[..n])
  {
    assert Swap(s, a, b)[..n] == Swap(s[..n], a, b);
    SwapReorders(s[..n], a, b);
    ReorderedDistinct(Swap(s[..n], a, b), s[..n]);
  }

  lemma {:induction false} PassDistinct(s: seq<int>, i: nat, n: nat, c: nat)
    requires i + c <= n <= |s| && Distinct(s[..n])
    ensures Distinct(Passed(s, i, n, c)[..n])
  {
    hide Swap, Distinct;
    if c > 0 {
      PassDistinct(s, i, n, c - 1);
      SwapDistinct(Passed(s, i, n, c - 1), n, i + c - 1, n - c);
    }
  }

  lemma PassedDistinct(s: seq<int>, i: nat, n: nat, c: nat)
    requires i + c <= n <= |s|
    ensures Distinct(s[..n]) ==> Distinct(Passed(s, i, n, c)[..n - c])
  {
    hide Passed, Distinct;
    if Distinct(s[..n]) {
      PassDistinct(s, i, n, c);
      PrefixDistinct(Passed(s, i, n, c), n, n - c);
    }
  }

  lemma WiredHanded(during: seq<int>, g: Layout, size: nat, s: Shape, handed: seq<int>)
    requires Measurable(size, |g.pages|, s) && Wired(during, g, size, s)
    requires handed == g.pages[..PagesFor(size, s.pagesize)]
    ensures Chained(during, Layout(handed, g.lines, g.words), LastOfSize(size, s))
  {
    hide Chained, PagesFor;
  }

  lemma ChunkRemovedOk(state: MemState, len: nat, npages: nat, chunk: nat)
    requires Usable(state) && npages <= |state.pages| && chunk < npages && SampleLength(len, npages, state.S())
    ensures Mul(chunk, state.pagesize) < len
    ensures Measurable(len - Mul(chunk, state.pagesize), |state.pages|, state.S())
    ensures PagesFor(len - Mul(chunk, state.pagesize), state.pagesize) == npages - chunk
    ensures LastOfSize(len - Mul(chunk, state.pagesize), state.S()) == LastOfSize(len, state.S())
  {
    hide Mul, PagesFor;
    ChunkRemoved(len, npages, chunk, state.S());
  }

  /** A chunk at the end of the list is already out of the way. */
  lemma TailIsChunk(s: seq<int>, i: nat, n: nat, c: nat)
    requires i + c == n <= |s|
    ensures forall x :: x in s[..n - c] <==> Outside(s, i, n, c, x)
  {
    forall x ensures x in s[..n - c] <==> Outside(s, i, n, c, x) {
      if Outside(s, i, n, c, x) {
        var a :| 0 <= a < n && !(i <= a < i + c) && s[a] == x;
        assert s[..n - c][a] == x;
      }
    }
  }

  // ---------- measurements that fixup_chunk and test_chunk make ----------

  /** Whole pages can be measured. */
  lemma WholePagesMeasurable(q: nat, npages: nat, s: Shape)
    requires s.Valid() && 1 <= q <= npages
    ensures Measurable(Mul(q, s.pagesize), npages, s)
  {
    MulLess(q - 1, q, s.pagesize);
    MulPlus(q - 1, 1, s.pagesize);
    MulSmall(s.pagesize);
    PagesOf(Mul(q, s.pagesize), q - 1, s.pagesize, s.pagesize);
    MulMultiple(q, s.pagesize);
  }

  lemma SampleMeasurable(len: nat, npages: nat, n: nat, s: Shape)
    requires s.Valid() && SampleLength(len, npages, s) && 1 <= npages <= n
    ensures Measurable(len, n, s)
  {
    if len == 0 {
      DivUnique(s.pagesize - 1, 0, s.pagesize - 1, s.pagesize);
    }
  }

  /** The ranges tested follow each other without gap or overlap from lo to hi. */
  ghost predicate Tiles(tested: seq<(nat, nat)>, lo: nat, hi: nat)
    decreases |tested|
  {
    if tested == [] then lo == hi
    else
      var n := |tested| - 1;
      tested[n].1 > 0 && tested[n].0 + tested[n].1 == hi && Tiles(tested[..n], lo, tested[n].0)
  }

  /** All ranges but the last have this size, and the last one is cut off at end. */
  ghost predicate EvenTiles(tested: seq<(nat, nat)>, size: nat, end: nat) {
    forall k :: 0 <= k < |tested| ==> tested[k].1 == if tested[k].0 + size > end then end - tested[k].0 else size
  }

  lemma TilesNone(lo: nat, size: nat, end: nat)
    ensures Tiles([], lo, lo) && EvenTiles([], size, end)
  {
  }

  lemma TilesMore(tested: seq<(nat, nat)>, lo: nat, mid: nat, here: nat, size: nat, end: nat)
    requires Tiles(tested, lo, mid) && EvenTiles(tested, size, end) && here > 0 && here == if mid + size > end then end - mid else size
    ensures Tiles(tested + [(mid, here)], lo, mid + here) && EvenTiles(tested + [(mid, here)], size, end)
  {
    assert (tested + [(mid, here)])[..|tested|] == tested;
  }

  /**
   Entries restored by copying sizeof(int) bytes for each of total entries.  Offsets fit an int, so an entry
   of which only part is copied is restored exactly where its low bytes come first.
   */
  function WholeEntries(total: nat, word: nat, littleEndian: bool): (c: nat)
    ensures c <= total
  {
    if word <= SIZEOF_INT then total
    else
      FewerCopied(total, word);
      (SIZEOF_INT * total + if littleEndian then word - 1 else 0) / word
  }

  /**
   What is measured to try the spare page at substitute in slot j: the pages up to that slot with it in
   place, or, for the last slot of a sample with a partial last page, the sample itself.
   */
  ghost function Tried(f: Call, pages: seq<int>, j: nat, len: nat, pagesize: nat, substitute: nat): Run
    requires f.Valid(pages) && j < f.chunk && substitute < |pages| && pagesize > 0
  {
    Run(Swap(pages, f.Slot(j), substitute)[..f.Slot(j) + 1],
        if j == f.chunk - 1 && len % pagesize != 0 then len else Mul(f.Slot(j) + 1, pagesize))
  }

  /** One more run has been measured: of exactly the pages outside the chunk, with as much less. */
  ghost predicate WithoutChunk(log: seq<Run>, log0: seq<Run>, pages: seq<int>, i: nat, chunk: nat, npages: nat, len: nat, pagesize: nat)
    requires i + chunk <= npages <= |pages|
  {
    && |log| == |log0| + 1 && log0 <= log
    && var run := log[|log0|];
    && |run.pages| == npages - chunk && run.size == len - Mul(chunk, pagesize)
    && forall x :: x in run.pages <==> Outside(pages, i, npages, chunk, x)
  }

  lemma WithoutChunkNow(log: seq<Run>, pages: seq<int>, handed: seq<int>, i: nat, chunk: nat, npages: nat, len: nat, pagesize: nat)
    requires i + chunk <= npages <= |pages| && |handed| == npages - chunk && Mul(chunk, pagesize) <= len
    requires forall x :: x in handed <==> Outside(pages, i, npages, chunk, x)
    ensures WithoutChunk(log + [Run(handed, len - Mul(chunk, pagesize))], log, pages, i, chunk, npages, len, pagesize)
  {
    hide Mul, Outside;
  }

  lemma TriedPages(f: Call, pages: seq<int>, j: nat, len: nat, s: Shape, substitute: nat)
    requires f.Valid(pages) && j < f.chunk && substitute < |pages| && s.Valid() && SampleLength(len, f.npages, s)
    ensures var run := Tried(f, pages, j, len, s.pagesize, substitute);
            && run.pages != [] && Last(run.pages) == pages[substitute]
            && PagesFor(run.size, s.pagesize) == f.Slot(j) + 1
  {
    hide Mul;
    PagesOfWhole(f.Slot(j) + 1, s.pagesize);
  }

  lemma PagesOfWhole(q: nat, pagesize: nat)
    requires q >= 1 && pagesize > 0
    ensures PagesFor(Mul(q, pagesize), pagesize) == q
  {
    hide PagesFor;
    MulPlus(q - 1, 1, pagesize);
    MulSmall(pagesize);
    PagesOf(Mul(q, pagesize), q - 1, pagesize, pagesize);
  }

  /** Exactly those entries are restored whose low bytes are among the bytes copied. */
  lemma EntriesRestored(total: nat, word: nat, littleEndian: bool, k: nat)
    requires word >= SIZEOF_INT && Multiple(word, SIZEOF_INT)
    ensures k < WholeEntries(total, word, littleEndian) <==>
            if littleEndian then Mul(k, word) + SIZEOF_INT <= SIZEOF_INT * total else Mul(k + 1, word) <= SIZEOF_INT * total
  {
    hide Mul, Multiple;
    var bytes := SIZEOF_INT * total;
    MulPlus(k, 1, word);
    MulSmall(word);
    if word == SIZEOF_INT {
      MulCommutes(k, word);
      MulIsFour(k);
    } else if littleEndian {
      QuotientAbove(bytes + word - 1, word, k);
      WholeSteps(k, word, total);
    } else {
      QuotientAbove(bytes, word, k);
    }
  }

  lemma MulIsFour(k: nat)
    ensures Mul(SIZEOF_INT, k) == SIZEOF_INT * k
  {
  }

  lemma QuotientAbove(x: nat, unit: nat, k: nat)
    requires unit > 0
    ensures k < x / unit <==> Mul(k + 1, unit) <= x
  {
    hide Mul;
    DivParts(x, unit);
    MulPlus(x / unit, 1, unit);
    MulSmall(unit);
    if k < x / unit {
      MulMono(k + 1, x / unit, unit);
    } else {
      MulMono(x / unit + 1, k + 1, unit);
    }
  }

  /** A multiple of int below another is below it by an int. */
  lemma WholeSteps(k: nat, word: nat, total: nat)
    requires Multiple(word, SIZEOF_INT)
    ensures Mul(k, word) < SIZEOF_INT * total <==> Mul(k, word) + SIZEOF_INT <= SIZEOF_INT * total
  {
    hide Mul;
    var q := MultipleQuotient(word, SIZEOF_INT);
    MulAssoc(k, q, SIZEOF_INT);
    MulCommutes(Mul(k, q), SIZEOF_INT);
    MulIsFour(Mul(k, q));
  }

  /** The list, the memory behind it, and the static and global state that the search for better pages uses. */
  class Probe {
    const state: MemState
    const littleEndian: bool
    const times: nat -> real  // what the measurements return, in the order in which they are made
    var clock: nat            // measurements so far
    var availableIndex: nat   // static in fixup_chunk
    var faulted: bool         // a remainder by zero has been taken
    ghost var log: seq<Run>   // what has been measured

    constructor (state: MemState, littleEndian: bool, times: nat -> real)
      ensures this.state == state && this.littleEndian == littleEndian && this.times == times && clock == 0 && availableIndex == 0 && !faulted && log == []
    {
      this.state := state;
      this.littleEndian := littleEndian;
      this.times := times;
      clock, availableIndex, faulted, log := 0, 0, false, [];
    }

    /** Pages in maxlen. */
    function Total(): nat
      reads state
    {
      if state.pagesize == 0 then 0 else state.maxlen / state.pagesize
    }

    /** Entries of the page list that bcopy copies back. */
    function Copied(): (c: nat)
      reads state
      ensures c <= Total()
    {
      WholeEntries(Total(), state.word, littleEndian)
    }

    ghost predicate Ready()
      reads this, state, state.mem
    {
      Usable(state) && Positive(times) && Total() <= |state.pages| && |log| == clock
    }

    /** What one call of fixup_chunk works on. */
    function Job(i: nat, chunk: nat, npages: nat): Call
      reads state
    {
      Call(npages, Total(), Copied(), i, chunk, times)
    }

    /** What a sample of npages pages runs on. */
    function Sample(npages: nat): Ground
      reads state
    {
      Ground(npages, Total(), Copied(), times)
    }

    /** What its calls work on, as it is. */
    ghost function Current(baseline: real): Status
      reads this, state
    {
      Status(state.pages, baseline, availableIndex, clock, faulted)
    }

    /** The list and the latencies as they are. */
    ghost function Now(lat: array<real>): Work
      reads this, state, lat
    {
      Work(state.pages, lat[..], clock)
    }

    method Exchange(a: nat, b: nat)
      requires Usable(state) && a < |state.pages| && b < |state.pages|
      modifies state`pages
      ensures Usable(state) && state.pages == Swap(old(state.pages), a, b)
    {
      hide Usable, Reordered, Swap, Within;
      SwapReorders(state.pages, a, b);
      ReorderedWithin(Swap(state.pages, a, b), state.pages);
      SetPages(state, Swap(state.pages, a, b));
    }

    /** The loop that exchanges the chunk with the end of the first npages pages. */
    method MoveChunk(i: nat, chunk: nat, npages: nat)
      requires Usable(state) && i + chunk <= npages <= |state.pages|
      modifies state`pages
      ensures Usable(state) && state.pages == Moved(old(state.pages), i, npages - chunk - i, chunk)
    {
      hide Usable, Swap;
      var j := 0;
      while j < chunk
        invariant j <= chunk && Usable(state)
        invariant |state.pages| == |old(state.pages)| && state.pages == Moved(old(state.pages), i, npages - chunk - i, j)
      {
        Exchange(i + j, npages - chunk + j);
        j := j + 1;
      }
    }

    /** The chunk moves to the end of the pages in use, or back, unless it is there. */
    method MoveToEnd(f: Call)
      requires Usable(state) && f.Valid(state.pages)
      modifies state`pages
      ensures Usable(state) && state.pages == MovedChunk(f, old(state.pages))
    {
      hide Usable, Moved;
      if f.i + f.chunk < f.npages {
        MoveChunk(f.i, f.chunk, f.npages);
      }
    }

    /** A measurement of the first pages of the list leaves the list alone. */
    method Time(size: nat) returns (t: real)
      requires Usable(state) && Measurable(size, |state.pages|, state.S())
      modifies state.mem, state.p, this`clock, this`log
      ensures Usable(state) && t == times(old(clock)) && clock == old(clock) + 1
      ensures log == old(log) + [Run(state.pages[..PagesFor(size, state.pagesize)], size)]
    {
      hide Usable, Wired;
      ghost var during;
      t, during := Measure(state, size, times(clock));
      log := log + [Run(state.pages[..PagesFor(size, state.pagesize)], size)];
      clock := clock + 1;
    }

    /** bcopy of sizeof(int) bytes per page from the saved list. */
    method BackOut(ghost f: Call, savedPages: seq<int>)
      requires Usable(state) && f.copied == Copied() <= |savedPages| == |state.pages|
      requires Within(savedPages, Whole(state).pages)
      modifies state`pages
      ensures Usable(state) && state.pages == Restored(f, savedPages, old(state.pages))
    {
      hide InPage, BitOrder;
      state.pages := savedPages[..Copied()] + state.pages[Copied()..];
    }

    /**
     First loop of fixup_chunk: the pages of the first j slots cost nothing to add, the others do, as
     last measured; pages outside the last chunk stay where they are.
     */
    method KeepGood(f: Call, lat: array<real>, limit: real) returns (j: nat)
      requires Ready() && f.Valid(state.pages) && f.times == times && f.chunk <= lat.Length
      modifies state`pages, state.mem, state.p, this`clock, this`log, lat
      ensures Ready() && j <= f.chunk && (Now(lat), j) == Keep(f, old(Now(lat)), limit, 0, f.chunk)
      ensures Outer(state.pages, old(state.pages), f.npages - f.chunk, f.npages)
      ensures forall t :: 0 <= t < j ==> 0.995 * lat[t] <= limit
      ensures forall t :: j <= t < f.chunk ==> 0.995 * lat[t] > limit
      ensures old(log) <= log && |log| == |old(log)| + f.chunk && AllVouched(f, Now(lat), log, 0, f.chunk)
    {
      hide Usable, Positive, Outer, Keep, AllVouched;
      NoneVouched(f, Now(lat), log);
      ghost var result := Keep(f, Now(lat), limit, 0, f.chunk);
      OuterSame(state.pages, f.npages - f.chunk, f.npages);
      j := 0;
      var k := f.chunk;
      while j < k
        invariant j <= k <= f.chunk && Ready() && |state.pages| == |old(state.pages)|
        invariant Keep(f, Now(lat), limit, j, k) == result
        invariant Outer(state.pages, old(state.pages), f.npages - f.chunk, f.npages)
        invariant forall t :: 0 <= t < j ==> 0.995 * lat[t] <= limit
        invariant forall t :: k <= t < f.chunk ==> 0.995 * lat[t] > limit
        invariant old(log) <= log && |log| == |old(log)| + j + f.chunk - k && AllVouched(f, Now(lat), log, 0, j) && AllVouched(f, Now(lat), log, k, f.chunk)
        decreases k - j
      {
        ghost var before := state.pages;
        j, k := Sift(f, lat, limit, j, k);
        OuterTrans(state.pages, before, old(state.pages), f.npages - f.chunk, f.npages);
      }
      KeepEnd(f, Now(lat), limit, j);
      VouchedJoin(f, Now(lat), log, j);
    }

    /** One round: measure with the page in slot j added, then keep it, or put it behind the others. */
    method Sift(f: Call, lat: array<real>, limit: real, j0: nat, k0: nat) returns (j: nat, k: nat)
      requires Ready() && f.Valid(state.pages) && f.times == times && j0 < k0 <= f.chunk <= lat.Length
      requires AllVouched(f, Now(lat), log, 0, j0) && AllVouched(f, Now(lat), log, k0, f.chunk)
      modifies state`pages, state.mem, state.p, this`clock, this`log, lat
      ensures Ready() && |state.pages| == |old(state.pages)| && j <= k <= k0
      ensures Keep(f, Now(lat), limit, j, k) == Keep(f, old(Now(lat)), limit, j0, k0)
      ensures Outer(state.pages, old(state.pages), f.npages - f.chunk, f.npages)
      ensures (j == j0 + 1 && k == k0 && 0.995 * lat[j0] <= limit) || (j == j0 && k == k0 - 1 && 0.995 * lat[k] > limit)
      ensures forall t :: 0 <= t < lat.Length && !(j0 <= t < j || k <= t < k0) ==> lat[t] == old(lat[t])
      ensures log == old(log) + [Run(old(state.pages)[..f.Slot(j0) + 1], Mul(f.Slot(j0) + 1, state.pagesize))]
      ensures AllVouched(f, Now(lat), log, 0, j) && AllVouched(f, Now(lat), log, k, f.chunk)
    {
      hide Usable, Mul, Measurable, Outer, Swap, Positive, PagesFor, AllVouched;
      j, k := j0, k0;
      ghost var w, log0, run := Now(lat), log, Run(state.pages[..f.Slot(j) + 1], Mul(f.Slot(j) + 1, state.pagesize));
      TimeWhole(state, f.Slot(j) + 1);
      var t := Time(Mul(f.Slot(j) + 1, state.pagesize));
      OuterSame(state.pages, f.npages - f.chunk, f.npages);
      if 0.995 * t <= limit {
        lat[j] := t;
        assert Now(lat) == Work(w.pages, w.lat[j := t], w.clock + 1);
        KeptVouched(f, w, log0, run, j, k);
        j := j + 1;
      } else {
        PutVouched(f, w, log0, run, j, k);
        k := k - 1;
        lat[k] := t;
        Exchange(f.Slot(j), f.Slot(k));
        assert Now(lat) == Work(Swap(w.pages, f.Slot(j), f.Slot(k)), w.lat[k := t], w.clock + 1);
        OuterSwap(w.pages, w.pages, f.npages - f.chunk, f.npages, f.Slot(j), f.Slot(k));
      }
    }

    /** Sort the pages that are not kept by increasing latency. */
    method SortRest(f: Call, j: nat, lat: array<real>)
      requires Usable(state) && f.Valid(state.pages) && j <= f.chunk <= lat.Length
      modifies state`pages, lat
      ensures Usable(state) && |state.pages| == |old(state.pages)| && Now(lat) == SortFrom(f, old(Now(lat)), j)
      ensures Sorting(state.pages, old(state.pages), lat[..], old(lat[..]), f.npages - f.chunk + j, f.chunk - j, j)
      ensures Ascending(lat[..], j, f.chunk - j) && forall t :: 0 <= t < j ==> lat[t] == old(lat[t])
      ensures old(AllVouched(f, Now(lat), log, 0, f.chunk)) ==> AllVouched(f, Now(lat), log, 0, f.chunk)
    {
      hide Usable, Pairs, Sorted, Within, AllVouched;
      ghost var w := Now(lat);
      var pages := Pagesort(state.pages, f.Slot(j), f.chunk - j, lat, j);
      ReorderedWithin(pages, state.pages);
      SetPages(state, pages);
      if AllVouched(f, w, log, 0, f.chunk) {
        SortedVouched(f, w, Now(lat), log, j);
      }
    }

    /** One candidate: it takes the place of the worst page when it measures better. */
    method TrySpare(f: Call, j: nat, len: nat, lat: array<real>, ghost avail: nat, ghost k: nat, original: nat, substitute: nat)
      requires Ready() && f.Valid(state.pages) && f.times == times && f.Spare() != 1 && j < f.chunk <= lat.Length
      requires original == f.Slot(j) && substitute == Substitute(f, avail, k) < |state.pages|
      requires SampleLength(len, f.npages, state.S()) && Ascending(lat[..], j, f.chunk - j) && AllVouched(f, Now(lat), log, 0, f.chunk)
      modifies state`pages, state.mem, state.p, this`clock, this`log, lat
      ensures Ready() && |state.pages| == |old(state.pages)| && Now(lat) == Try(f, old(Now(lat)), avail, j, k)
      ensures Ascending(lat[..], j, f.chunk - j) && forall t :: 0 <= t < j ==> lat[t] == old(lat[t])
      ensures AllVouched(f, Now(lat), log, 0, f.chunk) && state.pagesize > 0
      ensures log == old(log) + [Run(Swap(old(state.pages), original, substitute)[..original + 1],
                                     if j == f.chunk - 1 && len % state.pagesize != 0 then len else Mul(original + 1, state.pagesize))]
    {
      hide Usable, Mul, Measurable, Sorting, Ascending, Swap, SortFrom, Substitute, SampleLength, AllVouched, PagesFor;
      UsableShape(state);
      ghost var w, log0, run := Now(lat), log, Tried(f, state.pages, j, len, state.pagesize, substitute);
      TriedPages(f, state.pages, j, len, state.S(), substitute);
      Exchange(original, substitute);
      TimeWhole(state, original + 1);
      TimeSample(state, len, f.npages);
      var t := Time(if j == f.chunk - 1 && len % state.pagesize != 0 then len else Mul(original + 1, state.pagesize));
      Exchange(original, substitute);
      SwapBack(w.pages, original, substitute);
      if t < lat[f.chunk - 1] {
        lat[f.chunk - 1] := t;
        Exchange(f.npages - 1, substitute);
        assert Now(lat) == Work(Swap(w.pages, f.npages - 1, substitute), w.lat[f.chunk - 1 := t], w.clock + 1);
        TakenVouched(f, w, log0, run, substitute);
        SortRest(f, j, lat);
      } else {
        AllVouchedMore(f, w, Now(lat), log0, run, 0, f.chunk);
      }
    }

    /**
     Second loop of fixup_chunk: substitute spare pages for the bad ones, one candidate at a time.  A
     slot is passed only when the latency recorded for it costs nothing, and the rest stays sorted.
     */
    method TrySpares(f: Call, j0: nat, len: nat, lat: array<real>, limit: real)
      returns (j: nat, k: nat, swapped: nat)
      requires Ready() && f.Valid(state.pages) && f.times == times && f.Spare() != 1 && j0 <= f.chunk <= lat.Length
      requires SampleLength(len, f.npages, state.S()) && Ascending(lat[..], j0, f.chunk - j0) && AllVouched(f, Now(lat), log, 0, f.chunk)
      modifies state`pages, state.mem, state.p, this`clock, this`log, lat
      ensures Ready() && |state.pages| == |old(state.pages)|
      ensures (Now(lat), j, k) == TryAll(f, old(Now(lat)), limit, availableIndex, j0, 0)
      ensures j0 <= j <= f.chunk && swapped == j - j0 && k <= 2 * f.npages && (j < f.chunk ==> k == 2 * f.npages)
      ensures Ascending(lat[..], j, f.chunk - j)
      ensures forall t :: j0 <= t < j ==> 0.995 * lat[t] <= limit
      ensures forall t :: 0 <= t < j0 ==> lat[t] == old(lat[t])
      ensures old(log) <= log && |log| == |old(log)| + k && AllVouched(f, Now(lat), log, 0, f.chunk)
    {
      hide Usable, SampleLength, TryAll, Positive, AllVouched, Ascending;
      ghost var result := TryAll(f, Now(lat), limit, availableIndex, j0, 0);
      j, k, swapped := j0, 0, 0;
      while j < f.chunk && k < 2 * f.npages
        invariant j0 <= j <= f.chunk && swapped == j - j0 && 0 <= k <= 2 * f.npages
        invariant Ready() && |state.pages| == |old(state.pages)|
        invariant old(log) <= log && |log| == |old(log)| + k && AllVouched(f, Now(lat), log, 0, f.chunk)
        invariant TryAll(f, Now(lat), limit, availableIndex, j, k) == result
        invariant Ascending(lat[..], j, f.chunk - j)
        invariant forall t :: j0 <= t < j ==> 0.995 * lat[t] <= limit
        invariant forall t :: 0 <= t < j0 ==> lat[t] == old(lat[t])
        decreases 2 * f.npages - k
      {
        var passed := TryRound(f, j, k, len, lat, limit);
        if passed {
          j := j + 1;
          swapped := swapped + 1;
        }
        k := k + 1;
      }
      TryAllEnd(f, Now(lat), limit, availableIndex, j, k);
    }

    /** Round k of that loop, for slot j: whether the slot is passed. */
    method TryRound(f: Call, j: nat, k: nat, len: nat, lat: array<real>, limit: real) returns (passed: bool)
      requires Ready() && f.Valid(state.pages) && f.times == times && f.Spare() != 1 && j < f.chunk <= lat.Length && k < 2 * f.npages
      requires SampleLength(len, f.npages, state.S()) && Ascending(lat[..], j, f.chunk - j) && AllVouched(f, Now(lat), log, 0, f.chunk)
      modifies state`pages, state.mem, state.p, this`clock, this`log, lat
      ensures Ready() && |state.pages| == |old(state.pages)| && (passed <==> 0.995 * lat[j] <= limit)
      ensures var j' := if passed then j + 1 else j;
              && TryAll(f, Now(lat), limit, availableIndex, j', k + 1) == TryAll(f, old(Now(lat)), limit, availableIndex, j, k)
              && Ascending(lat[..], j', f.chunk - j')
      ensures forall t :: 0 <= t < j ==> lat[t] == old(lat[t])
      ensures old(log) <= log && |log| == |old(log)| + 1 && AllVouched(f, Now(lat), log, 0, f.chunk)
    {
      hide Usable, SampleLength, Try, TryAll, Substitute, Positive, AllVouched;
      TryAllStep(f, Now(lat), limit, availableIndex, j, k);
      TrySpare(f, j, len, lat, availableIndex, k, f.Slot(j), Substitute(f, availableIndex, k));
      passed := 0.995 * lat[j] <= limit;
    }

    /** The slots to be replaced, sorted; when most of a chunk that is everything is bad, only from the middle on. */
    method SortOut(f: Call, lat: array<real>, chunkBaseline: real) returns (j: nat, limit: real)
      requires Ready() && f.Valid(state.pages) && f.times == times && f.chunk <= lat.Length
      modifies state`pages, state.mem, state.p, this`clock, this`log, lat
      ensures Ready() && |state.pages| == |old(state.pages)| && j <= f.chunk && Ascending(lat[..], j, f.chunk - j)
      ensures var kept := Keep(f, old(Now(lat)), chunkBaseline, 0, f.chunk);
              && (Now(lat), limit, j) == Between(f, kept.0, chunkBaseline, kept.1)
              && (if f.chunk >= f.npages && kept.1 < f.chunk / 2
                  then j == f.chunk / 2 && clock > 0 && limit == times(clock - 1)
                       && log[clock - 1] == Run(state.pages[..f.Slot(j) + 1], Mul(f.Slot(j) + 1, state.pagesize))
                  else j == kept.1 && limit == chunkBaseline)
      ensures old(log) <= log && AllVouched(f, Now(lat), log, 0, f.chunk)
      ensures f.chunk < f.npages ==> |log| == |old(log)| + f.chunk && limit == chunkBaseline && forall t :: 0 <= t < j ==> 0.995 * lat[t] <= limit
    {
      hide Usable, Mul, Measurable, Keep, SortFrom, Sorting, Outer, AllVouched, PagesFor;
      limit := chunkBaseline;
      j := KeepGood(f, lat, limit);
      SortRest(f, j, lat);
      if f.chunk >= f.npages && j < f.chunk / 2 {
        j := f.chunk / 2;
        TimeWhole(state, f.Slot(j) + 1);
        ghost var log0, run := log, Run(state.pages[..f.Slot(j) + 1], Mul(f.Slot(j) + 1, state.pagesize));
        ghost var w := Now(lat);
        limit := Time(Mul(f.Slot(j) + 1, state.pagesize));
        AllVouchedMore(f, w, Now(lat), log0, run, 0, f.chunk);
      }
    }

    /** fixup_chunk up to the comparison with the old baseline: the spare pages that were taken in. */
    method SubstituteBad(f: Call, len: nat, chunkBaseline: real) returns (swapped: nat, rounds: nat)
      requires Ready() && f.Valid(state.pages) && f.times == times && f.Spare() != 1 && SampleLength(len, f.npages, state.S())
      modifies state`pages, state.mem, state.p, this`clock, this`log
      ensures Ready() && |state.pages| == |old(state.pages)|
      ensures var r := Substituted(f, old(state.pages), chunkBaseline, availableIndex, old(clock));
              state.pages == r.0.pages && clock == r.0.clock && swapped == r.1 && rounds == r.2
      ensures old(log) <= log && (f.chunk < f.npages ==> |log| == |old(log)| + f.chunk + rounds)
      ensures f.chunk < f.npages && rounds < 2 * f.npages ==> GoodChunk(f, state.pages, log, chunkBaseline)
    {
      hide Usable, SampleLength, Keep, Between, TryAll, MovedChunk, Ascending, Positive, AllVouched, GoodChunk;
      var latencies := new real[MOST](_ => 0.0);
      assert latencies[..] == seq(MOST, _ => 0.0);
      MoveToEnd(f);
      var j, limit := SortOut(f, latencies, chunkBaseline);
      j, rounds, swapped := TrySpares(f, j, len, latencies, limit);
      if f.chunk < f.npages && rounds < 2 * f.npages {
        VouchedGood(f, Now(latencies), log, chunkBaseline);
      }
    }

    /** The end of fixup_chunk: keep what was swapped when it pays, else copy the saved list back. */
    method KeepOrBackOut(f: Call, savedPages: seq<int>, swapped0: nat, len: nat, baseline0: real) returns (swapped: nat, baseline: real)
      requires Ready() && f == Job(f.i, f.chunk, f.npages) && f.Valid(state.pages) && SampleLength(len, f.npages, state.S())
      requires |savedPages| == |state.pages| && Within(savedPages, Whole(state).pages) && baseline0 > 0.0
      modifies state`pages, state.mem, state.p, this`clock, this`log
      ensures Ready() && |state.pages| == |old(state.pages)|
      ensures swapped0 == 0 ==> state.pages == old(state.pages) && baseline == baseline0 && swapped == 0 && clock == old(clock)
      ensures swapped0 > 0 ==> clock == old(clock) + 1
      ensures swapped0 > 0 && times(old(clock)) >= 0.999 * baseline0 ==>
                state.pages == Restored(f, savedPages, old(state.pages)) && baseline == baseline0 && swapped == 0
      ensures swapped0 > 0 && times(old(clock)) < 0.999 * baseline0 ==>
                state.pages == MovedChunk(f, old(state.pages)) && baseline == times(old(clock)) && swapped == swapped0
      ensures log == if swapped0 > 0 then old(log) + [Run(old(state.pages)[..f.npages], len)] else old(log)
    {
      hide Usable, SampleLength, Measurable, MovedChunk, Restored, Within, PagesFor;
      swapped, baseline := swapped0, baseline0;
      if swapped > 0 {
        TimeSample(state, len, f.npages);
        var newBaseline := Time(len);
        if newBaseline >= 0.999 * baseline {
          swapped := 0;
          BackOut(f, savedPages);
        } else {
          baseline := newBaseline;
          MoveToEnd(f);
        }
      }
    }

    /**
     fixup_chunk computes Fixed from what it measures, unless exactly one page is spare: then it takes a
     remainder by zero.  The baseline only ever goes down, and only for substitutions that are kept; unless the
     tries ran out, each page of the chunk then cost nothing when it was measured.
     */
    method FixupChunk(i: nat, chunk: nat, npages: nat, len: nat, baseline0: real, chunkBaseline: real)
      returns (swapped: nat, baseline: real, ghost rounds: nat)
      requires Ready() && 1 <= chunk <= MOST && i + chunk <= npages <= Total() && SampleLength(len, npages, state.S()) && baseline0 > 0.0
      modifies this, state`pages, state.mem, state.p
      ensures Ready() && |state.pages| == |old(state.pages)|
      ensures faulted == (old(faulted) || Total() == npages + 1)
      ensures Total() == npages + 1 ==>
                && state.pages == old(state.pages) && swapped == 0 && baseline == baseline0
                && availableIndex == old(availableIndex) && clock == old(clock)
      ensures Total() != npages + 1 ==>
                (Outcome(state.pages, baseline, swapped, availableIndex, clock) ==
                 Fixed(Job(i, chunk, npages), old(state.pages), baseline0, chunkBaseline, old(availableIndex), old(clock)))
      ensures 0.0 < baseline <= baseline0
      ensures if swapped > 0 then baseline < 0.999 * baseline0 else baseline == baseline0
      ensures old(log) <= log
      ensures swapped > 0 && chunk < npages && rounds < 2 * npages ==> GoodPages(log, times, state.pages, i, chunk, chunkBaseline)
      ensures swapped > 0 ==> clock > 0 && baseline == times(clock - 1) && log[clock - 1].size == len
      ensures Total() != npages + 1 ==>
                var f := Job(i, chunk, npages);
                forall k: nat :: Substitute(f, availableIndex, k) ==
                                 Substitute(f, if old(availableIndex) >= f.Spare() then 0 else old(availableIndex), rounds + k)
    {
      hide Usable, SampleLength, Fixed, GoodPages, Substitute, WholeEntries;
      if Total() == npages + 1 {
        faulted := true;
        return 0, baseline0, 0;
      }
      swapped, baseline, rounds := FixupSpare(Job(i, chunk, npages), len, baseline0, chunkBaseline);
    }

    /** fixup_chunk with another number of spare pages than one. */
    method FixupSpare(f: Call, len: nat, baseline0: real, chunkBaseline: real) returns (swapped: nat, baseline: real, ghost rounds: nat)
      requires Ready() && f == Job(f.i, f.chunk, f.npages) && f.Valid(state.pages) && f.Spare() != 1
      requires SampleLength(len, f.npages, state.S()) && baseline0 > 0.0
      modifies this`clock, this`log, this`availableIndex, state`pages, state.mem, state.p
      ensures Ready() && |state.pages| == |old(state.pages)|
      ensures Outcome(state.pages, baseline, swapped, availableIndex, clock) ==
              Fixed(f, old(state.pages), baseline0, chunkBaseline, old(availableIndex), old(clock))
      ensures 0.0 < baseline <= baseline0
      ensures if swapped > 0 then baseline < 0.999 * baseline0 else baseline == baseline0
      ensures old(log) <= log
      ensures swapped > 0 && f.chunk < f.npages && rounds < 2 * f.npages ==> GoodPages(log, times, state.pages, f.i, f.chunk, chunkBaseline)
      ensures swapped > 0 ==> clock > 0 && baseline == times(clock - 1) && log[clock - 1].size == len
      ensures forall k: nat :: Substitute(f, availableIndex, k) ==
                               Substitute(f, if old(availableIndex) >= f.Spare() then 0 else old(availableIndex), rounds + k)
    {
      hide GoodChunk, GoodPages, Substitute, Usable, SampleLength, Substituted, MovedChunk, Restored, Within, NextAvailable, WholeEntries;
      var savedPages := state.pages;
      SavedWithin(state);
      if availableIndex >= f.Spare() {
        availableIndex := 0;
      }
      ghost var avail := availableIndex;
      var r;
      swapped, r := SubstituteBad(f, len, chunkBaseline);
      rounds := r;
      availableIndex := NextAvailable(f, availableIndex, r);
      forall k: nat ensures Substitute(f, availableIndex, k) == Substitute(f, avail, rounds + k) {
        RoundsGoOn(f, avail, rounds, k);
      }
      ghost var pages1, log1 := state.pages, log;
      swapped, baseline := KeepOrBackOut(f, savedPages, swapped, len, baseline0);
      if swapped > 0 && f.chunk < f.npages && rounds < 2 * f.npages {
        GoodMovedBack(f, pages1, log1, log, chunkBaseline);
      }
    }

    /** remove_chunk with the next measurement. */
    method Removed(i: nat, chunk: nat, npages: nat, len: nat) returns (t: real)
      requires Ready() && i + chunk <= npages <= |state.pages| && chunk < npages && SampleLength(len, npages, state.S())
      modifies state`pages, state.mem, state.p, this`clock, this`log
      ensures Ready() && state.pages == old(state.pages) && t == times(old(clock)) && clock == old(clock) + 1
      ensures old(log) < log && WithoutChunk(log, old(log), state.pages, i, chunk, npages, len, state.pagesize)
    {
      hide Usable, Outside, Chained, WithoutChunk, SampleLength, Distinct, Mul, PagesFor, Measurable, LastOfSize;
      ghost var handed, during;
      t, handed, during := RemoveChunk(state, i, chunk, npages, len, times(clock));
      ChunkRemovedOk(state, len, npages, chunk);
      WithoutChunkNow(log, state.pages, handed, i, chunk, npages, len, state.pagesize);
      log := log + [Run(handed, len - Mul(chunk, state.pagesize))];
      clock := clock + 1;
    }

    /** fixup_chunk as test_chunk sees it. */
    method TryFixup(i: nat, chunk: nat, npages: nat, len: nat, baseline0: real, chunkBaseline: real) returns (modified: bool, baseline: real)
      requires Ready() && 1 <= chunk <= MOST && i + chunk <= npages <= Total() && SampleLength(len, npages, state.S()) && baseline0 > 0.0
      modifies this, state`pages, state.mem, state.p
      ensures Ready() && |state.pages| == |old(state.pages)|
      ensures (Current(baseline), modified) == Fix(Sample(npages), old(Current(baseline0)), i, chunk, chunkBaseline)
      ensures 0.0 < baseline <= baseline0 && (modified <==> baseline < baseline0)
      ensures old(log) <= log
    {
      hide Usable, SampleLength, Fixed, Positive;
      var swapped;
      ghost var rounds;
      swapped, baseline, rounds := FixupChunk(i, chunk, npages, len, baseline0, chunkBaseline);
      modified := swapped > 0;
    }

    /**
     test_chunk computes Tested from what it measures.  It terminates, reports a change exactly when it has
     lowered the baseline, and, unless the chunk is small enough to fix up, tests sub-ranges that tile i..i+chunk.
     */
    method TestChunk(i: nat, chunk: nat, npages: nat, len: nat, baseline0: real, chunkBaseline: real)
      returns (modified: bool, baseline: real, ghost tested: seq<(nat, nat)>)
      requires Ready() && 1 <= chunk && i + chunk <= npages <= Total() && npages > 1
      requires SampleLength(len, npages, state.S()) && baseline0 > 0.0
      modifies this, state`pages, state.mem, state.p
      ensures Ready() && |state.pages| == |old(state.pages)|
      ensures (Current(baseline), modified) == Tested(Sample(npages), old(Current(baseline0)), i, chunk, chunkBaseline)
      ensures 0.0 < baseline <= baseline0 && (modified <==> baseline < baseline0)
      ensures old(log) <= log
      ensures chunk <= MOST && chunk < npages ==>
                tested == [] && (Current(baseline), modified) == Fix(Sample(npages), old(Current(baseline0)), i, chunk, chunkBaseline)
      ensures chunk > MOST || chunk >= npages ==> Tiles(tested, i, i + chunk) && EvenTiles(tested, (chunk + 19) / 20, i + chunk)
      decreases chunk, 0
    {
      hide Usable, SampleLength, Fix, Positive, Subranges, Range, Tiles, EvenTiles;
      modified, baseline, tested := false, baseline0, [];
      if chunk <= MOST && chunk < npages {
        modified, baseline := TryFixup(i, chunk, npages, len, baseline0, chunkBaseline);
        return;
      }
      var nodiff := baseline;
      var subchunk := (chunk + 19) / 20;
      ghost var g := Sample(npages);
      ghost var result := Subranges(g, Current(baseline), i, chunk, i, subchunk, nodiff, false);
      TilesNone(i, (chunk + 19) / 20, i + chunk);
      var j := i;
      while j < i + chunk
        invariant i <= j <= i + chunk && 1 <= subchunk < chunk
        invariant Ready() && |state.pages| == |old(state.pages)| && Sample(npages) == g && SampleLength(len, npages, state.S())
        invariant Subranges(g, Current(baseline), i, chunk, j, subchunk, nodiff, modified) == result
        invariant 0.0 < baseline <= baseline0 && (modified <==> baseline < baseline0)
        invariant Tiles(tested, i, j) && EvenTiles(tested, (chunk + 19) / 20, i + chunk)
        invariant old(log) <= log && subchunk <= (chunk + 19) / 20 && (j < i + chunk ==> subchunk == (chunk + 19) / 20)
        decreases i + chunk - j
      {
        SubrangesStep(g, Current(baseline), i, chunk, j, subchunk, nodiff, modified);
        if j + subchunk > i + chunk {
          subchunk := i + chunk - j;
        }
        TilesMore(tested, i, j, subchunk, (chunk + 19) / 20, i + chunk);
        tested := tested + [(j, subchunk)];
        baseline, nodiff, modified := TestRange(j, subchunk, npages, len, baseline, nodiff, modified);
        j := j + subchunk;
      }
      SubrangesStep(g, Current(baseline), i, chunk, j, subchunk, nodiff, modified);
    }

    /** The body of its loop for one range. */
    method TestRange(j: nat, subchunk: nat, npages: nat, len: nat, baseline0: real, nodiff0: real, modified0: bool)
      returns (baseline: real, nodiff: real, modified: bool)
      requires Ready() && 1 <= subchunk && j + subchunk <= npages <= Total() && npages > 1 && subchunk < npages
      requires SampleLength(len, npages, state.S()) && baseline0 > 0.0
      modifies this, state`pages, state.mem, state.p
      ensures Ready() && |state.pages| == |old(state.pages)|
      ensures (Current(baseline), nodiff, modified) == Range(Sample(npages), old(Current(baseline0)), j, subchunk, nodiff0, modified0)
      ensures 0.0 < baseline <= baseline0 && (modified <==> modified0 || baseline < baseline0)
      ensures var t1, t2 := times(old(clock)), times(old(clock) + 1);
              var t := if t2 > t1 then t2 else t1;
              if t1 >= 0.99 * baseline0 || t1 >= 0.999 * nodiff0 then
                clock == old(clock) + 1 && state.pages == old(state.pages) && (baseline, nodiff, modified) == (baseline0, nodiff0, modified0)
              else if t >= 0.99 * baseline0 || t >= 0.999 * nodiff0 then
                clock == old(clock) + 2 && state.pages == old(state.pages) && (baseline, nodiff, modified) == (baseline0, nodiff0, modified0)
              else
                (modified && nodiff == nodiff0) || (baseline, nodiff, modified) == (baseline0, t, modified0)
      ensures old(log) < log && WithoutChunk(log[..old(clock) + 1], old(log), old(state.pages), j, subchunk, npages, len, state.pagesize)
      ensures clock >= old(clock) + 2 ==>
                WithoutChunk(log[..old(clock) + 2], log[..old(clock) + 1], old(state.pages), j, subchunk, npages, len, state.pagesize)
      decreases subchunk, 2
    {
      hide Usable, SampleLength, Tested, Positive, WithoutChunk, WholeEntries;
      baseline, nodiff, modified := baseline0, nodiff0, modified0;
      var t := Removed(j, subchunk, npages, len);
      ghost var log1 := log;
      assert log[..old(clock) + 1] == log1;
      if t >= 0.99 * baseline || t >= 0.999 * nodiff {
        return;
      }
      var tt := Removed(j, subchunk, npages, len);
      ghost var log2 := log;
      assert log[..old(clock) + 1] == log1 && log[..old(clock) + 2] == log2;
      if tt > t {
        t := tt;
      }
      if t >= 0.99 * baseline || t >= 0.999 * nodiff {
        return;
      }
      baseline, nodiff, modified := TestInside(j, subchunk, npages, len, baseline, nodiff, modified, t);
      assert log[..old(clock) + 1] == log1 && log[..old(clock) + 2] == log2;
    }

    /** A range that two low measurements point to. */
    method TestInside(j: nat, subchunk: nat, npages: nat, len: nat, baseline0: real, nodiff0: real, modified0: bool, t: real)
      returns (baseline: real, nodiff: real, modified: bool)
      requires Ready() && 1 <= subchunk && j + subchunk <= npages <= Total() && npages > 1 && subchunk < npages
      requires SampleLength(len, npages, state.S()) && baseline0 > 0.0
      modifies this, state`pages, state.mem, state.p
      ensures Ready() && |state.pages| == |old(state.pages)|
      ensures var r := Tested(Sample(npages), old(Current(baseline0)), j, subchunk, t);
              (Current(baseline), nodiff, modified) == (r.0, if r.1 then nodiff0 else t, modified0 || r.1)
      ensures 0.0 < baseline <= baseline0 && (modified <==> modified0 || baseline < baseline0)
      ensures (modified && nodiff == nodiff0) || (baseline, nodiff, modified) == (baseline0, t, modified0)
      ensures old(log) <= log
      decreases subchunk, 1
    {
      hide Usable, SampleLength, Tested, Positive;
      ghost var tested;
      var changed;
      nodiff, modified := nodiff0, modified0;
      changed, baseline, tested := TestChunk(j, subchunk, npages, len, baseline0, t);
      if changed {
        modified := true;
      } else {
        nodiff := t;
      }
    }

    /**
     collect_sample for one size computes Sampled from what it measures; the latency it records is the
     baseline.  First the pages in use are measured as they are, then there are up to eight rounds, the last of
     which is the eighth or changed nothing.
     */
    method CollectSample(len: nat) returns (latency: real, ghost changes: seq<bool>)
      requires Ready() && len > 0 && PagesFor(len, state.pagesize) <= Total()
      requires SampleLength(len, PagesFor(len, state.pagesize), state.S())
      modifies this, state`pages, state.mem, state.p
      ensures Ready() && |state.pages| == |old(state.pages)| && latency > 0.0
      ensures var g := Sample(PagesFor(len, state.pagesize));
              && g.Valid(old(state.pages))
              && Current(latency) == Sampled(g, old(state.pages), old(availableIndex), old(clock), old(faulted))
      ensures faulted ==> old(faulted) || (PagesFor(len, state.pagesize) > 1 && Total() == PagesFor(len, state.pagesize) + 1)
      ensures SafeFrom(Copied(), Total(), 0) ==> Reordered(state.pages, old(state.pages))
      ensures old(log) + [Run(old(state.pages)[..PagesFor(len, state.pagesize)], len)] <= log
      ensures latency <= times(old(clock))
      ensures if PagesFor(len, state.pagesize) <= 1 then changes == [] && clock == old(clock) + 1 else FullRounds(changes)
    {
      hide FullRounds, Usable, Reordered, Mul, Measurable, SampleLength, PagesFor, Rounds, SafeFrom;
      UsableLayout(state);
      PositivePages(len, state.pagesize);
      var npages := (len + state.pagesize - 1) / state.pagesize;
      ghost var g := Sample(npages);
      ghost var pages0, avail, now, faulted0 := state.pages, availableIndex, clock, faulted;
      TimeSample(state, len, npages);
      latency := Time(len);
      changes := [];
      if npages > 1 {
        latency, changes := ImproveSample(npages, len, latency);
      }
      SampleIsSafe(g, pages0, avail, now, faulted0);
    }

    /** The rounds of collect_sample. */
    method ImproveSample(npages: nat, len: nat, latency0: real) returns (latency: real, ghost changes: seq<bool>)
      requires Ready() && 1 < npages <= Total() && SampleLength(len, npages, state.S()) && latency0 > 0.0
      modifies this, state`pages, state.mem, state.p
      ensures Ready() && |state.pages| == |old(state.pages)| && 0.0 < latency <= latency0
      ensures Current(latency) == Rounds(Sample(npages), old(Current(latency0)), 0, true)
      ensures old(log) <= log && FullRounds(changes)
    {
      hide FullRounds, Usable, SampleLength, Rounds, Tested;
      ghost var g := Sample(npages);
      ghost var result := Rounds(g, Current(latency0), 0, true);
      latency, changes := latency0, [];
      var i, modified := 0, true;
      while i < 8 && modified
        invariant 0 <= i <= 8 && 0.0 < latency <= latency0
        invariant Ready() && |state.pages| == |old(state.pages)| && Sample(npages) == g && SampleLength(len, npages, state.S())
        invariant Rounds(g, Current(latency), i, modified) == result
        invariant old(log) <= log && RoundsSoFar(changes, i, modified)
      {
        RoundsStep(g, Current(latency), i, modified);
        ghost var tested;
        modified, latency, tested := TestChunk(0, npages, npages, len, latency, 0.0);
        changes := changes + [modified];
        i := i + 1;
      }
      RoundsStep(g, Current(latency), i, modified);
      RoundsEnd(changes, i, modified);
    }
  }

  /** Up to eight rounds: each but the last changed something, and the last did not unless it was the eighth. */
  ghost predicate FullRounds(changes: seq<bool>) {
    && 1 <= |changes| <= 8
    && (forall k :: 0 <= k < |changes| - 1 ==> changes[k])
    && (|changes| < 8 ==> !changes[|changes| - 1])
  }

  /** All rounds so far but perhaps the last changed something. */
  ghost predicate RoundsSoFar(changes: seq<bool>, i: nat, modified: bool) {
    |changes| == i && (forall k :: 0 <= k < i - 1 ==> changes[k]) && modified == (i == 0 || changes[i - 1])
  }

  lemma RoundsEnd(changes: seq<bool>, i: nat, modified: bool)
    requires RoundsSoFar(changes, i, modified) && i <= 8 && (i == 8 || !modified)
    ensures FullRounds(changes)
  {
  }

  lemma SavedWithin(state: MemState)
    requires Usable(state)
    ensures Within(state.pages, Whole(state).pages)
  {
  }

  lemma FewerCopied(total: nat, word: nat)
    requires word > SIZEOF_INT
    ensures SIZEOF_INT * total / word <= (SIZEOF_INT * total + word - 1) / word <= total
  {
    hide Mul;
    FourTimes(total, word);
    DivMono(SIZEOF_INT * total, SIZEOF_INT * total + word - 1, word);
    DivMono(SIZEOF_INT * total + word - 1, Mul(total, word) + word - 1, word);
    DivMul(total, word - 1, word);
  }

  lemma FourTimes(total: nat, word: nat)
    requires word >= SIZEOF_INT
    ensures SIZEOF_INT * total <= Mul(total, word)
  {
    MulMono(SIZEOF_INT, word, total);
    MulCommutes(word, total);
  }

  lemma DivMono(a: nat, b: nat, unit: nat)
    requires a <= b && unit > 0
    ensures a / unit <= b / unit
  {
    hide Mul;
    DivParts(a, unit);
    DivParts(b, unit);
    if b / unit < a / unit {
      MulLess(b / unit, a / unit, unit);
    }
  }

  lemma PositivePages(len: nat, pagesize: nat)
    requires len > 0 && pagesize > 0
    ensures PagesFor(len, pagesize) == (len + pagesize - 1) / pagesize >= 1
  {
    var rem := CeilSplit(len, pagesize);
  }

  lemma TimeWhole(state: MemState, q: nat)
    requires Usable(state) && 1 <= q <= |state.pages|
    ensures Measurable(Mul(q, state.pagesize), |state.pages|, state.S()) && PagesFor(Mul(q, state.pagesize), state.pagesize) == q
  {
    hide Mul, PagesFor;
    WholePagesMeasurable(q, |state.pages|, state.S());
    PagesOfWhole(q, state.pagesize);
  }

  lemma TimeSample(state: MemState, len: nat, npages: nat)
    requires Usable(state) && SampleLength(len, npages, state.S()) && 1 <= npages <= |state.pages|
    ensures Measurable(len, |state.pages|, state.S()) && PagesFor(len, state.pagesize) == npages
  {
    SampleMeasurable(len, npages, |state.pages|, state.S());
  }

  lemma UsableShape(state: MemState)
    requires Usable(state)
    ensures state.S().Valid()
  {
  }
}
