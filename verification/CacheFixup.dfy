/** fixup_chunk of cache.c as a function of its measurements, and when backing out loses a page. */
module CacheFixup {
  import opened Arith
  import opened PointerChain
  import opened Tables
  import opened PageLists

  const SIZEOF_INT: nat := 4
  const MOST: nat := 20

  /**
   One call: npages pages in use out of ntotal, the chunk i..i+chunk, how many entries of the list bcopy
   saves, and what the measurements return, numbered from the first one the program makes.
   */
  datatype Call = Call(npages: nat, ntotal: nat, copied: nat, i: nat, chunk: nat, times: nat -> real) {
    predicate Valid(pages: seq<int>) {
      && 1 <= chunk <= MOST && i + chunk <= npages <= ntotal <= |pages| && copied <= ntotal
    }

    /** Pages that are not in use. */
    function Spare(): nat
      requires npages <= ntotal
    {
      ntotal - npages
    }

    /** Where the chunk is moved to: slot j of the chunk is at Slot(j). */
    function Slot(j: nat): nat
      requires chunk <= npages
    {
      npages - chunk + j
    }

    /** How far the chunk is moved. */
    function Distance(): nat
      requires i + chunk <= npages
    {
      npages - chunk - i
    }
  }

  /**
   The spare page tried in round k, going down from the last one.  Without any spare page the remainder
   by -1 is 0 in C and the index one below the first spare page: the last page in use.
   */
  function Substitute(f: Call, avail: nat, k: nat): (s: nat)
    requires 1 <= f.npages <= f.ntotal && f.Spare() != 1
    ensures f.npages - 1 <= s && (f.Spare() > 0 ==> f.npages < s < f.ntotal) && (f.Spare() == 0 ==> s == f.npages - 1)
  {
    if f.Spare() == 0 then f.npages - 1 else f.npages + (f.Spare() - 1 - (k + avail) % (f.Spare() - 1))
  }

  function NextAvailable(f: Call, avail: nat, k: nat): nat
    requires f.npages <= f.ntotal && f.Spare() != 1
  {
    if f.Spare() == 0 then 0 else (k + avail) % (f.Spare() - 1)
  }

  /** The first page tried is the last spare one, the next ones lie one further down each, and after the second spare page it starts again. */
  lemma NextSubstitute(f: Call, avail: nat, k: nat)
    requires 1 <= f.npages <= f.ntotal && f.Spare() > 1
    ensures Substitute(f, 0, 0) == f.ntotal - 1
    ensures Substitute(f, avail, k + 1) == if Substitute(f, avail, k) == f.npages + 1 then f.ntotal - 1 else Substitute(f, avail, k) - 1
  {
    var n := f.Spare() - 1;
    DivParts(k + avail, n);
    var q, r := (k + avail) / n, (k + avail) % n;
    if r + 1 < n {
      DivMul(q, r + 1, n);
      DivUnique(k + 1 + avail, q, r + 1, n);
    } else {
      MulPlus(q, 1, n);
      MulSmall(n);
      DivUnique(k + 1 + avail, q + 1, 0, n);
    }
  }

  /** The next call goes on where this one stopped after r rounds. */
  lemma RoundsGoOn(f: Call, avail: nat, r: nat, k: nat)
    requires 1 <= f.npages <= f.ntotal && f.Spare() != 1
    ensures Substitute(f, NextAvailable(f, avail, r), k) == Substitute(f, avail, r + k)
    ensures NextAvailable(f, avail, r) < if f.Spare() > 1 then f.Spare() - 1 else 1
  {
    if f.Spare() > 1 {
      AddedMod(k, r + avail, f.Spare() - 1);
    }
  }

  /** In as many consecutive rounds as there are spare pages after the first, each of these is tried exactly once. */
  lemma {:induction false} EachSpareOnce(f: Call, avail: nat, k: nat, p: nat) returns (r: nat)
    requires 1 <= f.npages <= f.ntotal && f.Spare() > 1 && f.npages < p < f.ntotal
    ensures k <= r < k + f.Spare() - 1 && Substitute(f, avail, r) == p
    ensures forall r' :: k <= r' < k + f.Spare() - 1 && Substitute(f, avail, r') == p ==> r' == r
  {
    var n := f.Spare() - 1;
    var rest := f.ntotal - 1 - p;
    DivParts(k + avail, n);
    var here := (k + avail) % n;
    r := if rest >= here then k + (rest - here) else k + (n + rest - here);
    forall r' | k <= r' < k + n ensures Substitute(f, avail, r') == p <==> r' == r {
      Turn(k + avail, r' - k, n);
    }
  }

  /** The page list, the latencies by slot, and the number of measurements so far. */
  datatype Work = Work(pages: seq<int>, lat: seq<real>, clock: nat) {
    predicate Fits(f: Call) {
      f.Valid(pages) && f.chunk <= |lat|
    }
  }

  /** First loop: keep slot j, or put it behind the others, until they meet. */
  function Keep(f: Call, w: Work, limit: real, j: nat, k: nat): (r: (Work, nat))
    requires w.Fits(f) && j <= k <= f.chunk
    ensures r.0.Fits(f) && |r.0.pages| == |w.pages| && |r.0.lat| == |w.lat| && j <= r.1 <= k
    decreases k - j
  {
    var t := f.times(w.clock);
    if j == k then (w, j)
    else if 0.995 * t <= limit then Keep(f, Work(w.pages, w.lat[j := t], w.clock + 1), limit, j + 1, k)
    else Keep(f, Work(Swap(w.pages, f.Slot(j), f.Slot(k - 1)), w.lat[k - 1 := t], w.clock + 1), limit, j, k - 1)
  }

  lemma KeepEnd(f: Call, w: Work, limit: real, j: nat)
    requires w.Fits(f) && j <= f.chunk
    ensures Keep(f, w, limit, j, j) == (w, j)
  {
  }

  /** Slots from j on, by increasing latency. */
  function SortFrom(f: Call, w: Work, j: nat): (r: Work)
    requires w.Fits(f) && j <= f.chunk
    ensures r.Fits(f) && |r.pages| == |w.pages| && |r.lat| == |w.lat| && r.clock == w.clock
  {
    var r := Sorted(w.pages, w.lat, f.Slot(j), f.chunk - j, j, 0);
    Work(r.0, r.1, w.clock)
  }

  /** One candidate for slot j. */
  function Try(f: Call, w: Work, avail: nat, j: nat, k: nat): (r: Work)
    requires w.Fits(f) && f.Spare() != 1 && j < f.chunk
    ensures r.Fits(f) && |r.pages| == |w.pages| && |r.lat| == |w.lat|
  {
    var t := f.times(w.clock);
    if t < w.lat[f.chunk - 1] then
      SortFrom(f, Work(Swap(w.pages, f.npages - 1, Substitute(f, avail, k)), w.lat[f.chunk - 1 := t], w.clock + 1), j)
    else Work(w.pages, w.lat, w.clock + 1)
  }

  /** Second loop from slot j and round k on: what is left, the slot and the round reached. */
  function TryAll(f: Call, w: Work, limit: real, avail: nat, j: nat, k: nat): (r: (Work, nat, nat))
    requires w.Fits(f) && f.Spare() != 1 && j <= f.chunk
    ensures r.0.Fits(f) && |r.0.pages| == |w.pages| && |r.0.lat| == |w.lat| && j <= r.1 <= f.chunk && k <= r.2
    decreases 2 * f.npages - k
  {
    if j < f.chunk && k < 2 * f.npages then
      var w' := Try(f, w, avail, j, k);
      TryAll(f, w', limit, avail, if 0.995 * w'.lat[j] <= limit then j + 1 else j, k + 1)
    else (w, j, k)
  }

  lemma TryAllStep(f: Call, w: Work, limit: real, avail: nat, j: nat, k: nat)
    requires w.Fits(f) && f.Spare() != 1 && j < f.chunk && k < 2 * f.npages
    ensures var w' := Try(f, w, avail, j, k);
            TryAll(f, w, limit, avail, j, k) == TryAll(f, w', limit, avail, if 0.995 * w'.lat[j] <= limit then j + 1 else j, k + 1)
  {
    hide Try;
  }

  lemma TryAllEnd(f: Call, w: Work, limit: real, avail: nat, j: nat, k: nat)
    requires w.Fits(f) && f.Spare() != 1 && j <= f.chunk && !(j < f.chunk && k < 2 * f.npages)
    ensures TryAll(f, w, limit, avail, j, k) == (w, j, k)
  {
  }

  /** The list with the chunk moved to the end of the pages in use, or back, unless it is there. */
  function MovedChunk(f: Call, pages: seq<int>): (r: seq<int>)
    requires f.Valid(pages)
    ensures |r| == |pages|
  {
    if f.i + f.chunk < f.npages then Moved(pages, f.i, f.Distance(), f.chunk) else pages
  }

  /** bcopy of the saved entries over the list. */
  function Restored(f: Call, saved: seq<int>, pages: seq<int>): (r: seq<int>)
    requires f.copied <= |saved| == |pages|
    ensures |r| == |pages|
  {
    saved[..f.copied] + pages[f.copied..]
  }

  datatype Outcome = Outcome(pages: seq<int>, baseline: real, swapped: nat, avail: nat, clock: nat)

  /** After the first loop: sort, and give up on slots below half when the chunk is everything. */
  function Between(f: Call, w: Work, limit: real, j: nat): (r: (Work, real, nat))
    requires w.Fits(f) && j <= f.chunk
    ensures r.0.Fits(f) && |r.0.pages| == |w.pages| && j <= r.2 <= f.chunk
  {
    var s := SortFrom(f, w, j);
    if f.chunk >= f.npages && j < f.chunk / 2 then
      (Work(s.pages, s.lat, s.clock + 1), f.times(s.clock), f.chunk / 2)
    else (s, limit, j)
  }

  /** The pages after the second loop, with the slots passed and the rounds taken. */
  function Substituted(f: Call, pages: seq<int>, limit: real, avail: nat, clock: nat): (r: (Work, nat, nat))
    requires f.Valid(pages) && f.Spare() != 1
    ensures r.0.Fits(f) && |r.0.pages| == |pages|
  {
    var kept := Keep(f, Work(MovedChunk(f, pages), seq(MOST, _ => 0.0), clock), limit, 0, f.chunk);
    var start := Between(f, kept.0, limit, kept.1);
    var r := TryAll(f, start.0, start.1, avail, start.2, 0);
    (r.0, r.1 - start.2, r.2)
  }

  /** fixup_chunk. */
  function Fixed(f: Call, pages: seq<int>, baseline: real, limit: real, avail0: nat, clock: nat): (r: Outcome)
    requires f.Valid(pages) && f.Spare() != 1
    ensures |r.pages| == |pages|
  {
    var avail := if avail0 >= f.Spare() then 0 else avail0;
    var r := Substituted(f, pages, limit, avail, clock);
    var w, next := r.0, NextAvailable(f, avail, r.2);
    if r.1 == 0 then Outcome(w.pages, baseline, 0, next, w.clock)
    else if f.times(w.clock) >= 0.999 * baseline then Outcome(Restored(f, pages, w.pages), baseline, 0, next, w.clock + 1)
    else Outcome(MovedChunk(f, w.pages), f.times(w.clock), r.1, next, w.clock + 1)
  }

  // ---------- what the loops leave alone ----------

  /** A rearrangement of the pages from i up to ntotal. */
  ghost predicate Shuffled(f: Call, pages: seq<int>, pages0: seq<int>) {
    && Reordered(pages, pages0) && |pages| == |pages0|
    && forall t :: 0 <= t < |pages| && !(f.i <= t < f.ntotal) ==> pages[t] == pages0[t]
  }

  lemma ShuffledSelf(f: Call, pages: seq<int>)
    ensures Shuffled(f, pages, pages)
  {
  }

  lemma ShuffledTrans(f: Call, a: seq<int>, b: seq<int>, c: seq<int>)
    requires Shuffled(f, a, b) && Shuffled(f, b, c)
    ensures Shuffled(f, a, c)
  {
  }

  lemma ShuffledSwap(f: Call, pages: seq<int>, a: nat, b: nat)
    requires f.i <= a < f.ntotal <= |pages| && f.i <= b < f.ntotal
    ensures Shuffled(f, Swap(pages, a, b), pages)
  {
    SwapReorders(pages, a, b);
  }

  lemma {:induction false} InnerShuffles(f: Call, pages: seq<int>, lat: seq<real>, base: nat, n: nat, off: nat, i: nat, j: nat)
    requires base + n <= |pages| && off + n <= |lat| && i < n && j <= n && f.i <= base && base + n <= f.ntotal <= |pages|
    ensures Shuffled(f, InnerSort(pages, lat, base, n, off, i, j).0, pages)
    decreases n - j
  {
    hide Shuffled, Swap;
    if j == n {
      ShuffledSelf(f, pages);
    } else if lat[off + i] > lat[off + j] {
      var s, l := Swap(pages, base + i, base + j), lat[off + i := lat[off + j]][off + j := lat[off + i]];
      InnerShuffles(f, s, l, base, n, off, i, j + 1);
      ShuffledSwap(f, pages, base + i, base + j);
      ShuffledTrans(f, InnerSort(s, l, base, n, off, i, j + 1).0, s, pages);
    } else {
      InnerShuffles(f, pages, lat, base, n, off, i, j + 1);
    }
  }

  lemma {:induction false} SortShuffles(f: Call, pages: seq<int>, lat: seq<real>, base: nat, n: nat, off: nat, i: nat)
    requires base + n <= |pages| && off + n <= |lat| && f.i <= base && base + n <= f.ntotal <= |pages|
    ensures Shuffled(f, Sorted(pages, lat, base, n, off, i).0, pages)
    decreases n - i
  {
    hide Shuffled, InnerSort;
    if i + 1 >= n {
      ShuffledSelf(f, pages);
    } else {
      var r := InnerSort(pages, lat, base, n, off, i, i + 1);
      InnerShuffles(f, pages, lat, base, n, off, i, i + 1);
      SortShuffles(f, r.0, r.1, base, n, off, i + 1);
      ShuffledTrans(f, Sorted(r.0, r.1, base, n, off, i + 1).0, r.0, pages);
    }
  }

  lemma {:induction false} KeepShuffles(f: Call, w: Work, limit: real, j: nat, k: nat)
    requires w.Fits(f) && j <= k <= f.chunk
    ensures Shuffled(f, Keep(f, w, limit, j, k).0.pages, w.pages)
    decreases k - j
  {
    hide Shuffled, Swap;
    var t := f.times(w.clock);
    if j == k {
      ShuffledSelf(f, w.pages);
    } else if 0.995 * t <= limit {
      KeepShuffles(f, Work(w.pages, w.lat[j := t], w.clock + 1), limit, j + 1, k);
    } else {
      var w' := Work(Swap(w.pages, f.Slot(j), f.Slot(k - 1)), w.lat[k - 1 := t], w.clock + 1);
      KeepShuffles(f, w', limit, j, k - 1);
      ShuffledSwap(f, w.pages, f.Slot(j), f.Slot(k - 1));
      ShuffledTrans(f, Keep(f, w', limit, j, k - 1).0.pages, w'.pages, w.pages);
    }
  }

  lemma TryShuffles(f: Call, w: Work, avail: nat, j: nat, k: nat)
    requires w.Fits(f) && f.Spare() != 1 && j < f.chunk
    ensures Shuffled(f, Try(f, w, avail, j, k).pages, w.pages)
  {
    hide Shuffled, Swap, Sorted, Substitute;
    var t := f.times(w.clock);
    if t < w.lat[f.chunk - 1] {
      var s := Swap(w.pages, f.npages - 1, Substitute(f, avail, k));
      SortShuffles(f, s, w.lat[f.chunk - 1 := t], f.Slot(j), f.chunk - j, j, 0);
      ShuffledSwap(f, w.pages, f.npages - 1, Substitute(f, avail, k));
      ShuffledTrans(f, Try(f, w, avail, j, k).pages, s, w.pages);
    } else {
      ShuffledSelf(f, w.pages);
    }
  }

  lemma {:induction false} TryAllShuffles(f: Call, w: Work, limit: real, avail: nat, j: nat, k: nat)
    requires w.Fits(f) && f.Spare() != 1 && j <= f.chunk
    ensures Shuffled(f, TryAll(f, w, limit, avail, j, k).0.pages, w.pages)
    decreases 2 * f.npages - k
  {
    hide Shuffled, Try;
    if j < f.chunk && k < 2 * f.npages {
      var w' := Try(f, w, avail, j, k);
      var j' := if 0.995 * w'.lat[j] <= limit then j + 1 else j;
      TryShuffles(f, w, avail, j, k);
      TryAllShuffles(f, w', limit, avail, j', k + 1);
      ShuffledTrans(f, TryAll(f, w', limit, avail, j', k + 1).0.pages, w'.pages, w.pages);
    } else {
      ShuffledSelf(f, w.pages);
    }
  }

  lemma {:induction false} MovedShuffles(f: Call, s: seq<int>, i: nat, d: nat, c: nat)
    requires i + d + c <= |s| && f.i <= i && i + d + c <= f.ntotal <= |s|
    ensures Shuffled(f, Moved(s, i, d, c), s)
  {
    hide Shuffled, Swap;
    if c == 0 {
      ShuffledSelf(f, s);
    } else {
      var m := Moved(s, i, d, c - 1);
      MovedShuffles(f, s, i, d, c - 1);
      ShuffledSwap(f, m, i + c - 1, i + d + c - 1);
      ShuffledTrans(f, Swap(m, i + c - 1, i + d + c - 1), m, s);
    }
  }

  lemma MovedChunkShuffles(f: Call, pages: seq<int>)
    requires f.Valid(pages)
    ensures Shuffled(f, MovedChunk(f, pages), pages)
  {
    hide Shuffled, Moved;
    ShuffledSelf(f, pages);
    if f.i + f.chunk < f.npages {
      MovedShuffles(f, pages, f.i, f.Distance(), f.chunk);
    }
  }

  lemma SubstitutedShuffles(f: Call, pages: seq<int>, limit: real, avail: nat, clock: nat)
    requires f.Valid(pages) && f.Spare() != 1
    ensures Shuffled(f, Substituted(f, pages, limit, avail, clock).0.pages, pages)
  {
    hide Shuffled, Keep, Sorted, TryAll, MovedChunk;
    var moved := MovedChunk(f, pages);
    var w := Work(moved, seq(MOST, _ => 0.0), clock);
    var kept := Keep(f, w, limit, 0, f.chunk);
    var start := Between(f, kept.0, limit, kept.1);
    MovedChunkShuffles(f, pages);
    KeepShuffles(f, w, limit, 0, f.chunk);
    SortShuffles(f, kept.0.pages, kept.0.lat, f.Slot(kept.1), f.chunk - kept.1, kept.1, 0);
    TryAllShuffles(f, start.0, start.1, avail, start.2, 0);
    var end := TryAll(f, start.0, start.1, avail, start.2, 0).0.pages;
    ShuffledTrans(f, end, start.0.pages, kept.0.pages);
    ShuffledTrans(f, end, kept.0.pages, moved);
    ShuffledTrans(f, end, moved, pages);
  }

  // ---------- when backing out is safe ----------

  /** The whole list is saved, or nothing before the chunk is: pages are wide, or the chunk lies far enough back. */
  predicate SafeFrom(copied: nat, ntotal: nat, i: nat) {
    copied >= ntotal || copied <= i
  }

  lemma RestoredReorders(f: Call, saved: seq<int>, pages: seq<int>)
    requires f.Valid(saved) && Shuffled(f, pages, saved) && SafeFrom(f.copied, f.ntotal, f.i)
    ensures Reordered(Restored(f, saved, pages), saved)
  {
    if f.copied >= f.ntotal {
      assert Restored(f, saved, pages) == saved;
    } else {
      assert saved[..f.copied] == pages[..f.copied];
      assert Restored(f, saved, pages) == pages;
    }
  }

  /** From a safe chunk on no measurement makes fixup_chunk lose a page. */
  lemma SafeKeepsPages(f: Call, pages: seq<int>, baseline: real, limit: real, avail: nat, clock: nat)
    requires f.Valid(pages) && f.Spare() != 1 && SafeFrom(f.copied, f.ntotal, f.i)
    ensures Reordered(Fixed(f, pages, baseline, limit, avail, clock).pages, pages)
  {
    hide Substituted, Restored, MovedChunk, NextAvailable, SafeFrom, Reordered;
    var avail' := if avail >= f.Spare() then 0 else avail;
    var w := Substituted(f, pages, limit, avail', clock).0;
    SubstitutedShuffles(f, pages, limit, avail', clock);
    RestoredReorders(f, pages, w.pages);
    MovedChunkShuffles(f, w.pages);
    ReorderTrans(MovedChunk(f, w.pages), w.pages, pages);
  }

  // ---------- when it is not, some measurements lose a page ----------

  /**
   From measurement clock on: the one for round slow of the first loop takes 2, the others of that loop and
   the first candidate take 1, and the new baseline is 2 again.
   */
  ghost predicate Scripted(f: Call, clock: nat, slow: nat) {
    && (forall x :: clock <= x <= clock + f.chunk ==> f.times(x) == if x == clock + slow then 2.0 else 1.0)
    && f.times(clock + f.chunk + 1) == 2.0
  }

  /** Slots that measure well are kept one after the other. */
  lemma {:induction false} KeepGoodOnes(f: Call, w: Work, j: nat, k: nat, g: nat) returns (lat: seq<real>)
    requires w.Fits(f) && j + g <= k <= f.chunk && forall x :: w.clock <= x < w.clock + g ==> f.times(x) == 1.0
    ensures |lat| == |w.lat| && forall t :: k <= t < |lat| ==> lat[t] == w.lat[t]
    ensures Keep(f, w, 1.0, j, k) == Keep(f, Work(w.pages, lat, w.clock + g), 1.0, j + g, k)
    decreases g
  {
    if g == 0 {
      lat := w.lat;
    } else {
      var w' := Work(w.pages, w.lat[j := f.times(w.clock)], w.clock + 1);
      lat := KeepGoodOnes(f, w', j + 1, k, g - 1);
    }
  }

  /** The chunk's last page measures badly, all others well: every slot but the last is kept, nothing moves. */
  lemma KeepAllButLast(f: Call, w: Work) returns (r: Work)
    requires w.Fits(f) && Scripted(f, w.clock, f.chunk - 1)
    ensures Keep(f, w, 1.0, 0, f.chunk) == (r, f.chunk - 1)
    ensures r.Fits(f) && r.pages == w.pages && r.lat[f.chunk - 1] == 2.0 && r.clock == w.clock + f.chunk
  {
    var c := f.chunk;
    var lat := KeepGoodOnes(f, w, 0, c, c - 1);
    r := Work(Swap(w.pages, f.Slot(c - 1), f.Slot(c - 1)), lat[c - 1 := 2.0], w.clock + c);
    assert Keep(f, Work(w.pages, lat, w.clock + (c - 1)), 1.0, c - 1, c) == Keep(f, r, 1.0, c - 1, c - 1);
    assert r.pages == w.pages;
  }

  /** The chunk's first page measures badly, all others well: it changes places with the last one. */
  lemma KeepAllButFirst(f: Call, w: Work) returns (r: Work)
    requires w.Fits(f) && Scripted(f, w.clock, 0)
    ensures Keep(f, w, 1.0, 0, f.chunk) == (r, f.chunk - 1)
    ensures r.Fits(f) && r.pages == Swap(w.pages, f.Slot(0), f.npages - 1) && r.lat[f.chunk - 1] == 2.0 && r.clock == w.clock + f.chunk
  {
    var c := f.chunk;
    var w' := Work(Swap(w.pages, f.Slot(0), f.Slot(c - 1)), w.lat[c - 1 := 2.0], w.clock + 1);
    var lat := KeepGoodOnes(f, w', 0, c - 1, c - 1);
    r := Work(w'.pages, lat, w.clock + c);
  }

  /** One bad slot is left; the first candidate is better and takes its place, and that ends the loop. */
  lemma LastSlotTaken(f: Call, w: Work, pages: seq<int>, clock: nat, q: seq<int>)
    requires f.Valid(pages) && f.Spare() != 1 && f.chunk < f.npages && w.Fits(f) && w.pages == q && |q| == |pages|
    requires w.clock == clock + f.chunk && w.lat[f.chunk - 1] == 2.0 && f.times(clock + f.chunk) == 1.0
    requires Keep(f, Work(MovedChunk(f, pages), seq(MOST, _ => 0.0), clock), 1.0, 0, f.chunk) == (w, f.chunk - 1)
    ensures var r := Substituted(f, pages, 1.0, 0, clock);
            && r.0.pages == Swap(q, f.npages - 1, Substitute(f, 0, 0)) && r.0.clock == clock + f.chunk + 1
            && r.1 == 1 && r.2 == 1
  {
    hide Keep, MovedChunk, Swap, Substitute;
    var c := f.chunk;
    assert SortFrom(f, w, c - 1) == w;
    assert Between(f, w, 1.0, c - 1) == (w, 1.0, c - 1);
    var swapped := Work(Swap(q, f.npages - 1, Substitute(f, 0, 0)), w.lat[c - 1 := 1.0], clock + c + 1);
    assert SortFrom(f, swapped, c - 1) == swapped;
    assert Try(f, w, 0, c - 1, 0) == swapped;
    assert TryAll(f, swapped, 1.0, 0, c, 1) == (swapped, c, 1);
    assert TryAll(f, w, 1.0, 0, c - 1, 0) == (swapped, c, 1);
  }

  /** Substitutions that do not pay: the new baseline is no better, and everything is backed out. */
  lemma BackedOut(f: Call, pages: seq<int>, clock: nat, q: seq<int>)
    requires f.Valid(pages) && f.Spare() != 1 && |q| == |pages| && f.times(clock + f.chunk + 1) == 2.0
    requires var r := Substituted(f, pages, 1.0, 0, clock);
             && r.0.pages == Swap(q, f.npages - 1, Substitute(f, 0, 0)) && r.0.clock == clock + f.chunk + 1
             && r.1 == 1 && r.2 == 1
    ensures Fixed(f, pages, 2.0, 1.0, 0, clock) ==
            Outcome(Restored(f, pages, Swap(q, f.npages - 1, Substitute(f, 0, 0))), 2.0, 0, NextAvailable(f, 0, 1), clock + f.chunk + 2)
  {
    hide Substituted, Restored, Swap, Substitute, MovedChunk, NextAvailable;
  }

  lemma FirstSubstitute(f: Call)
    requires 1 <= f.npages <= f.ntotal && f.Spare() != 1
    ensures Substitute(f, 0, 0) == f.ntotal - 1
  {
  }

  /** A page that has moved from the part that is not restored to the part that is. */
  lemma LostAcross(pages: seq<int>, q: seq<int>, c: nat, p: nat, y: nat, u: nat, v: nat)
    requires Distinct(pages) && Distinct(q) && |q| == |pages| && p < c <= y < |pages| && q[p] == pages[y]
    requires c <= u < |q| && c <= v < |q|
    ensures pages[y] !in pages[..c] + Swap(q, u, v)[c..]
  {
    var s := Swap(q, u, v);
    var r := pages[..c] + s[c..];
    forall t | 0 <= t < |r| ensures r[t] != pages[y] {
      if t >= c {
        assert r[t] == s[t];
        assert s[t] == q[if t == u then v else if t == v then u else t];
      }
    }
  }

  /** The spare page taken in is not restored, because its place lies behind what was saved. */
  lemma LostSpare(pages: seq<int>, q: seq<int>, c: nat, n: nat, last: nat)
    requires Distinct(pages) && Distinct(q) && |q| == |pages| && 1 <= n <= c <= last < |pages|
    requires forall t :: n <= t < |q| ==> q[t] == pages[t]
    ensures pages[last] !in pages[..c] + Swap(q, n - 1, last)[c..]
  {
    var s := Swap(q, n - 1, last);
    var r := pages[..c] + s[c..];
    forall t | 0 <= t < |r| ensures r[t] != pages[last] {
      if t >= c {
        assert r[t] == s[t] == if t == last then q[n - 1] else q[t];
        assert q[n - 1] != q[last];
      }
    }
  }

  lemma ReorderedDistinct(a: seq<int>, b: seq<int>)
    requires Reordered(a, b) && Distinct(b)
    ensures Distinct(a) && |a| == |b|
  {
    DistinctCount(a);
    DistinctCount(b);
    assert |multiset(a)| == |multiset(b)|;
  }

  /** What a call leaves in which only the last slot is replaced: by then the pages are in the order q. */
  lemma LastRun(f: Call, pages: seq<int>, clock: nat) returns (q: seq<int>)
    requires f.Valid(pages) && f.Spare() != 1 && f.chunk < f.npages && Scripted(f, clock, f.chunk - 1)
    ensures q == MovedChunk(f, pages)
    ensures Fixed(f, pages, 2.0, 1.0, 0, clock) ==
            Outcome(pages[..f.copied] + Swap(q, f.npages - 1, f.ntotal - 1)[f.copied..], 2.0, 0, NextAvailable(f, 0, 1), clock + f.chunk + 2)
  {
    hide Fixed, Keep, Substituted, MovedChunk, Swap, Substitute, NextAvailable;
    q := MovedChunk(f, pages);
    var r := KeepAllButLast(f, Work(q, seq(MOST, _ => 0.0), clock));
    LastSlotTaken(f, r, pages, clock, q);
    BackedOut(f, pages, clock, q);
    FirstSubstitute(f);
  }

  /** The same when the first slot is exchanged with the last one before. */
  lemma FirstRun(f: Call, pages: seq<int>, clock: nat) returns (q: seq<int>)
    requires f.Valid(pages) && f.Spare() != 1 && f.chunk < f.npages && Scripted(f, clock, 0) && f.i + f.chunk == f.npages
    ensures q == Swap(pages, f.i, f.npages - 1)
    ensures Fixed(f, pages, 2.0, 1.0, 0, clock) ==
            Outcome(pages[..f.copied] + Swap(q, f.npages - 1, f.ntotal - 1)[f.copied..], 2.0, 0, NextAvailable(f, 0, 1), clock + f.chunk + 2)
  {
    hide Fixed, Keep, Substituted, Swap, Substitute, NextAvailable;
    q := Swap(pages, f.i, f.npages - 1);
    var r := KeepAllButFirst(f, Work(pages, seq(MOST, _ => 0.0), clock));
    LastSlotTaken(f, r, pages, clock, q);
    BackedOut(f, pages, clock, q);
    FirstSubstitute(f);
  }

  lemma ShuffledDistinct(f: Call, q: seq<int>, pages: seq<int>)
    requires Shuffled(f, q, pages) && Distinct(pages)
    ensures Distinct(q) && |q| == |pages|
  {
    hide Reordered, Distinct;
    ReorderedDistinct(q, pages);
  }

  /** A call that changes nothing but loses a page: the baseline stays, and no substitution is reported. */
  ghost predicate Loses(f: Call, pages: seq<int>, clock: nat, x: int)
    requires f.Valid(pages) && f.Spare() != 1
  {
    var r := Fixed(f, pages, 2.0, 1.0, 0, clock);
    x in pages && x !in r.pages && r.baseline == 2.0 && r.swapped == 0 && r.clock == clock + f.chunk + 2
  }

  lemma LastRunLoses(f: Call, pages: seq<int>, clock: nat) returns (x: int)
    requires f.Valid(pages) && f.Spare() != 1 && f.chunk < f.npages && Scripted(f, clock, f.chunk - 1) && Distinct(pages)
    requires f.i < f.copied < f.ntotal && (f.copied >= f.npages || f.i + f.chunk < f.npages)
    ensures Loses(f, pages, clock, x)
  {
    hide Fixed, MovedChunk, Moved, Swap, Shuffled, Distinct, NextAvailable, Scripted;
    var q := LastRun(f, pages, clock);
    MovedChunkShuffles(f, pages);
    ShuffledDistinct(f, q, pages);
    if f.copied >= f.npages {
      x := pages[f.ntotal - 1];
      MovedTail(f, pages);
      LostSpare(pages, q, f.copied, f.npages, f.ntotal - 1);
    } else {
      var p, y := CrossingPage(f, pages, q);
      x := pages[y];
      LostAcross(pages, q, f.copied, p, y, f.npages - 1, f.ntotal - 1);
    }
  }

  /** Moving the chunk carries a page across the end of what is saved. */
  lemma CrossingPage(f: Call, pages: seq<int>, q: seq<int>) returns (p: nat, y: nat)
    requires f.Valid(pages) && f.i + f.chunk < f.npages && q == MovedChunk(f, pages) && f.i < f.copied < f.npages
    ensures p < f.copied <= y < |pages| && q[p] == pages[y]
  {
    hide Moved;
    p := if f.copied <= f.i + f.chunk then f.copied - 1 else f.i + f.chunk - 1;
    y := p + f.Distance();
    MovedShifts(pages, f.i, f.Distance(), f.chunk);
  }

  lemma FirstRunLoses(f: Call, pages: seq<int>, clock: nat) returns (x: int)
    requires f.Valid(pages) && f.Spare() != 1 && f.chunk < f.npages && Scripted(f, clock, 0) && Distinct(pages)
    requires f.i < f.copied < f.npages == f.i + f.chunk
    ensures Loses(f, pages, clock, x)
  {
    hide Fixed, Reordered, Distinct, NextAvailable, Scripted;
    var q := FirstRun(f, pages, clock);
    SwapReorders(pages, f.i, f.npages - 1);
    ReorderedDistinct(q, pages);
    assert q[f.i] == pages[f.npages - 1];
    x := pages[f.npages - 1];
    LostAcross(pages, q, f.copied, f.i, f.npages - 1, f.npages - 1, f.ntotal - 1);
  }

  /** Measurements: these two and all after end take 2, all others 1. */
  function Script(first: nat, slow: nat, end: nat): nat -> real {
    x => if x == first || x == slow || x > end then 2.0 else 1.0
  }

  /** Measurements for which fixup_chunk loses a page that the list had before. */
  lemma UnsafeLosesPage(npages: nat, ntotal: nat, copied: nat, i: nat, chunk: nat, pages: seq<int>, clock: nat)
    returns (times: nat -> real, x: int)
    requires Call(npages, ntotal, copied, i, chunk, Script(0, 0, 0)).Valid(pages) && chunk < npages && ntotal - npages != 1
    requires Distinct(pages) && !SafeFrom(copied, ntotal, i)
    ensures Positive(times) && Loses(Call(npages, ntotal, copied, i, chunk, times), pages, clock, x)
  {
    hide Loses;
    var slow := if copied >= npages || i + chunk < npages then clock + chunk - 1 else clock;
    times := Script(slow, slow, clock + chunk);
    var f := Call(npages, ntotal, copied, i, chunk, times);
    if copied >= npages || i + chunk < npages {
      x := LastRunLoses(f, pages, clock);
    } else {
      x := FirstRunLoses(f, pages, clock);
    }
  }

  lemma MovedTail(f: Call, pages: seq<int>)
    requires f.Valid(pages)
    ensures forall t :: f.npages <= t < |pages| ==> MovedChunk(f, pages)[t] == pages[t]
  {
    hide Moved;
    if f.i + f.chunk < f.npages {
      MovedShifts(pages, f.i, f.Distance(), f.chunk);
    }
  }

  ghost predicate Positive(times: nat -> real) {
    forall n :: times(n) > 0.0
  }

  /**
   Whatever the measurements and the state of the search for spare pages, every page stays listed.  The
   chunk's baseline is one that test_chunk passes on: clearly less than the baseline itself.
   */
  ghost predicate NeverLoses(npages: nat, ntotal: nat, copied: nat, i: nat, chunk: nat, pages: seq<int>, clock: nat)
    requires Call(npages, ntotal, copied, i, chunk, Script(0, 0, 0)).Valid(pages) && ntotal - npages != 1
  {
    forall times: nat -> real, baseline: real, limit: real, avail: nat, x: int ::
      Positive(times) && 0.0 < limit < 0.99 * baseline && x in pages ==>
        x in Fixed(Call(npages, ntotal, copied, i, chunk, times), pages, baseline, limit, avail, clock).pages
  }

  /**
   fixup_chunk, called after any number of measurements, never loses a page exactly when bcopy saves the
   whole list, as it does for pointers as wide as int, or saves nothing that lies behind the start of the
   chunk.
   */
  lemma NeverLosesExactly(npages: nat, ntotal: nat, copied: nat, i: nat, chunk: nat, pages: seq<int>, clock: nat)
    requires Call(npages, ntotal, copied, i, chunk, Script(0, 0, 0)).Valid(pages) && chunk < npages && ntotal - npages != 1
    requires Distinct(pages)
    ensures NeverLoses(npages, ntotal, copied, i, chunk, pages, clock) <==> SafeFrom(copied, ntotal, i)
  {
    hide Fixed;
    if SafeFrom(copied, ntotal, i) {
      forall times: nat -> real, baseline: real, limit: real, avail: nat, x: int |
        Positive(times) && 0.0 < limit < 0.99 * baseline && x in pages
        ensures x in Fixed(Call(npages, ntotal, copied, i, chunk, times), pages, baseline, limit, avail, clock).pages
      {
        var f := Call(npages, ntotal, copied, i, chunk, times);
        SafeKeepsPages(f, pages, baseline, limit, avail, clock);
        StillThere(Fixed(f, pages, baseline, limit, avail, clock).pages, pages, x);
      }
    } else {
      var times, x := UnsafeLosesPage(npages, ntotal, copied, i, chunk, pages, clock);
    }
  }

  lemma StillThere(a: seq<int>, b: seq<int>, x: int)
    requires Reordered(a, b) && x in b
    ensures x in a
  {
    assert x in multiset(b);
    assert x in multiset(a);
  }
}
