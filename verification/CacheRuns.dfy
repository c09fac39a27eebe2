/** What fixup_chunk has measured, and what its recorded latencies say of the pages. */
module CacheRuns {
  import opened PointerChain
  import opened Tables
  import opened PageLists
  import opened CacheFixup

  /** What one measurement was handed: the pages in use, in order, and the size. */
  datatype Run = Run(pages: seq<int>, size: nat)

  /** Some run had this page as the last one in use, and took so long. */
  ghost predicate Vouched(log: seq<Run>, times: nat -> real, page: int, latency: real) {
    exists c :: 0 <= c < |log| && log[c].pages != [] && Last(log[c].pages) == page && times(c) == latency
  }

  /** The pages in slots lo..hi of the chunk are recorded with the latency of such a run. */
  ghost predicate AllVouched(f: Call, w: Work, log: seq<Run>, lo: nat, hi: nat)
    requires w.Fits(f) && hi <= f.chunk
  {
    forall t :: lo <= t < hi ==> Vouched(log, f.times, w.pages[f.Slot(t)], w.lat[t])
  }

  lemma VouchedMore(log: seq<Run>, run: Run, times: nat -> real, page: int, latency: real)
    requires Vouched(log, times, page, latency)
    ensures Vouched(log + [run], times, page, latency)
  {
    var c :| 0 <= c < |log| && log[c].pages != [] && Last(log[c].pages) == page && times(c) == latency;
    assert (log + [run])[c] == log[c];
  }

  lemma VouchedNew(log: seq<Run>, run: Run, times: nat -> real)
    requires run.pages != []
    ensures Vouched(log + [run], times, Last(run.pages), times(|log|))
  {
    assert (log + [run])[|log|] == run;
  }

  lemma AllVouchedMore(f: Call, w: Work, w': Work, log: seq<Run>, run: Run, lo: nat, hi: nat)
    requires w.Fits(f) && w'.Fits(f) && hi <= f.chunk && AllVouched(f, w, log, lo, hi)
    requires forall t :: lo <= t < hi ==> w'.pages[f.Slot(t)] == w.pages[f.Slot(t)] && w'.lat[t] == w.lat[t]
    ensures AllVouched(f, w', log + [run], lo, hi)
  {
    hide Vouched;
    forall t | lo <= t < hi ensures Vouched(log + [run], f.times, w'.pages[f.Slot(t)], w'.lat[t]) {
      VouchedMore(log, run, f.times, w.pages[f.Slot(t)], w.lat[t]);
    }
  }

  lemma NoneVouched(f: Call, w: Work, log: seq<Run>)
    requires w.Fits(f)
    ensures AllVouched(f, w, log, 0, 0) && AllVouched(f, w, log, f.chunk, f.chunk)
  {
  }

  lemma VouchedJoin(f: Call, w: Work, log: seq<Run>, j: nat)
    requires w.Fits(f) && j <= f.chunk && AllVouched(f, w, log, 0, j) && AllVouched(f, w, log, j, f.chunk)
    ensures AllVouched(f, w, log, 0, f.chunk)
  {
    hide Vouched;
  }

  /** The page that was measured is kept in its slot. */
  lemma KeptVouched(f: Call, w: Work, log: seq<Run>, run: Run, j: nat, k: nat)
    requires w.Fits(f) && j < k <= f.chunk && |log| == w.clock && run.pages == w.pages[..f.Slot(j) + 1]
    requires AllVouched(f, w, log, 0, j) && AllVouched(f, w, log, k, f.chunk)
    ensures var w' := Work(w.pages, w.lat[j := f.times(w.clock)], w.clock + 1);
            AllVouched(f, w', log + [run], 0, j + 1) && AllVouched(f, w', log + [run], k, f.chunk)
  {
    hide Vouched;
    var w' := Work(w.pages, w.lat[j := f.times(w.clock)], w.clock + 1);
    AllVouchedMore(f, w, w', log, run, 0, j);
    AllVouchedMore(f, w, w', log, run, k, f.chunk);
    VouchedNew(log, run, f.times);
  }

  /** It is put behind the others. */
  lemma PutVouched(f: Call, w: Work, log: seq<Run>, run: Run, j: nat, k: nat)
    requires w.Fits(f) && j < k <= f.chunk && |log| == w.clock && run.pages == w.pages[..f.Slot(j) + 1]
    requires AllVouched(f, w, log, 0, j) && AllVouched(f, w, log, k, f.chunk)
    ensures var w' := Work(Swap(w.pages, f.Slot(j), f.Slot(k - 1)), w.lat[k - 1 := f.times(w.clock)], w.clock + 1);
            AllVouched(f, w', log + [run], 0, j) && AllVouched(f, w', log + [run], k - 1, f.chunk)
  {
    hide Vouched;
    var w' := Work(Swap(w.pages, f.Slot(j), f.Slot(k - 1)), w.lat[k - 1 := f.times(w.clock)], w.clock + 1);
    AllVouchedMore(f, w, w', log, run, 0, j);
    AllVouchedMore(f, w, w', log, run, k, f.chunk);
    VouchedNew(log, run, f.times);
  }

  /** Sorting keeps pages and latencies together. */
  lemma SortedVouched(f: Call, w: Work, w': Work, log: seq<Run>, j: nat)
    requires w.Fits(f) && w'.Fits(f) && j <= f.chunk && AllVouched(f, w, log, 0, f.chunk)
    requires Sorting(w'.pages, w.pages, w'.lat, w.lat, f.Slot(j), f.chunk - j, j)
    ensures AllVouched(f, w', log, 0, f.chunk)
  {
    hide Vouched, Sorting;
    forall t | 0 <= t < f.chunk ensures Vouched(log, f.times, w'.pages[f.Slot(t)], w'.lat[t]) {
      var u := CameFrom(w'.pages, w.pages, w'.lat, w.lat, f.Slot(0), f.chunk, j, t);
      assert Vouched(log, f.times, w.pages[f.Slot(u)], w.lat[u]);
    }
  }

  /** The slot from which a page and its latency have come. */
  lemma CameFrom(pages: seq<int>, pages0: seq<int>, lat: seq<real>, lat0: seq<real>, base: nat, n: nat, j: nat, t: nat) returns (u: nat)
    requires base + n <= |pages0| && n <= |lat0| && j <= n && t < n
    requires Sorting(pages, pages0, lat, lat0, base + j, n - j, j)
    ensures u < n && |pages| == |pages0| && |lat| == |lat0| && pages[base + t] == pages0[base + u] && lat[t] == lat0[u]
  {
    hide Reordered;
    u := t;
    if t >= j {
      var a, b := Pairs(pages0, base + j, n - j, lat0, j), Pairs(pages, base + j, n - j, lat, j);
      assert b[t - j] in multiset(b) && multiset(b) == multiset(a);
      var i :| 0 <= i < |a| && a[i] == b[t - j];
      u := j + i;
    }
  }

  /** A spare page that was measured in slot j takes the last slot. */
  lemma TakenVouched(f: Call, w: Work, log: seq<Run>, run: Run, substitute: nat)
    requires w.Fits(f) && |log| == w.clock && AllVouched(f, w, log, 0, f.chunk)
    requires f.npages - 1 <= substitute < |w.pages| && run.pages != [] && Last(run.pages) == w.pages[substitute]
    ensures var w' := Work(Swap(w.pages, f.npages - 1, substitute), w.lat[f.chunk - 1 := f.times(w.clock)], w.clock + 1);
            AllVouched(f, w', log + [run], 0, f.chunk)
  {
    hide Vouched;
    var w' := Work(Swap(w.pages, f.npages - 1, substitute), w.lat[f.chunk - 1 := f.times(w.clock)], w.clock + 1);
    AllVouchedMore(f, w, w', log, run, 0, f.chunk - 1);
    VouchedNew(log, run, f.times);
  }

  /** Some run had this page as the last one in use, and did not take clearly longer than limit. */
  ghost predicate GoodPage(log: seq<Run>, times: nat -> real, page: int, limit: real) {
    exists c :: 0 <= c < |log| && log[c].pages != [] && Last(log[c].pages) == page && 0.995 * times(c) <= limit
  }

  /** All pages of the moved chunk cost nothing when they were measured. */
  ghost predicate GoodChunk(f: Call, pages: seq<int>, log: seq<Run>, limit: real)
    requires f.Valid(pages)
  {
    forall t :: 0 <= t < f.chunk ==> GoodPage(log, f.times, pages[f.Slot(t)], limit)
  }

  lemma VouchedGood(f: Call, w: Work, log: seq<Run>, limit: real)
    requires w.Fits(f) && AllVouched(f, w, log, 0, f.chunk) && forall t :: 0 <= t < f.chunk ==> 0.995 * w.lat[t] <= limit
    ensures GoodChunk(f, w.pages, log, limit)
  {
    forall t | 0 <= t < f.chunk ensures GoodPage(log, f.times, w.pages[f.Slot(t)], limit) {
      assert Vouched(log, f.times, w.pages[f.Slot(t)], w.lat[t]);
    }
  }

  /** Pages i..i+chunk of the list cost nothing when they were measured. */
  ghost predicate GoodPages(log: seq<Run>, times: nat -> real, pages: seq<int>, i: nat, chunk: nat, limit: real)
    requires i + chunk <= |pages|
  {
    forall t :: i <= t < i + chunk ==> GoodPage(log, times, pages[t], limit)
  }

  /** Moving the chunk back puts the good pages where it was, overlap or not. */
  lemma GoodMovedBack(f: Call, pages: seq<int>, log: seq<Run>, log': seq<Run>, limit: real)
    requires f.Valid(pages) && GoodChunk(f, pages, log, limit) && log <= log'
    ensures GoodPages(log', f.times, MovedChunk(f, pages), f.i, f.chunk, limit)
  {
    hide Moved;
    if f.i + f.chunk < f.npages {
      MovedShifts(pages, f.i, f.Distance(), f.chunk);
    }
    forall t | f.i <= t < f.i + f.chunk ensures GoodPage(log', f.times, MovedChunk(f, pages)[t], limit) {
      assert MovedChunk(f, pages)[t] == pages[f.Slot(t - f.i)];
      GoodMore(log, log', f.times, pages[f.Slot(t - f.i)], limit);
    }
  }

  lemma GoodMore(log: seq<Run>, log': seq<Run>, times: nat -> real, page: int, limit: real)
    requires GoodPage(log, times, page, limit) && log <= log'
    ensures GoodPage(log', times, page, limit)
  {
    var c :| 0 <= c < |log| && log[c].pages != [] && Last(log[c].pages) == page && 0.995 * times(c) <= limit;
    assert log'[c] == log[c];
  }
}
