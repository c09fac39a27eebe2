/** Rearranging the page list of cache.c: the exchange loops of remove_chunk and fixup_chunk, and pagesort. */
module PageLists {
  import opened PointerChain
  import opened Tables

  // ---------- reorderings ----------

  /** The same pages in another order. */
  ghost predicate Reordered(pages: seq<int>, pages0: seq<int>) {
    multiset(pages) == multiset(pages0)
  }

  lemma SwapReorders(pages: seq<int>, a: nat, b: nat)
    requires a < |pages| && b < |pages|
    ensures Reordered(Swap(pages, a, b), pages)
  {
  }

  lemma ReorderTrans(a: seq<int>, b: seq<int>, c: seq<int>)
    requires Reordered(a, b) && Reordered(b, c)
    ensures Reordered(a, c)
  {
  }

  lemma {:induction false} DistinctCount(pages: seq<int>)
    ensures Distinct(pages) <==> forall x :: multiset(pages)[x] <= 1
  {
    if pages != [] {
      var n := |pages| - 1;
      DistinctCount(pages[..n]);
      assert pages == pages[..n] + [pages[n]];
      assert multiset(pages) == multiset(pages[..n]) + multiset{pages[n]};
      if Distinct(pages) {
        assert pages[n] !in pages[..n] && Distinct(pages[..n]);
        forall x ensures multiset(pages)[x] <= 1 {
          assert multiset(pages)[x] == multiset(pages[..n])[x] + multiset{pages[n]}[x];
        }
      } else if Distinct(pages[..n]) {
        var t, u :| 0 <= t < u < |pages| && pages[t] == pages[u];
        assert u == n;
        assert pages[..n][t] == pages[n];
        assert multiset(pages[..n])[pages[n]] >= 1;
        assert multiset(pages)[pages[n]] == multiset(pages[..n])[pages[n]] + multiset{pages[n]}[pages[n]];
        assert multiset(pages)[pages[n]] > 1;
      } else {
        var x :| multiset(pages[..n])[x] > 1;
        assert multiset(pages)[x] > 1;
      }
    }
  }

  lemma Same(pages: seq<int>)
    ensures Reordered(pages, pages)
  {
  }

  /** Only positions lo..hi of the list changed. */
  ghost predicate Outer(pages: seq<int>, pages0: seq<int>, lo: nat, hi: nat) {
    |pages| == |pages0| && forall t :: 0 <= t < |pages| && !(lo <= t < hi) ==> pages[t] == pages0[t]
  }

  lemma OuterSame(pages: seq<int>, lo: nat, hi: nat)
    ensures Outer(pages, pages, lo, hi)
  {
  }

  lemma OuterTrans(a: seq<int>, b: seq<int>, c: seq<int>, lo: nat, hi: nat)
    requires Outer(a, b, lo, hi) && Outer(b, c, lo, hi)
    ensures Outer(a, c, lo, hi)
  {
  }

  lemma OuterSwap(pages: seq<int>, pages0: seq<int>, lo: nat, hi: nat, a: nat, b: nat)
    requires Outer(pages, pages0, lo, hi) && lo <= a < hi <= |pages| && lo <= b < hi
    ensures Outer(Swap(pages, a, b), pages0, lo, hi)
  {
  }

  lemma SwapBack(pages: seq<int>, a: nat, b: nat)
    requires a < |pages| && b < |pages|
    ensures Swap(Swap(pages, a, b), a, b) == pages
  {
  }

  lemma SwapTrans(m: seq<int>, s: seq<int>, a: nat, b: nat)
    requires a < |m| && b < |m| && Reordered(m, s)
    ensures Reordered(Swap(m, a, b), s)
  {
    hide Reordered, Swap;
    SwapReorders(m, a, b);
    ReorderTrans(Swap(m, a, b), m, s);
  }

  // ---------- the exchange loop of remove_chunk ----------

  /** The page list after c rounds of the swap loop over the pages i.. and n-1.. downwards. */
  function Passed(s: seq<int>, i: nat, n: nat, c: nat): (t: seq<int>)
    requires i + c <= n <= |s|
    ensures |t| == |s|
  {
    if c == 0 then s else Swap(Passed(s, i, n, c - 1), i + c - 1, n - c)
  }

  /** Position a is exchanged with its mirror image when exactly one of the two ends reaches it. */
  function Mirrored(s: seq<int>, i: nat, n: nat, c: nat, a: nat): int
    requires i + c <= n <= |s| && a < |s|
  {
    if i <= a < n && ((a - i < c) != (n - 1 - a < c)) then s[i + n - 1 - a] else s[a]
  }

  lemma {:induction false} PassedIsMirrored(s: seq<int>, i: nat, n: nat, c: nat, a: nat)
    requires i + c <= n <= |s| && a < |s|
    ensures Passed(s, i, n, c)[a] == Mirrored(s, i, n, c, a)
  {
    if c > 0 {
      PassedIsMirrored(s, i, n, c - 1, a);
      PassedIsMirrored(s, i, n, c - 1, i + c - 1);
      PassedIsMirrored(s, i, n, c - 1, n - c);
    }
  }

  /** Two identical passes undo each other, overlapping or not. */
  lemma PassTwice(s: seq<int>, i: nat, n: nat, c: nat)
    requires i + c <= n <= |s|
    ensures Passed(Passed(s, i, n, c), i, n, c) == s
  {
    hide Passed;
    var t := Passed(s, i, n, c);
    forall a | 0 <= a < |s|
      ensures Passed(t, i, n, c)[a] == s[a]
    {
      PassedIsMirrored(t, i, n, c, a);
      PassedIsMirrored(s, i, n, c, a);
      if i <= a < n {
        PassedIsMirrored(s, i, n, c, i + n - 1 - a);
      }
    }
  }

  /** x is a page of the first n that lies outside the chunk i..i+c. */
  ghost predicate Outside(s: seq<int>, i: nat, n: nat, c: nat, x: int)
    requires n <= |s|
  {
    exists a :: 0 <= a < n && !(i <= a < i + c) && s[a] == x
  }

  /** After a pass the first n-c pages are exactly the pages outside the chunk. */
  lemma PassMovesChunkOut(s: seq<int>, i: nat, n: nat, c: nat, x: int)
    requires i + c <= n <= |s|
    ensures x in Passed(s, i, n, c)[..n - c] <==> Outside(s, i, n, c, x)
  {
    hide Passed;
    var t := Passed(s, i, n, c);
    if x in t[..n - c] {
      var a :| 0 <= a < n - c && t[a] == x;
      PassedIsMirrored(s, i, n, c, a);
      assert Outside(s, i, n, c, x);
    }
    if Outside(s, i, n, c, x) {
      var a :| 0 <= a < n && !(i <= a < i + c) && s[a] == x;
      var b := if a < n - c then a else i + n - 1 - a;
      PassedIsMirrored(s, i, n, c, b);
      assert t[..n - c][b] == x;
    }
  }

  lemma {:induction false} PassReorders(s: seq<int>, i: nat, n: nat, c: nat)
    requires i + c <= n <= |s|
    ensures Reordered(Passed(s, i, n, c), s)
  {
    hide Swap, Reordered;
    if c == 0 {
      Same(s);
    } else {
      var t := Passed(s, i, n, c - 1);
      PassReorders(s, i, n, c - 1);
      SwapReorders(t, i + c - 1, n - c);
      ReorderTrans(Swap(t, i + c - 1, n - c), t, s);
    }
  }

  /** The swap loop. */
  method SwapLoop(pages0: seq<int>, i: nat, chunk: nat, npages: nat) returns (pages: seq<int>)
    requires i + chunk <= npages <= |pages0|
    ensures pages == Passed(pages0, i, npages, chunk)
  {
    pages := pages0;
    var j := 0;
    while j < chunk
      invariant j <= chunk && pages == Passed(pages0, i, npages, j)
    {
      var n := pages[i + j];
      pages := pages[i + j := pages[npages - 1 - j]];
      pages := pages[npages - 1 - j := n];
      j := j + 1;
    }
  }

  // ---------- pagesort ----------

  /** Each page with its latency. */
  function Pairs(pages: seq<int>, base: nat, n: nat, lat: seq<real>, off: nat): (p: seq<(int, real)>)
    requires base + n <= |pages| && off + n <= |lat|
    ensures |p| == n
  {
    seq(n, t requires 0 <= t < n => (pages[base + t], lat[off + t]))
  }

  ghost predicate Ascending(lat: seq<real>, off: nat, n: nat)
    requires off + n <= |lat|
  {
    forall a, b :: off <= a < b < off + n ==> lat[a] <= lat[b]
  }

  /** What pagesort has done so far: pairs exchanged inside the range, nothing outside it. */
  ghost predicate Sorting(pages: seq<int>, pages0: seq<int>, lat: seq<real>, lat0: seq<real>, base: nat, n: nat, off: nat)
    requires base + n <= |pages0| && off + n <= |lat0|
  {
    && |pages| == |pages0| && |lat| == |lat0| && Reordered(pages, pages0)
    && multiset(Pairs(pages, base, n, lat, off)) == multiset(Pairs(pages0, base, n, lat0, off))
    && (forall t :: 0 <= t < |pages| && !(base <= t < base + n) ==> pages[t] == pages0[t])
    && (forall t :: 0 <= t < |lat| && !(off <= t < off + n) ==> lat[t] == lat0[t])
  }

  lemma PairsSwapped(pages: seq<int>, lat: seq<real>, base: nat, n: nat, off: nat, i: nat, j: nat)
    requires base + n <= |pages| && off + n <= |lat| && i < n && j < n
    ensures var p := Pairs(pages, base, n, lat, off);
            Pairs(Swap(pages, base + i, base + j), base, n, lat[off + i := lat[off + j]][off + j := lat[off + i]], off)
            == p[i := p[j]][j := p[i]]
  {
  }

  lemma SwapMultiset<T>(p: seq<T>, i: nat, j: nat)
    requires i < |p| && j < |p|
    ensures multiset(p[i := p[j]][j := p[i]]) == multiset(p)
  {
  }

  lemma SortingStep(pages: seq<int>, pages0: seq<int>, lat: seq<real>, lat0: seq<real>, base: nat, n: nat, off: nat, i: nat, j: nat)
    requires base + n <= |pages0| && off + n <= |lat0| && i < n && j < n
    requires Sorting(pages, pages0, lat, lat0, base, n, off)
    ensures Sorting(Swap(pages, base + i, base + j), pages0, lat[off + i := lat[off + j]][off + j := lat[off + i]], lat0, base, n, off)
  {
    hide Pairs, Reordered, Sorting, Swap;
    SortingSizes(pages, pages0, lat, lat0, base, n, off);
    var pages', lat' := Swap(pages, base + i, base + j), lat[off + i := lat[off + j]][off + j := lat[off + i]];
    SwapReorders(pages, base + i, base + j);
    SwapFrame(pages, base, n, i, j);
    PairsSwapped(pages, lat, base, n, off, i, j);
    SwapMultiset(Pairs(pages, base, n, lat, off), i, j);
    SortingMoves(pages, pages', pages0, lat, lat', lat0, base, n, off);
  }

  lemma SortingSizes(pages: seq<int>, pages0: seq<int>, lat: seq<real>, lat0: seq<real>, base: nat, n: nat, off: nat)
    requires base + n <= |pages0| && off + n <= |lat0| && Sorting(pages, pages0, lat, lat0, base, n, off)
    ensures |pages| == |pages0| && |lat| == |lat0|
  {
  }

  lemma SwapFrame(pages: seq<int>, base: nat, n: nat, i: nat, j: nat)
    requires base + n <= |pages| && i < n && j < n
    ensures var s := Swap(pages, base + i, base + j); forall t :: 0 <= t < |pages| && !(base <= t < base + n) ==> s[t] == pages[t]
  {
  }

  lemma SortingMoves(pages: seq<int>, pages': seq<int>, pages0: seq<int>, lat: seq<real>, lat': seq<real>, lat0: seq<real>,
                     base: nat, n: nat, off: nat)
    requires base + n <= |pages0| && off + n <= |lat0| && Sorting(pages, pages0, lat, lat0, base, n, off)
    requires |pages'| == |pages| && |lat'| == |lat| && Reordered(pages', pages)
    requires multiset(Pairs(pages', base, n, lat', off)) == multiset(Pairs(pages, base, n, lat, off))
    requires forall t :: 0 <= t < |pages| && !(base <= t < base + n) ==> pages'[t] == pages[t]
    requires forall t :: 0 <= t < |lat| && !(off <= t < off + n) ==> lat'[t] == lat[t]
    ensures Sorting(pages', pages0, lat', lat0, base, n, off)
  {
    hide Pairs, Reordered;
    ReorderTrans(pages', pages, pages0);
  }

  /** The inner loop of pagesort from j on. */
  function InnerSort(pages: seq<int>, lat: seq<real>, base: nat, n: nat, off: nat, i: nat, j: nat): (r: (seq<int>, seq<real>))
    requires base + n <= |pages| && off + n <= |lat| && i < n && j <= n
    ensures |r.0| == |pages| && |r.1| == |lat|
    decreases n - j
  {
    if j == n then (pages, lat)
    else if lat[off + i] > lat[off + j] then
      InnerSort(Swap(pages, base + i, base + j), lat[off + i := lat[off + j]][off + j := lat[off + i]], base, n, off, i, j + 1)
    else InnerSort(pages, lat, base, n, off, i, j + 1)
  }

  /** pagesort from i on. */
  function Sorted(pages: seq<int>, lat: seq<real>, base: nat, n: nat, off: nat, i: nat): (r: (seq<int>, seq<real>))
    requires base + n <= |pages| && off + n <= |lat|
    ensures |r.0| == |pages| && |r.1| == |lat|
    decreases n - i
  {
    if i + 1 >= n then (pages, lat)
    else
      var r := InnerSort(pages, lat, base, n, off, i, i + 1);
      Sorted(r.0, r.1, base, n, off, i + 1)
  }

  /** pagesort(n, pages + base, latencies + off): by increasing latency, pages moving with their latencies. */
  method Pagesort(pages0: seq<int>, base: nat, n: nat, lat: array<real>, off: nat) returns (pages: seq<int>)
    requires base + n <= |pages0| && off + n <= lat.Length
    modifies lat
    ensures Sorting(pages, pages0, lat[..], old(lat[..]), base, n, off)
    ensures Ascending(lat[..], off, n)
    ensures (pages, lat[..]) == Sorted(pages0, old(lat[..]), base, n, off, 0)
  {
    hide Sorting, Reordered, InnerSort;
    ghost var result := Sorted(pages0, lat[..], base, n, off, 0);
    pages := pages0;
    SortingStart(pages0, lat[..], base, n, off);
    var i := 0;
    while i < n - 1
      invariant 0 <= i <= n && |pages| == |pages0|
      invariant Sorting(pages, pages0, lat[..], old(lat[..]), base, n, off)
      invariant Settled(lat[..], off, n, i)
      invariant Sorted(pages, lat[..], base, n, off, i) == result
    {
      pages := SmallestFirst(pages, pages0, base, n, lat, old(lat[..]), off, i);
      i := i + 1;
    }
  }

  /** The first i entries are in their final places. */
  ghost predicate Settled(lat: seq<real>, off: nat, n: nat, i: nat)
    requires off + n <= |lat|
  {
    forall a, b :: off <= a < off + i && a < b < off + n ==> lat[a] <= lat[b]
  }

  /** The inner loop of pagesort. */
  method SmallestFirst(pages1: seq<int>, ghost pages0: seq<int>, base: nat, n: nat, lat: array<real>, ghost lat0: seq<real>, off: nat, i: nat)
    returns (pages: seq<int>)
    requires base + n <= |pages1| == |pages0| && off + n <= lat.Length == |lat0| && i < n
    requires Sorting(pages1, pages0, lat[..], lat0, base, n, off) && Settled(lat[..], off, n, i)
    modifies lat
    ensures |pages| == |pages0| && Sorting(pages, pages0, lat[..], lat0, base, n, off) && Settled(lat[..], off, n, i + 1)
    ensures (pages, lat[..]) == InnerSort(pages1, old(lat[..]), base, n, off, i, i + 1)
  {
    hide Sorting, Reordered, Swap;
    pages := pages1;
    var j := i + 1;
    ghost var inner := InnerSort(pages, lat[..], base, n, off, i, j);
    while j < n
      invariant i < j <= n && |pages| == |pages0|
      invariant Sorting(pages, pages0, lat[..], lat0, base, n, off)
      invariant Settled(lat[..], off, n, i)
      invariant forall b :: off + i < b < off + j ==> lat[off + i] <= lat[b]
      invariant InnerSort(pages, lat[..], base, n, off, i, j) == inner
    {
      if lat[off + i] > lat[off + j] {
        SortingStep(pages, pages0, lat[..], lat0, base, n, off, i, j);
        ghost var l := lat[..];
        var t := lat[off + i];
        lat[off + i] := lat[off + j];
        lat[off + j] := t;
        assert lat[..] == l[off + i := l[off + j]][off + j := l[off + i]];
        pages := Swap(pages, base + i, base + j);
      }
      j := j + 1;
    }
  }

  lemma SortingStart(pages: seq<int>, lat: seq<real>, base: nat, n: nat, off: nat)
    requires base + n <= |pages| && off + n <= |lat|
    ensures Sorting(pages, pages, lat, lat, base, n, off)
  {
  }

  // ---------- the exchange loop of fixup_chunk ----------

  /** The page list after c rounds of the loop that exchanges page i+j with the page d further on. */
  function Moved(s: seq<int>, i: nat, d: nat, c: nat): (t: seq<int>)
    requires i + d + c <= |s|
    ensures |t| == |s|
  {
    if c == 0 then s else Swap(Moved(s, i, d, c - 1), i + c - 1, i + d + c - 1)
  }

  /** The c pages from i+d on end up at i, in order; without overlap the pages from i take their place. */
  ghost predicate Shifted(m: seq<int>, s: seq<int>, i: nat, d: nat, c: nat)
    requires i + d + c <= |s| == |m|
  {
    && (forall p {:trigger m[p]} :: i <= p < i + c ==> m[p] == s[p + d])
    && (forall p {:trigger m[p]} :: 0 <= p < i || i + d + c <= p < |s| ==> m[p] == s[p])
    && (c <= d ==>
          && (forall p {:trigger m[p]} :: i + c <= p < i + d ==> m[p] == s[p])
          && (forall p {:trigger m[p]} :: i + d <= p < i + d + c ==> m[p] == s[p - d]))
  }

  lemma {:induction false} MovedShifts(s: seq<int>, i: nat, d: nat, c: nat)
    requires d > 0 && i + d + c <= |s|
    ensures Shifted(Moved(s, i, d, c), s, i, d, c)
  {
    if c > 0 {
      MovedShifts(s, i, d, c - 1);
      ShiftMore(Moved(s, i, d, c - 1), s, i, d, c);
    }
  }

  lemma ShiftMore(m: seq<int>, s: seq<int>, i: nat, d: nat, c: nat)
    requires d > 0 && c > 0 && i + d + c <= |s| == |m| && Shifted(m, s, i, d, c - 1)
    ensures Shifted(Swap(m, i + c - 1, i + d + c - 1), s, i, d, c)
  {
    var a, b := i + c - 1, i + d + c - 1;
    var m' := Swap(m, a, b);
    assert m'[a] == m[b] == s[b] && m'[b] == m[a];
    forall p | 0 <= p < |s| && p != a && p != b ensures m'[p] == m[p] {
    }
    assert c <= d ==> m[a] == s[a];
  }

  lemma {:induction false} MoveReorders(s: seq<int>, i: nat, d: nat, c: nat)
    requires i + d + c <= |s|
    ensures Reordered(Moved(s, i, d, c), s)
  {
    hide Reordered, Swap;
    if c == 0 {
      Same(s);
    } else {
      MoveReorders(s, i, d, c - 1);
      SwapTrans(Moved(s, i, d, c - 1), s, i + c - 1, i + d + c - 1);
    }
  }

  /** Moving the chunk back undoes moving it out exactly when chunk and tail do not overlap. */
  lemma MoveBackExactly(s: seq<int>, i: nat, n: nat, c: nat)
    requires Distinct(s) && c >= 1 && i + c < n <= |s|
    ensures var d: nat := n - c - i;
            Moved(Moved(s, i, d, c), i, d, c) == s <==> i + 2 * c <= n
  {
    hide Moved;
    var d: nat := n - c - i;
    var m := Moved(s, i, d, c);
    var b := Moved(m, i, d, c);
    MovedShifts(s, i, d, c);
    MovedShifts(m, i, d, c);
    if c <= d {
      ShiftBack(b, m, s, i, d, c);
    } else {
      assert b[i] == m[i + d];
      assert m[i + d] == s[i + d + d];
      assert s[i] != s[i + d + d];
    }
  }

  lemma ShiftBack(b: seq<int>, m: seq<int>, s: seq<int>, i: nat, d: nat, c: nat)
    requires i + d + c <= |s| == |m| == |b| && c <= d && Shifted(m, s, i, d, c) && Shifted(b, m, i, d, c)
    ensures b == s
  {
    forall p | 0 <= p < |s| ensures b[p] == s[p] {
      if i <= p < i + c {
        var q := p + d;
        assert b[p] == m[q];
        assert m[q] == s[q - d];
      } else if i + d <= p < i + d + c {
        var q := p - d;
        assert b[p] == m[q];
        assert m[q] == s[q + d];
      } else {
        assert b[p] == m[p];
      }
    }
  }
}
